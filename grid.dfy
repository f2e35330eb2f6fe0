/**
 * The playing field (src/game_objects/grid.rs): a row-major vector of cells
 * with its dimensions, the occupancy queries that treat every edge as a wall,
 * the rigid sideways moves of a pair, the rotation check, and the flood fill
 * that finds a connected group of same-coloured cells.
 */
module Grids {
  import opened Options
  import opened Positions
  import opened Pieces

  /** Row-major slot of `p` on a board `width` cells wide. */
  function Offset(width: nat, p: GridPosition): int
  {
    width * p.row + p.col
  }

  /** The position stored in slot `k`. */
  function PositionOf(width: nat, k: nat): GridPosition
    requires width > 0
  {
    GridPosition(k / width, k % width)
  }

  lemma MulMonotone(a: nat, b: int, c: int)
    requires b <= c
    ensures a * b <= a * c
  {
  }

  lemma MulSucc(a: int, b: int)
    ensures a * (b + 1) == a * b + a
  {
  }

  /** Valid positions fill exactly the slots below `width * height`. */
  lemma OffsetInRange(height: nat, width: nat, p: GridPosition)
    requires 0 <= p.row < height && 0 <= p.col < width
    ensures 0 <= Offset(width, p) < width * height
  {
    MulMonotone(width, 0, p.row);
    MulMonotone(width, p.row + 1, height);
    MulSucc(width, p.row);
  }

  /** Euclidean division recovers quotient and remainder. */
  lemma {:induction false} DivModUnique(w: int, q: int, r: int)
    requires 0 <= r < w
    ensures (w * q + r) / w == q && (w * q + r) % w == r
  {
    var k := w * q + r;
    var q', r' := k / w, k % w;
    assert k == w * q' + r' && 0 <= r' < w;
    if q' > q {
      MulMonotone(w, q + 1, q');
      MulSucc(w, q);
      assert false;
    } else if q' < q {
      MulMonotone(w, q' + 1, q);
      MulSucc(w, q');
      assert false;
    }
  }

  /** Slot and position are inverse: the layout is row-major and one-to-one. */
  lemma {:induction false} OffsetRoundTrip(height: nat, width: nat, p: GridPosition, k: nat)
    requires 0 <= p.row < height && 0 <= p.col < width
    ensures PositionOf(width, Offset(width, p)) == p
    ensures k < width * height ==> Offset(width, PositionOf(width, k)) == k
    ensures k < width * height ==> 0 <= PositionOf(width, k).row < height
  {
    OffsetInRange(height, width, p);
    DivModUnique(width, p.row, p.col);
    if k < width * height {
      var r := PositionOf(width, k);
      assert k == width * r.row + r.col;
      if r.row >= height {
        MulMonotone(width, height, r.row);
        assert false;
      }
    }
  }

  /** Distinct valid positions never share a slot. */
  lemma OffsetInjective(height: nat, width: nat, p: GridPosition, q: GridPosition)
    requires 0 <= p.row < height && 0 <= p.col < width
    requires 0 <= q.row < height && 0 <= q.col < width
    ensures Offset(width, p) == Offset(width, q) <==> p == q
  {
    OffsetRoundTrip(height, width, p, 0);
    OffsetRoundTrip(height, width, q, 0);
  }

  /** A snapshot of a grid: its dimensions and its cells in row-major order. */
  datatype Board<T> = Board(height: nat, width: nat, cells: seq<T>)
  {
    /** The grid invariant checked when a grid is built. */
    predicate WellFormed()
    {
      |cells| == width * height
    }

    /** Inside the board; negative or overflowing coordinates are never wrapped. */
    predicate IsValid(p: GridPosition)
    {
      p.row < height && p.col < width && p.row >= 0 && p.col >= 0
    }

    /** The cell at `p` (indexing, restricted to valid positions). */
    function Get(p: GridPosition): T
      requires WellFormed() && IsValid(p)
    {
      OffsetInRange(height, width, p);
      cells[Offset(width, p)]
    }

    /** The board with the cell at `p` overwritten by `v`. */
    function Set(p: GridPosition, v: T): (b: Board<T>)
      requires WellFormed() && IsValid(p)
      ensures b.WellFormed() && b.height == height && b.width == width
      ensures b.Get(p) == v
      ensures forall q :: IsValid(q) && q != p ==> b.Get(q) == Get(q)
    {
      OffsetInRange(height, width, p);
      var b := Board(height, width, cells[Offset(width, p) := v]);
      SetFrame(this, b, p, v);
      b
    }
  }

  lemma SetFrame<T>(a: Board<T>, b: Board<T>, p: GridPosition, v: T)
    requires a.WellFormed() && a.IsValid(p)
    requires 0 <= Offset(a.width, p) < |a.cells|
    requires b == Board(a.height, a.width, a.cells[Offset(a.width, p) := v])
    ensures b.WellFormed() && b.Get(p) == v
    ensures forall q :: a.IsValid(q) && q != p ==> b.Get(q) == a.Get(q)
  {
    forall q | a.IsValid(q) && q != p
      ensures b.Get(q) == a.Get(q)
    {
      OffsetInRange(a.height, a.width, q);
      OffsetInjective(a.height, a.width, p, q);
    }
  }

  /** Cell (r, c) is the entry `width * r + c` of the row-major data. */
  lemma {:induction false} GetIsRowMajor<T>(b: Board<T>, k: nat)
    requires b.WellFormed() && b.width > 0 && k < |b.cells|
    ensures b.IsValid(PositionOf(b.width, k))
    ensures b.Get(PositionOf(b.width, k)) == b.cells[k]
  {
    OffsetRoundTrip(b.height, b.width, GridPosition(0, 0), k);
  }

  /** The 2x2 board built from [1, 2, 3, 4] holds 2 at (0, 1) and 3 at (1, 0). */
  lemma IndexExample()
    ensures Board(2, 2, [1, 2, 3, 4]).Get(GridPosition(0, 1)) == 2
    ensures Board(2, 2, [1, 2, 3, 4]).Get(GridPosition(1, 0)) == 3
  {
  }

  /** A board of the given size with every cell empty. */
  function EmptyBoard<T>(height: nat, width: nat): (b: Board<Option<T>>)
    ensures b.WellFormed() && b.height == height && b.width == width
    ensures forall p :: b.IsValid(p) ==> b.Get(p) == None
  {
    var b := Board(height, width, seq(width * height, _ => None));
    assert forall p :: b.IsValid(p) ==> b.Get(p) == None by {
      forall p | b.IsValid(p)
        ensures b.Get(p) == None
      {
        OffsetInRange(height, width, p);
      }
    }
    b
  }

  /** Valid and unoccupied; positions off the board are never empty. */
  predicate IsEmpty<T>(b: Board<Option<T>>, p: GridPosition)
    requires b.WellFormed()
  {
    b.IsValid(p) && b.Get(p).None?
  }

  predicate CanMoveLeft<T>(b: Board<Option<T>>, p: GridPosition)
    requires b.WellFormed()
  {
    IsEmpty(b, p.Translate(0, -1))
  }

  predicate CanMoveRight<T>(b: Board<Option<T>>, p: GridPosition)
    requires b.WellFormed()
  {
    IsEmpty(b, p.Translate(0, 1))
  }

  predicate CanMoveDown<T>(b: Board<Option<T>>, p: GridPosition)
    requires b.WellFormed()
  {
    IsEmpty(b, p.Translate(-1, 0))
  }

  /** Turning is allowed when the turned pair's second cell is empty; no wall kick. */
  predicate CanTurnClockwise<T>(b: Board<Option<T>>, pair: Pair, p: GridPosition)
    requires b.WellFormed()
  {
    IsEmpty(b, pair.TurnClockwise().GetSecondPosition(p))
  }

  /**
   * The four borders behave as occupied: a cell one step outside any edge is
   * not empty, so a valid cell on an edge cannot move through it.
   */
  lemma EdgesAreWalls<T>(b: Board<Option<T>>, p: GridPosition, r: int, c: int)
    requires b.WellFormed()
    ensures IsEmpty(b, p) ==> b.IsValid(p)
    ensures !IsEmpty(b, GridPosition(-1, c)) && !IsEmpty(b, GridPosition(b.height, c))
    ensures !IsEmpty(b, GridPosition(r, -1)) && !IsEmpty(b, GridPosition(r, b.width))
    ensures p.col == 0 ==> !CanMoveLeft(b, p)
    ensures p.col == b.width - 1 ==> !CanMoveRight(b, p)
    ensures p.row == 0 ==> !CanMoveDown(b, p)
  {
  }

  /** On an empty 2x2 board (0, 0) can move right and (0, 1) cannot. */
  lemma MoveRightExample()
    ensures CanMoveRight(EmptyBoard<int>(2, 2), GridPosition(0, 0))
    ensures !CanMoveRight(EmptyBoard<int>(2, 2), GridPosition(0, 1))
  {
  }

  /**
   * The grid: fixed dimensions and a data vector of `width * height` cells
   * that `place_cell` overwrites in place. `cell_size` and
   * `left_bottom_corner` are screen geometry and are not part of this class.
   */
  class Grid<T> {
    const height: nat
    const width: nat
    const data: array<T>

    ghost predicate Valid()
    {
      data.Length == width * height
    }

    /** The current contents as a board value. */
    function View(): (b: Board<T>)
      reads data
      ensures b.height == height && b.width == width && b.cells == data[..]
      ensures Valid() ==> b.WellFormed()
    {
      Board(height, width, data[..])
    }

    /** `Grid::new`: the data length must equal `width * height`. */
    constructor (height: nat, width: nat, cells: seq<T>)
      requires |cells| == width * height
      ensures Valid() && fresh(data)
      ensures View() == Board(height, width, cells)
    {
      this.height := height;
      this.width := width;
      this.data := new T[|cells|](i requires 0 <= i < |cells| => cells[i]);
      new;
      assert data[..] == cells;
    }

    /** `Index`: the cell stored at a valid position. */
    function Index(p: GridPosition): (v: T)
      reads data
      requires Valid() && View().IsValid(p)
      ensures v == View().Get(p)
    {
      OffsetInRange(height, width, p);
      data[Offset(width, p)]
    }

    /**
     * `place_cell` / `IndexMut`: cell `p` becomes `value`, every other cell
     * and both dimensions stay as they were.
     */
    method PlaceCell(p: GridPosition, value: T)
      requires Valid() && View().IsValid(p)
      modifies data
      ensures Valid()
      ensures View() == old(View()).Set(p, value)
      ensures View().Get(p) == value
      ensures forall q :: View().IsValid(q) && q != p ==> View().Get(q) == old(View()).Get(q)
    {
      OffsetInRange(height, width, p);
      data[Offset(width, p)] := value;
      assert data[..] == old(data[..])[Offset(width, p) := value];
    }
  }

  /** The 2x2 grid built from [1, 2, 3, 4] reads 2 at (0, 1) and 3 at (1, 0). */
  method IndexGridExample() returns (a: int, c: int)
    ensures a == 2 && c == 3
  {
    var g := new Grid(2, 2, [1, 2, 3, 4]);
    a := g.Index(GridPosition(0, 1));
    c := g.Index(GridPosition(1, 0));
  }

  /**
   * `move_right_pair`: the pair moves one column right, as a unit, exactly
   * when the cells right of both pieces are empty; otherwise it stays.
   * The grid is only read.
   */
  method MoveRightPair<U>(g: Grid<Option<U>>, pair: Pair, position: GridPosition)
    returns (moved: GridPosition)
    requires g.Valid()
    ensures moved.row == position.row
    ensures moved == position.Translate(0, 1) || moved == position
    ensures moved != position <==>
      CanMoveRight(g.View(), position) && CanMoveRight(g.View(), pair.GetSecondPosition(position))
    ensures moved != position ==>
      IsEmpty(g.View(), moved) && IsEmpty(g.View(), pair.GetSecondPosition(moved))
  {
    moved := position;
    if CanMoveRight(g.View(), position) && CanMoveRight(g.View(), pair.GetSecondPosition(position)) {
      moved := GridPosition(moved.row, moved.col + 1);
      SecondPositionTranslate(pair, position, 0, 1);
    }
  }

  /** `move_left_pair`: the mirror image of `MoveRightPair`. */
  method MoveLeftPair<U>(g: Grid<Option<U>>, pair: Pair, position: GridPosition)
    returns (moved: GridPosition)
    requires g.Valid()
    ensures moved.row == position.row
    ensures moved == position.Translate(0, -1) || moved == position
    ensures moved != position <==>
      CanMoveLeft(g.View(), position) && CanMoveLeft(g.View(), pair.GetSecondPosition(position))
    ensures moved != position ==>
      IsEmpty(g.View(), moved) && IsEmpty(g.View(), pair.GetSecondPosition(moved))
  {
    moved := position;
    if CanMoveLeft(g.View(), position) && CanMoveLeft(g.View(), pair.GetSecondPosition(position)) {
      moved := GridPosition(moved.row, moved.col - 1);
      SecondPositionTranslate(pair, position, 0, -1);
    }
  }

  /** A permitted turn puts the second piece on an empty cell next to the first. */
  lemma TurnLands<T>(b: Board<Option<T>>, pair: Pair, p: GridPosition)
    requires b.WellFormed() && CanTurnClockwise(b, pair, p)
    ensures var s := pair.TurnClockwise().GetSecondPosition(p);
      IsEmpty(b, s) && IsAdjacent(p, s) && b.IsValid(s)
  {
  }

  // ---------------------------------------------------------------------
  // Connected groups of same-coloured cells

  /** `p` is a valid cell holding a piece of colour `c`. */
  predicate HasColor<U>(b: Board<Option<(PieceColor, U)>>, p: GridPosition, c: PieceColor)
  {
    b.WellFormed() && b.IsValid(p) && b.Get(p).Some? && b.Get(p).value.0 == c
  }

  /** Element `i` of `s` is adjacent to an earlier element. */
  ghost predicate HangsAt(s: seq<GridPosition>, i: int)
  {
    0 <= i < |s| && exists j :: 0 <= j < i && IsAdjacent(s[j], s[i])
  }

  /** `x` is adjacent to some element of `s`. */
  ghost predicate Hangs(s: seq<GridPosition>, x: GridPosition)
  {
    exists j :: 0 <= j < |s| && IsAdjacent(s[j], x)
  }

  /** Every element after the first is adjacent to an earlier one, so all are connected to the first. */
  ghost predicate Linked(s: seq<GridPosition>)
  {
    forall i :: 0 < i < |s| ==> HangsAt(s, i)
  }

  /** The valid cells holding colour `c`. */
  ghost function ColorCells<U>(b: Board<Option<(PieceColor, U)>>, c: PieceColor): (ok: set<GridPosition>)
    ensures forall p :: p in ok <==> HasColor(b, p, c)
  {
    var ok := set r: int, col: int | 0 <= r < b.height && 0 <= col < b.width && HasColor(b, GridPosition(r, col), c)
      :: GridPosition(r, col);
    assert forall p :: HasColor(b, p, c) ==> p in ok by {
      forall p | HasColor(b, p, c) ensures p in ok {
        assert p == GridPosition(p.row, p.col);
      }
    }
    ok
  }

  /** Every neighbour in `ok` of an element of `s` is an element. */
  ghost predicate Closed(ok: set<GridPosition>, s: seq<GridPosition>)
  {
    forall p, q :: p in s && IsAdjacent(p, q) && q in ok ==> q in s
  }

  /**
   * `s` lists the group of `ok` cells connected to `seed`: it starts at the
   * seed, lists each member once, holds only `ok` cells, is connected, and
   * holds every `ok` neighbour of a member.
   */
  ghost predicate IsGroup(ok: set<GridPosition>, seed: GridPosition, s: seq<GridPosition>)
  {
    |s| > 0 && s[0] == seed && Distinct(s) &&
    (forall i :: 0 <= i < |s| ==> s[i] in ok) &&
    Linked(s) && Closed(ok, s)
  }

  /** `s` is the connected group of the seed's colour around an occupied `seed`. */
  ghost predicate IsConnComp<U>(b: Board<Option<(PieceColor, U)>>, seed: GridPosition, s: seq<GridPosition>)
  {
    b.WellFormed() && b.IsValid(seed) && b.Get(seed).Some? &&
    IsGroup(ColorCells(b, b.Get(seed).value.0), seed, s)
  }

  /**
   * What a connected group means on the board: the seed comes first, no
   * position twice, every member is a valid cell of the seed's colour, and
   * every valid same-coloured neighbour of a member is a member.
   */
  lemma ConnCompMeaning<U>(b: Board<Option<(PieceColor, U)>>, seed: GridPosition, s: seq<GridPosition>)
    requires IsConnComp(b, seed, s)
    ensures var c := b.Get(seed).value.0;
      s[0] == seed && Distinct(s) && Linked(s) &&
      (forall i :: 0 <= i < |s| ==> HasColor(b, s[i], c)) &&
      (forall p, q :: p in s && IsAdjacent(p, q) && HasColor(b, q, c) ==> q in s)
  {
  }

  /** Every member of one group around `seed` is in any other. */
  lemma {:induction false} GroupWithin(ok: set<GridPosition>, seed: GridPosition,
                                       s: seq<GridPosition>, t: seq<GridPosition>, i: nat)
    requires IsGroup(ok, seed, s) && IsGroup(ok, seed, t) && i < |s|
    ensures s[i] in t
    decreases i
  {
    if i > 0 {
      assert HangsAt(s, i);
      var j :| 0 <= j < i && IsAdjacent(s[j], s[i]);
      GroupWithin(ok, seed, s, t, j);
    }
  }

  /** The connected group around a seed is unique up to order. */
  lemma ConnCompUnique<U>(b: Board<Option<(PieceColor, U)>>, seed: GridPosition,
                          s: seq<GridPosition>, t: seq<GridPosition>)
    requires IsConnComp(b, seed, s) && IsConnComp(b, seed, t)
    ensures forall p :: p in s <==> p in t
  {
    var ok := ColorCells(b, b.Get(seed).value.0);
    forall p | p in s ensures p in t {
      var i :| 0 <= i < |s| && s[i] == p;
      GroupWithin(ok, seed, s, t, i);
    }
    forall p | p in t ensures p in s {
      var i :| 0 <= i < |t| && t[i] == p;
      GroupWithin(ok, seed, t, s, i);
    }
  }

  /**
   * The neighbours of `ns` that the `seen` set has not yet recorded, in
   * order, each recorded as soon as it is met.
   */
  function Unseen(ns: seq<GridPosition>, seen: set<GridPosition>): seq<GridPosition>
  {
    if ns == [] then []
    else if ns[0] in seen then Unseen(ns[1..], seen)
    else [ns[0]] + Unseen(ns[1..], seen + {ns[0]})
  }

  /** `Unseen` keeps exactly the unrecorded elements, once each. */
  lemma {:induction false} UnseenSpec(ns: seq<GridPosition>, seen: set<GridPosition>)
    ensures forall x :: x in Unseen(ns, seen) <==> x in ns && x !in seen
    ensures Distinct(Unseen(ns, seen))
  {
    if ns != [] {
      if ns[0] in seen {
        UnseenSpec(ns[1..], seen);
      } else {
        UnseenSpec(ns[1..], seen + {ns[0]});
        var rest := Unseen(ns[1..], seen + {ns[0]});
        assert Unseen(ns, seen) == [ns[0]] + rest;
        forall x ensures x in Unseen(ns, seen) <==> x in ns && x !in seen {
          assert x in ns <==> x == ns[0] || x in ns[1..];
        }
      }
    }
  }

  /**
   * `add_position`: append `position` to the group and push each of its
   * neighbours not yet seen onto the work stack, marking it seen.
   */
  method AddPosition(position: GridPosition, comp: seq<GridPosition>,
                     adjacent: seq<GridPosition>, seen: set<GridPosition>)
    returns (comp': seq<GridPosition>, adjacent': seq<GridPosition>, seen': set<GridPosition>)
    ensures comp' == comp + [position]
    ensures adjacent' == adjacent + Unseen(GetAdjacent(position), seen)
    ensures forall x :: x in seen' <==> x in seen || x in GetAdjacent(position)
  {
    comp' := comp + [position];
    adjacent', seen' := adjacent, seen;
    var ns := GetAdjacent(position);
    for i := 0 to |ns|
      invariant forall x :: x in seen' <==> x in seen || x in ns[..i]
      invariant adjacent' + Unseen(ns[i..], seen') == adjacent + Unseen(ns, seen)
    {
      var p := ns[i];
      assert ns[i..] == [p] + ns[i + 1..];
      assert ns[..i + 1] == ns[..i] + [p];
      if p !in seen' {
        seen' := seen' + {p};
        adjacent' := adjacent' + [p];
      }
    }
    assert ns[..|ns|] == ns;
  }

  /** Removing more of a finite set leaves less of it. */
  lemma {:induction false} SubsetCard<X>(a: set<X>, b: set<X>)
    requires a <= b
    ensures |a| <= |b|
  {
    if a != {} {
      var x :| x in a;
      SubsetCard(a - {x}, b - {x});
    }
  }

  /** The cells on the board or one step outside it. */
  ghost function Frame(height: nat, width: nat): set<GridPosition>
  {
    set r: int, c: int | -1 <= r <= height && -1 <= c <= width :: GridPosition(r, c)
  }

  lemma InFrame(height: nat, width: nat, p: GridPosition)
    requires -1 <= p.row <= height && -1 <= p.col <= width
    ensures p in Frame(height, width)
  {
    assert p == GridPosition(p.row, p.col);
  }

  /**
   * What the flood fill keeps true, with `ok` the cells of the seed's colour:
   * the group so far is linked, distinct and inside `ok`; every stacked cell
   * is seen, not yet in the group and next to a member; every neighbour of a
   * member is seen; and a seen cell of `ok` is in the group or still stacked.
   */
  ghost predicate FillInv(ok: set<GridPosition>, seed: GridPosition,
                          comp: seq<GridPosition>, adj: seq<GridPosition>,
                          seen: set<GridPosition>, frame: set<GridPosition>)
  {
    |comp| > 0 && comp[0] == seed && Distinct(comp) && Distinct(adj) &&
    (forall i :: 0 <= i < |comp| ==> comp[i] in ok) &&
    (forall x :: x in comp ==> x !in adj && x in seen) &&
    (forall x :: x in adj ==> x in seen) &&
    Linked(comp) &&
    (forall x :: x in adj ==> Hangs(comp, x)) &&
    (forall x, q :: x in comp && IsAdjacent(x, q) ==> q in seen) &&
    (forall x :: x in seen ==> x in comp || x in adj || x !in ok) &&
    seen <= frame
  }

  lemma FillInit(ok: set<GridPosition>, seed: GridPosition, seen: set<GridPosition>, height: nat, width: nat)
    requires seed in ok && 0 <= seed.row < height && 0 <= seed.col < width
    requires forall x :: x in seen <==> x == seed || x in GetAdjacent(seed)
    ensures FillInv(ok, seed, [seed], GetAdjacent(seed), seen, Frame(height, width))
  {
    forall x | x in seen ensures x in Frame(height, width) {
      InFrame(height, width, x);
    }
    forall x | x in GetAdjacent(seed) ensures Hangs([seed], x) {
      assert IsAdjacent([seed][0], x);
    }
  }

  /** Popping a cell outside `ok` keeps the invariant. */
  lemma FillSkip(ok: set<GridPosition>, seed: GridPosition,
                 comp: seq<GridPosition>, adj: seq<GridPosition>,
                 seen: set<GridPosition>, frame: set<GridPosition>)
    requires FillInv(ok, seed, comp, adj, seen, frame) && adj != []
    requires adj[|adj| - 1] !in ok
    ensures FillInv(ok, seed, comp, adj[..|adj| - 1], seen, frame)
  {
    var adj' := adj[..|adj| - 1];
    forall x | x in seen ensures x in comp || x in adj' || x !in ok {
      if x in adj && x != adj[|adj| - 1] {
        var k :| 0 <= k < |adj| && adj[k] == x;
        assert adj'[k] == x;
      }
    }
    assert forall x :: x in adj' ==> x in adj;
  }

  /** The group after appending `p`, which hangs on an earlier member, stays linked. */
  lemma LinkedAppend(comp: seq<GridPosition>, p: GridPosition)
    requires Linked(comp) && Hangs(comp, p)
    ensures Linked(comp + [p])
  {
    var comp' := comp + [p];
    forall i | 0 < i < |comp'| ensures HangsAt(comp', i) {
      if i < |comp| {
        assert HangsAt(comp, i);
        var j :| 0 <= j < i && IsAdjacent(comp[j], comp[i]);
        assert comp'[j] == comp[j] && comp'[i] == comp[i];
      } else {
        var j :| 0 <= j < |comp| && IsAdjacent(comp[j], p);
        assert comp'[j] == comp[j] && comp'[i] == p;
      }
    }
  }

  /** The stack after popping `p` and pushing its unseen neighbours stays duplicate-free and apart from the group. */
  lemma StackAfterAdd(comp: seq<GridPosition>, adj: seq<GridPosition>, seen: set<GridPosition>,
                      pushed: seq<GridPosition>)
    requires Distinct(adj) && Distinct(pushed)
    requires forall x :: x in adj ==> x in seen
    requires forall x :: x in pushed ==> x !in seen
    ensures Distinct(adj + pushed)
  {
    var adj' := adj + pushed;
    forall i, j | 0 <= i < j < |adj'| ensures adj'[i] != adj'[j] {
      if j >= |adj| && i < |adj| {
        assert adj'[i] == adj[i] && adj'[j] == pushed[j - |adj|];
        assert adj[i] in adj && pushed[j - |adj|] in pushed;
      } else if i >= |adj| {
        assert adj'[i] == pushed[i - |adj|] && adj'[j] == pushed[j - |adj|];
      } else {
        assert adj'[i] == adj[i] && adj'[j] == adj[j];
      }
    }
  }

  /** Each stacked cell still hangs on a member after the step. */
  lemma StackHangs(comp: seq<GridPosition>, adj0: seq<GridPosition>, p: GridPosition, pushed: seq<GridPosition>)
    requires forall x :: x in adj0 ==> Hangs(comp, x)
    requires forall x :: x in pushed ==> IsAdjacent(p, x)
    ensures forall x :: x in adj0 + pushed ==> Hangs(comp + [p], x)
  {
    var comp' := comp + [p];
    forall x | x in adj0 + pushed ensures Hangs(comp', x) {
      if x in adj0 {
        var j :| 0 <= j < |comp| && IsAdjacent(comp[j], x);
        assert comp'[j] == comp[j];
      } else {
        assert comp'[|comp|] == p;
      }
    }
  }

  /** Popping a cell of `ok` and adding it with `add_position` keeps the invariant. */
  lemma FillAdd(ok: set<GridPosition>, seed: GridPosition,
                comp: seq<GridPosition>, adj: seq<GridPosition>,
                seen: set<GridPosition>, frame: set<GridPosition>, seen': set<GridPosition>,
                height: nat, width: nat)
    requires FillInv(ok, seed, comp, adj, seen, frame) && adj != []
    requires var p := adj[|adj| - 1]; p in ok && 0 <= p.row < height && 0 <= p.col < width
    requires frame == Frame(height, width)
    requires forall x :: x in seen' <==> x in seen || x in GetAdjacent(adj[|adj| - 1])
    ensures var p := adj[|adj| - 1];
      FillInv(ok, seed, comp + [p], adj[..|adj| - 1] + Unseen(GetAdjacent(p), seen), seen', frame)
  {
    var p := adj[|adj| - 1];
    var adj0 := adj[..|adj| - 1];
    var pushed := Unseen(GetAdjacent(p), seen);
    var comp', adj' := comp + [p], adj0 + pushed;
    UnseenSpec(GetAdjacent(p), seen);
    assert adj == adj0 + [p];
    assert p !in adj0;
    LinkedAppend(comp, p);
    StackHangs(comp, adj0, p, pushed);
    StackAfterAdd(comp, adj0, seen, pushed);
    assert Distinct(comp') by {
      forall i, j | 0 <= i < j < |comp'| ensures comp'[i] != comp'[j] {
        if j == |comp| { assert comp'[i] in comp; }
      }
    }
    forall x | x in seen' ensures x in frame {
      if x !in seen {
        InFrame(height, width, x);
      }
    }
  }

  /** With nothing left on the stack the invariant is the connected group. */
  lemma FillDone<U>(b: Board<Option<(PieceColor, U)>>, seed: GridPosition,
                    comp: seq<GridPosition>, seen: set<GridPosition>, frame: set<GridPosition>)
    requires b.WellFormed() && b.IsValid(seed) && b.Get(seed).Some?
    requires FillInv(ColorCells(b, b.Get(seed).value.0), seed, comp, [], seen, frame)
    ensures IsConnComp(b, seed, comp)
  {
  }

  /**
   * Each pass of the loop either marks a new cell of the frame as seen, or
   * pushes nothing and so shortens the stack.
   */
  lemma FillMeasure(frame: set<GridPosition>, seen: set<GridPosition>, seen': set<GridPosition>,
                    ns: seq<GridPosition>)
    requires seen' <= frame
    requires forall x :: x in seen' <==> x in seen || x in ns
    ensures |frame - seen'| < |frame - seen| || (seen' == seen && Unseen(ns, seen) == [])
  {
    UnseenSpec(ns, seen);
    if seen' != seen {
      var x :| x in seen' && x !in seen;
      SubsetCard(frame - seen', (frame - seen) - {x});
    }
  }

  /**
   * `find_conn_comp`: an explicit-stack flood fill from `seed`. Empty for an
   * empty seed cell; otherwise the connected group of the seed's colour, with
   * the seed first and no position twice.
   */
  method FindConnComp<U>(g: Grid<Option<(PieceColor, U)>>, seed: GridPosition)
    returns (comp: seq<GridPosition>)
    requires g.Valid() && g.View().IsValid(seed)
    ensures g.View().Get(seed).None? ==> comp == []
    ensures g.View().Get(seed).Some? ==> IsConnComp(g.View(), seed, comp)
  {
    ghost var b := g.View();
    var cell := g.Index(seed);
    if cell.None? {
      return [];
    }
    var c := cell.value.0;
    ghost var ok := ColorCells(b, c);
    comp := [seed];
    var adjacent := GetAdjacent(seed);
    var seen := set x | x in adjacent;
    seen := seen + {seed};
    ghost var frame := Frame(g.height, g.width);
    FillInit(ok, seed, seen, g.height, g.width);

    while adjacent != []
      invariant FillInv(ok, seed, comp, adjacent, seen, frame)
      decreases |frame - seen|, |adjacent|
    {
      var position := adjacent[|adjacent| - 1];
      ghost var oldSeen, oldAdj := seen, adjacent;
      adjacent := adjacent[..|adjacent| - 1];
      if !g.View().IsValid(position) {
        FillSkip(ok, seed, comp, oldAdj, seen, frame);
        continue;
      }
      var here := g.Index(position);
      if here.Some? && here.value.0 == c {
        comp, adjacent, seen := AddPosition(position, comp, adjacent, seen);
        FillAdd(ok, seed, comp[..|comp| - 1], oldAdj, oldSeen, frame, seen, g.height, g.width);
        assert comp[..|comp| - 1] + [position] == comp;
        FillMeasure(frame, oldSeen, seen, GetAdjacent(position));
      } else {
        FillSkip(ok, seed, comp, oldAdj, seen, frame);
      }
    }
    FillDone(b, seed, comp, seen, frame);
  }

  /** The board of the flood-fill unit test: Red, Red on row 0 and Blue, empty on row 1. */
  predicate IsTestBoard<U>(b: Board<Option<(PieceColor, U)>>)
  {
    b.height == 2 && b.width == 2 && b.WellFormed() &&
    HasColor(b, GridPosition(0, 0), Red) && HasColor(b, GridPosition(0, 1), Red) &&
    HasColor(b, GridPosition(1, 0), Blue) && IsEmpty(b, GridPosition(1, 1))
  }

  /** The cells the flood-fill unit test writes, in row-major order, form the test board. */
  lemma TestBoardCells<U>(id: U)
    ensures IsTestBoard(Board(2, 2, [Some((Red, id)), Some((Red, id)), Some((Blue, id)), None]))
  {
    var b := Board(2, 2, [Some((Red, id)), Some((Red, id)), Some((Blue, id)), None]);
    GetIsRowMajor(b, 1);
    GetIsRowMajor(b, 2);
    GetIsRowMajor(b, 3);
    assert PositionOf(2, 1) == GridPosition(0, 1);
    assert PositionOf(2, 2) == GridPosition(1, 0);
    assert PositionOf(2, 3) == GridPosition(1, 1);
  }

  /** On the test board the red cells are (0, 0) and (0, 1). */
  lemma TestBoardRed<U>(b: Board<Option<(PieceColor, U)>>)
    requires IsTestBoard(b)
    ensures ColorCells(b, Red) == {GridPosition(0, 0), GridPosition(0, 1)}
  {
    var ok := ColorCells(b, Red);
    forall p | p in ok ensures p == GridPosition(0, 0) || p == GridPosition(0, 1) {
    }
    assert GridPosition(0, 0) in ok && GridPosition(0, 1) in ok;
  }

  /** A sequence without repeats has as many elements as its set. */
  lemma {:induction false} DistinctCard<X>(s: seq<X>)
    requires Distinct(s)
    ensures |(set x | x in s)| == |s|
  {
    if s != [] {
      var t, last := s[..|s| - 1], s[|s| - 1];
      assert Distinct(t) by {
        forall i, j | 0 <= i < j < |t| ensures t[i] != t[j] {
          assert t[i] == s[i] && t[j] == s[j];
        }
      }
      DistinctCard(t);
      assert s == t + [last];
      assert (set x | x in s) == (set x | x in t) + {last};
      assert last !in t by {
        forall k | 0 <= k < |t| ensures t[k] != last {
          assert t[k] == s[k];
        }
      }
    }
  }

  /** A group inside the two top cells, seeded at (0, 0), is exactly the two in order. */
  lemma GroupOfTopPair(s: seq<GridPosition>)
    requires IsGroup({GridPosition(0, 0), GridPosition(0, 1)}, GridPosition(0, 0), s)
    ensures s == [GridPosition(0, 0), GridPosition(0, 1)]
  {
    var seed, other := GridPosition(0, 0), GridPosition(0, 1);
    assert IsAdjacent(seed, other);
    assert other in s;
    assert |s| >= 2;
    assert s[1] == other by {
      assert s[1] in {seed, other} && s[1] != s[0];
    }
    DistinctCard(s);
    SubsetCard(set x | x in s, {seed, other});
  }

  /** On the test board the seed (0, 0) is red, so its group is a group of red cells. */
  lemma TestBoardSeedRed<U>(b: Board<Option<(PieceColor, U)>>, comp: seq<GridPosition>)
    requires IsTestBoard(b) && IsConnComp(b, GridPosition(0, 0), comp)
    ensures IsGroup(ColorCells(b, Red), GridPosition(0, 0), comp)
  {
    assert HasColor(b, GridPosition(0, 0), Red);
  }

  /** The red group on the test board lies inside {(0, 0), (0, 1)}. */
  lemma RedGroup<U>(b: Board<Option<(PieceColor, U)>>, comp: seq<GridPosition>)
    requires IsTestBoard(b) && IsGroup(ColorCells(b, Red), GridPosition(0, 0), comp)
    ensures IsGroup({GridPosition(0, 0), GridPosition(0, 1)}, GridPosition(0, 0), comp)
  {
    TestBoardRed(b);
  }

  /**
   * The grid of the flood-fill unit test: Red at (0, 0) and (0, 1), Blue at
   * (1, 0), (1, 1) empty, given directly in row-major order.
   */
  method BuildTestGrid() returns (g: Grid<Option<(PieceColor, ())>>)
    ensures g.Valid() && fresh(g.data)
    ensures IsTestBoard(g.View())
  {
    g := new Grid<Option<(PieceColor, ())>>(2, 2, [Some((Red, ())), Some((Red, ())), Some((Blue, ())), None]);
    TestBoardCells(());
  }

  /** The flood-fill unit test: from (0, 0) on the test board it returns exactly [(0, 0), (0, 1)]. */
  method ConnCompExample() returns (comp: seq<GridPosition>)
    ensures comp == [GridPosition(0, 0), GridPosition(0, 1)]
  {
    var g := BuildTestGrid();
    comp := FindConnComp(g, GridPosition(0, 0));
    TestBoardSeedRed(g.View(), comp);
    RedGroup(g.View(), comp);
    GroupOfTopPair(comp);
  }

  /** An empty seed cell yields nothing: (1, 1) on an empty board. */
  method ConnCompEmptySeedExample() returns (comp: seq<GridPosition>)
    ensures comp == []
  {
    var g := new Grid<Option<(PieceColor, ())>>(2, 2, EmptyBoard(2, 2).cells);
    comp := FindConnComp(g, GridPosition(1, 1));
  }
}
