/**
 * Falling (src/game_objects/fall.rs): the fall state machine, the velocity
 * rule, and one frame of `update_fall_piece` and `update_fall_pair`.
 * Translations are real numbers in cell units, so the grid's conversions
 * between cells and translations (`position_to_vec3` / `vec3_to_position`
 * in src/game_objects/grid.rs) become the identity and rounding.
 */
module Falls {
  import opened Options
  import opened Positions
  import opened Pieces
  import opened Grids

  /** `FAST_MULT`: a fast fall is this many times the base velocity. */
  const FastMult: real := 3.0

  datatype FallState = Fast | Normal | Stopped

  datatype Fall = Fall(velocity: real, state: FallState)
  {
    /** `Fall::new`: every fall starts at normal speed. */
    static function New(velocity: real): (f: Fall)
      ensures f.state == Normal && f.velocity == velocity
    {
      Fall(velocity, Normal)
    }

    /** `get_velocity`: the speed the entity currently falls at. */
    function GetVelocity(): (v: real)
      ensures state == Fast ==> v == FastMult * velocity
      ensures state == Normal ==> v == velocity
      ensures state == Stopped ==> v == 0.0
    {
      match state
      case Fast => velocity * FastMult
      case Normal => velocity
      case Stopped => 0.0
    }
  }

  /**
   * For a non-negative base speed, stopping never falls, normal falls at the
   * base speed, and fast falls three times as far as normal.
   */
  lemma VelocityOrder(f: Fall)
    requires f.velocity >= 0.0
    ensures f.(state := Stopped).GetVelocity() == 0.0
    ensures f.(state := Stopped).GetVelocity() <= f.(state := Normal).GetVelocity()
    ensures f.(state := Fast).GetVelocity() == 3.0 * f.(state := Normal).GetVelocity()
    ensures f.(state := Normal).GetVelocity() <= f.(state := Fast).GetVelocity()
  {
  }

  /** Rust's `f32::round`: to the nearest integer, halves away from zero. */
  function Round(x: real): (n: int)
    ensures x - 0.5 <= n as real <= x + 0.5
    ensures x >= 0.0 ==> n as real > x - 0.5
    ensures x < 0.0 ==> n as real < x + 0.5
  {
    if x >= 0.0 then (x + 0.5).Floor else -((-x + 0.5).Floor)
  }

  /** Whole numbers round to themselves; halves go away from zero. */
  lemma RoundExamples(n: int)
    ensures Round(n as real) == n
    ensures Round(2.5) == 3 && Round(-2.5) == -3 && Round(0.49) == 0
  {
  }

  /**
   * A point of the plane: the `x` and `y` of an entity's translation, in
   * cells, measured from the rest point of cell (0, 0).
   */
  datatype Point = Point(x: real, y: real)

  /** `position_to_vec3`: where an entity resting in cell `p` sits. */
  function RestPoint(p: GridPosition): (t: Point)
    ensures t.x == p.col as real && t.y == p.row as real
  {
    Point(p.col as real, p.row as real)
  }

  /** `vec3_to_position`: the cell whose rest point is nearest to `t`. */
  function PositionAt(t: Point): (p: GridPosition)
    ensures -0.5 <= t.y - p.row as real <= 0.5 && -0.5 <= t.x - p.col as real <= 0.5
  {
    GridPosition(Round(t.y), Round(t.x))
  }

  /** The position of a resting entity reads back as its cell. */
  lemma {:induction false} PositionAtRestPoint(p: GridPosition)
    ensures PositionAt(RestPoint(p)) == p
  {
    RoundExamples(p.row);
    RoundExamples(p.col);
  }

  /** An entity handle; the grid stores it next to the piece's colour. */
  type EntityId = nat

  /** A cell of the game grid: empty, or the colour and entity of the piece in it. */
  type Cell = Option<(PieceColor, EntityId)>

  /** The components `update_fall_piece` reads and writes for one piece. */
  datatype PieceEntity = PieceEntity(id: EntityId, color: PieceColor, translation: Point,
                                     position: GridPosition, fall: Fall)

  /**
   * Outcome of a frame: the new state, or the off-board cell that a landing
   * would have written to (an out-of-range index in the source).
   */
  datatype Outcome<T> = Done(value: T) | OffBoard(cell: GridPosition)

  /** The translation after falling for `dt` seconds at the current speed. */
  function Fallen(t: Point, f: Fall, dt: real): (u: Point)
    ensures u.x == t.x && t.y - u.y == dt * f.GetVelocity()
  {
    t.(y := t.y - dt * f.GetVelocity())
  }

  /**
   * The height half of the landing decision, shared by pieces and pairs:
   * the entity has dropped below the rest height of the cell it is read as.
   */
  predicate Passed(t: Point)
  {
    t.y < RestPoint(PositionAt(t)).y
  }

  /** Whether one frame of `update_fall_piece` stops the piece `e`. */
  predicate PieceLands(b: Board<Cell>, e: PieceEntity, dt: real)
    requires b.WellFormed()
  {
    var t := Fallen(e.translation, e.fall, dt);
    !CanMoveDown(b, PositionAt(t)) && Passed(t)
  }

  /**
   * One iteration of the loop in `update_fall_piece`: fall, re-read the cell;
   * if the piece lands, snap it to the cell, stop it, and write it into the grid.
   */
  function StepPiece(b: Board<Cell>, e: PieceEntity, dt: real)
    : (r: Outcome<(Board<Cell>, PieceEntity)>)
    requires b.WellFormed()
    ensures r.Done? ==> r.value.0.WellFormed() && r.value.0.height == b.height && r.value.0.width == b.width
    ensures r.Done? ==> r.value.1.id == e.id && r.value.1.color == e.color
    ensures r.Done? ==> r.value.1.fall.velocity == e.fall.velocity
  {
    var t := Fallen(e.translation, e.fall, dt);
    var p := PositionAt(t);
    if !CanMoveDown(b, p) && Passed(t) then
      if b.IsValid(p) then
        Done((b.Set(p, Some((e.color, e.id))),
              e.(translation := RestPoint(p), position := p, fall := e.fall.(state := Stopped))))
      else
        OffBoard(p)
    else
      Done((b, e.(translation := t, position := p)))
  }

  /**
   * A moving piece stops exactly when its new cell is blocked below and it
   * has passed that cell's rest height; the new position is always the cell
   * the fallen translation reads as.
   */
  lemma PieceStopsOnlyWhenBlocked(b: Board<Cell>, e: PieceEntity, dt: real)
    requires b.WellFormed() && e.fall.state != Stopped
    requires StepPiece(b, e, dt).Done?
    ensures var e' := StepPiece(b, e, dt).value.1;
      e'.position == PositionAt(Fallen(e.translation, e.fall, dt)) &&
      (e'.fall.state == Stopped <==> PieceLands(b, e, dt)) &&
      (e'.fall.state == Stopped ==> !CanMoveDown(b, e'.position))
  {
  }

  /**
   * A landing piece rests on its cell and writes exactly that cell: the cell
   * holds the piece's colour and entity, and every other cell is unchanged.
   */
  lemma LandingWritesOneCell(b: Board<Cell>, e: PieceEntity, dt: real)
    requires b.WellFormed() && PieceLands(b, e, dt)
    requires StepPiece(b, e, dt).Done?
    ensures var (b', e') := StepPiece(b, e, dt).value;
      b'.IsValid(e'.position) && b'.Get(e'.position) == Some((e.color, e.id)) &&
      (forall q :: b.IsValid(q) && q != e'.position ==> b'.Get(q) == b.Get(q)) &&
      e'.translation == RestPoint(e'.position) && e'.fall.state == Stopped
  {
  }

  /** A landing that would write off the board is reported, and only then. */
  lemma PieceOffBoard(b: Board<Cell>, e: PieceEntity, dt: real)
    requires b.WellFormed()
    ensures var p := PositionAt(Fallen(e.translation, e.fall, dt));
      StepPiece(b, e, dt).OffBoard? <==> PieceLands(b, e, dt) && !b.IsValid(p)
  {
  }

  /**
   * A piece that can still move down leaves the grid and its fall state
   * alone, and only its height and cell change.
   */
  lemma FreePieceKeepsGrid(b: Board<Cell>, e: PieceEntity, dt: real)
    requires b.WellFormed()
    requires CanMoveDown(b, PositionAt(Fallen(e.translation, e.fall, dt)))
    ensures StepPiece(b, e, dt).Done?
    ensures var (b', e') := StepPiece(b, e, dt).value;
      b' == b && e'.fall == e.fall && e'.translation.x == e.translation.x &&
      e.translation.y - e'.translation.y == dt * e.fall.GetVelocity()
  {
  }

  /**
   * A stopped piece does not fall and never starts moving again: it keeps its
   * height, or is snapped to the rest point of its cell.
   */
  lemma PieceStaysStopped(b: Board<Cell>, e: PieceEntity, dt: real)
    requires b.WellFormed() && e.fall.state == Stopped
    requires StepPiece(b, e, dt).Done?
    ensures Fallen(e.translation, e.fall, dt) == e.translation
    ensures var e' := StepPiece(b, e, dt).value.1;
      e'.fall.state == Stopped &&
      (e'.translation == e.translation || e'.translation == RestPoint(e'.position))
  {
  }

  /**
   * A stopped piece resting on its cell is left exactly as it is, grid
   * included: it does not move and is not written again.
   */
  lemma {:induction false} SettledPieceIsFixed(b: Board<Cell>, e: PieceEntity, dt: real)
    requires b.WellFormed()
    requires e.fall.state == Stopped && e.translation == RestPoint(e.position)
    ensures StepPiece(b, e, dt) == Done((b, e))
  {
    assert Fallen(e.translation, e.fall, dt) == e.translation;
    PositionAtRestPoint(e.position);
  }

  /**
   * The loop of `update_fall_piece` over the pieces in query order: each
   * piece steps on the grid as the earlier pieces left it. The first landing
   * off the board ends the frame.
   */
  function UpdatePieces(b: Board<Cell>, ps: seq<PieceEntity>, dt: real)
    : (r: Outcome<(Board<Cell>, seq<PieceEntity>)>)
    requires b.WellFormed()
    ensures r.Done? ==> r.value.0.WellFormed() && r.value.0.height == b.height && r.value.0.width == b.width
    ensures r.Done? ==> |r.value.1| == |ps|
    decreases |ps|
  {
    if ps == [] then Done((b, []))
    else
      match UpdatePieces(b, ps[..|ps| - 1], dt)
      case OffBoard(c) => OffBoard(c)
      case Done((b1, qs)) =>
        match StepPiece(b1, ps[|ps| - 1], dt)
        case OffBoard(c) => OffBoard(c)
        case Done((b2, e)) => Done((b2, qs + [e]))
  }

  /** Once a prefix of the pieces lands off the board, so does the whole frame. */
  lemma {:induction false} OffBoardPersists(b: Board<Cell>, ps: seq<PieceEntity>, k: nat, dt: real)
    requires b.WellFormed() && k <= |ps|
    requires UpdatePieces(b, ps[..k], dt).OffBoard?
    ensures UpdatePieces(b, ps, dt).OffBoard?
    decreases |ps| - k
  {
    if k < |ps| {
      assert ps[..k + 1][..k] == ps[..k];
      OffBoardPersists(b, ps, k + 1, dt);
    } else {
      assert ps[..k] == ps;
    }
  }

  /**
   * A frame keeps every piece's identity, colour and base speed, and never
   * moves a stopped piece out of `Stopped`.
   */
  lemma {:induction false} UpdateKeepsStopped(b: Board<Cell>, ps: seq<PieceEntity>, dt: real)
    requires b.WellFormed()
    requires UpdatePieces(b, ps, dt).Done?
    ensures var qs := UpdatePieces(b, ps, dt).value.1;
      forall i :: 0 <= i < |ps| ==>
        qs[i].id == ps[i].id && qs[i].color == ps[i].color &&
        qs[i].fall.velocity == ps[i].fall.velocity &&
        (ps[i].fall.state == Stopped ==> qs[i].fall.state == Stopped)
  {
    if ps != [] {
      var init, last := ps[..|ps| - 1], ps[|ps| - 1];
      UpdateKeepsStopped(b, init, dt);
      var (b1, qs1) := UpdatePieces(b, init, dt).value;
      if last.fall.state == Stopped {
        PieceStaysStopped(b1, last, dt);
      }
    }
  }

  /** Cell `q` holds a piece that is stopped there. */
  ghost predicate HeldByStopped(qs: seq<PieceEntity>, q: GridPosition, v: Cell)
  {
    exists i :: 0 <= i < |qs| && qs[i].position == q && qs[i].fall.state == Stopped &&
      v == Some((qs[i].color, qs[i].id))
  }

  /**
   * A frame writes only landing cells: every cell it changes now holds one
   * of the pieces, stopped in that very cell.
   */
  lemma {:induction false} UpdateWritesOnlyLandings(b: Board<Cell>, ps: seq<PieceEntity>, dt: real)
    requires b.WellFormed()
    requires UpdatePieces(b, ps, dt).Done?
    ensures var (b', qs) := UpdatePieces(b, ps, dt).value;
      forall q :: b.IsValid(q) && b'.Get(q) != b.Get(q) ==> HeldByStopped(qs, q, b'.Get(q))
  {
    if ps != [] {
      var init, last := ps[..|ps| - 1], ps[|ps| - 1];
      UpdateWritesOnlyLandings(b, init, dt);
      var (b1, qs1) := UpdatePieces(b, init, dt).value;
      var (b2, e) := StepPiece(b1, last, dt).value;
      var qs := qs1 + [e];
      forall q | b.IsValid(q) && b2.Get(q) != b.Get(q)
        ensures HeldByStopped(qs, q, b2.Get(q))
      {
        if PieceLands(b1, last, dt) && q == e.position {
          assert qs[|qs1|] == e;
        } else {
          assert b2.Get(q) == b1.Get(q);
          var i :| 0 <= i < |qs1| && qs1[i].position == q && qs1[i].fall.state == Stopped &&
            b1.Get(q) == Some((qs1[i].color, qs1[i].id));
          assert qs[i] == qs1[i];
        }
      }
    }
  }

  /**
   * `update_fall_piece`: every piece falls, in query order, on the one game
   * grid; a piece that lands is snapped to its cell, stopped, and written
   * into the grid in place. `ok` is false when a landing cell lies off the
   * board, where the frame ends.
   */
  method UpdateFallPiece(g: Grid<Cell>, pieces: array<PieceEntity>, dt: real)
    returns (ok: bool)
    requires g.Valid()
    modifies g.data, pieces
    ensures g.Valid()
    ensures var r := UpdatePieces(old(g.View()), old(pieces[..]), dt);
      (ok <==> r.Done?) && (ok ==> g.View() == r.value.0 && pieces[..] == r.value.1)
  {
    ghost var b0, ps0 := g.View(), pieces[..];
    for i := 0 to pieces.Length
      invariant g.Valid()
      invariant pieces[i..] == ps0[i..]
      invariant UpdatePieces(b0, ps0[..i], dt) == Done((g.View(), pieces[..i]))
    {
      var e := pieces[i];
      assert ps0[..i + 1][..i] == ps0[..i] && ps0[..i + 1][i] == e;
      ghost var step := StepPiece(g.View(), e, dt);
      var t := Fallen(e.translation, e.fall, dt);
      var p := PositionAt(t);
      var rest := RestPoint(p);
      if !CanMoveDown(g.View(), p) && t.y < rest.y {
        if !g.View().IsValid(p) {
          assert step == OffBoard(p);
          OffBoardPersists(b0, ps0, i + 1, dt);
          return false;
        }
        e := e.(translation := rest, position := p, fall := e.fall.(state := Stopped));
        g.PlaceCell(p, Some((e.color, e.id)));
      } else {
        e := e.(translation := t, position := p);
      }
      assert step == Done((g.View(), e));
      pieces[i] := e;
      assert pieces[..i + 1] == pieces[..i] + [e];
    }
    assert ps0[..pieces.Length] == ps0;
    return true;
  }

  /** A landed piece is left alone in every later frame, whatever the grid then holds. */
  lemma {:induction false} PieceLandsOnce(b: Board<Cell>, e: PieceEntity, dt: real,
                                          later: Board<Cell>, dt': real)
    requires b.WellFormed() && later.WellFormed()
    requires PieceLands(b, e, dt) && StepPiece(b, e, dt).Done?
    ensures var e' := StepPiece(b, e, dt).value.1;
      StepPiece(later, e', dt') == Done((later, e'))
  {
    var e' := StepPiece(b, e, dt).value.1;
    SettledPieceIsFixed(later, e', dt');
  }

  /** The components `update_fall_pair` reads and writes for the controlled pair. */
  datatype PairEntity = PairEntity(pair: Pair, translation: Point, position: GridPosition, fall: Fall)

  /** Both pieces of the pair have an empty cell below them. */
  predicate PairCanMoveDown(b: Board<Cell>, pair: Pair, p: GridPosition)
    requires b.WellFormed()
  {
    CanMoveDown(b, p) && CanMoveDown(b, pair.GetSecondPosition(p))
  }

  /**
   * `update_fall_pair`: the pair falls; if either piece is blocked below and
   * the pair has passed its cell's rest height, it snaps to the cell, stops,
   * and one landed event is sent (`landed`). The grid is only read.
   */
  function StepPair(b: Board<Cell>, e: PairEntity, dt: real): (r: (PairEntity, bool))
    requires b.WellFormed()
    ensures r.0.pair == e.pair && r.0.fall.velocity == e.fall.velocity
  {
    var t := Fallen(e.translation, e.fall, dt);
    var p := PositionAt(t);
    if !PairCanMoveDown(b, e.pair, p) && Passed(t) then
      (e.(translation := RestPoint(p), position := p, fall := e.fall.(state := Stopped)), true)
    else
      (e.(translation := t, position := p), false)
  }

  /**
   * The controlled pair's components, which `update_fall_pair` updates in
   * place; the `Pair` itself is only read.
   */
  class FallingPair {
    const pair: Pair
    var translation: Point
    var position: GridPosition
    var fall: Fall

    function Entity(): PairEntity
      reads this
    {
      PairEntity(pair, translation, position, fall)
    }

    constructor (pair: Pair, translation: Point, position: GridPosition, fall: Fall)
      ensures Entity() == PairEntity(pair, translation, position, fall)
    {
      this.pair := pair;
      this.translation := translation;
      this.position := position;
      this.fall := fall;
    }

    /**
     * `update_fall_pair` on the one pair of the frame: the new components and
     * the landed event are those of `StepPair` on the grid as it stands.
     */
    method UpdateFallPair(g: Grid<Cell>, dt: real) returns (landed: bool)
      requires g.Valid()
      modifies this
      ensures (Entity(), landed) == StepPair(g.View(), old(Entity()), dt)
    {
      translation := Fallen(translation, fall, dt);
      position := PositionAt(translation);
      var rest := RestPoint(position);
      var canMoveDownPair := CanMoveDown(g.View(), position) &&
                             CanMoveDown(g.View(), pair.GetSecondPosition(position));
      landed := false;
      if !canMoveDownPair && translation.y < rest.y {
        translation := rest;
        fall := fall.(state := Stopped);
        landed := true;
      }
    }
  }

  /**
   * The pair lands exactly when its first or its second piece is blocked
   * below and it has passed the rest height; landing stops it on its cell.
   */
  lemma PairLandsOnlyWhenBlocked(b: Board<Cell>, e: PairEntity, dt: real)
    requires b.WellFormed()
    ensures var (e', landed) := StepPair(b, e, dt);
      var t := Fallen(e.translation, e.fall, dt);
      e'.position == PositionAt(t) &&
      (landed <==> (!CanMoveDown(b, e'.position) || !CanMoveDown(b, e.pair.GetSecondPosition(e'.position))) &&
                   Passed(t)) &&
      (landed ==> e'.fall.state == Stopped && e'.translation == RestPoint(e'.position)) &&
      (!landed ==> e'.fall == e.fall && e'.translation == t)
  {
  }

  /**
   * A stopped pair does not fall and never starts moving again: it keeps its
   * height, or is snapped to the rest point of its cell.
   */
  lemma PairStaysStopped(b: Board<Cell>, e: PairEntity, dt: real)
    requires b.WellFormed() && e.fall.state == Stopped
    ensures Fallen(e.translation, e.fall, dt) == e.translation
    ensures var e' := StepPair(b, e, dt).0;
      e'.fall.state == Stopped &&
      (e'.translation == e.translation || e'.translation == RestPoint(e'.position))
  {
  }

  /**
   * A landed pair sends no further event: in every later frame, on any grid,
   * it stays exactly where it is.
   */
  lemma {:induction false} PairLandsOnce(b: Board<Cell>, e: PairEntity, dt: real,
                                         later: Board<Cell>, dt': real)
    requires b.WellFormed() && later.WellFormed()
    requires StepPair(b, e, dt).1
    ensures var e' := StepPair(b, e, dt).0;
      StepPair(later, e', dt') == (e', false)
  {
    var e' := StepPair(b, e, dt).0;
    PositionAtRestPoint(e'.position);
  }

  /**
   * A new pair spawned at (18, 5) on the empty 20x10 grid has both cells on
   * the board and free, and can fall.
   */
  lemma SpawnIsFree()
    ensures var b := EmptyBoard<(PieceColor, EntityId)>(GridHeight, GridWidth);
      var start := GridPosition(StartingRow, StartingCol);
      IsEmpty(b, start) && IsEmpty(b, Pair.New().GetSecondPosition(start)) &&
      PairCanMoveDown(b, Pair.New(), start)
  {
  }
}
