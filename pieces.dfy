/**
 * Piece colours, the orientation of a falling pair and its rotation
 * (src/game_objects/piece.rs).
 */
module Pieces {
  import opened Positions

  /** Spawn cell of a new pair and the size of the playing field. */
  const StartingRow: int := 18
  const StartingCol: int := 5
  const GridHeight: nat := 20
  const GridWidth: nat := 10

  datatype PieceColor = Red | Blue | Purple | Green

  /** The values of the random number generator's `next_u32`. */
  newtype u32 = x: int | 0 <= x < 0x1_0000_0000

  /** The residue that `piece_color` maps to each colour. */
  function ColorIndex(c: PieceColor): (r: nat)
    ensures r < 4
  {
    match c
    case Red => 0
    case Blue => 1
    case Purple => 2
    case Green => 3
  }

  /**
   * The colour `Bag::piece_color` draws for the random word `n`: the match on
   * `n % 4`, whose catch-all `panic!()` arm is unreachable.
   */
  function PieceColorOf(n: u32): (c: PieceColor)
    ensures ColorIndex(c) == n as int % 4
  {
    match n % 4
    case 0 => Red
    case 1 => Blue
    case 2 => Purple
    case 3 => Green
    case _ => assert false; Red
  }

  /** Every colour is drawn, by exactly the words of its residue. */
  lemma PieceColorOfOnto(c: PieceColor, n: u32)
    ensures PieceColorOf(ColorIndex(c) as u32) == c
    ensures PieceColorOf(n) == c <==> n as int % 4 == ColorIndex(c)
  {
  }

  /**
   * Where the second piece of a pair sits relative to the first:
   * ABVertical below, BAVertical above, ABHorizontal right, BAHorizontal left.
   */
  datatype PairOrientation = ABVertical | ABHorizontal | BAVertical | BAHorizontal

  datatype Pair = Pair(orientation: PairOrientation)
  {
    /** A new pair is stacked vertically with its second piece below the first. */
    static function New(): (p: Pair)
      ensures p.orientation == ABVertical
      ensures forall pos: GridPosition :: p.GetSecondPosition(pos) == GridPosition(pos.row - 1, pos.col)
    {
      Pair(ABVertical)
    }

    /** The cell of the second piece when the first piece is at `position`. */
    function GetSecondPosition(position: GridPosition): (q: GridPosition)
      ensures IsAdjacent(position, q)
    {
      match orientation
      case ABVertical => position.Translate(-1, 0)
      case BAVertical => position.Translate(1, 0)
      case ABHorizontal => position.Translate(0, 1)
      case BAHorizontal => position.Translate(0, -1)
    }

    /** The pair turned a quarter clockwise about its first piece. */
    function TurnClockwise(): (p: Pair)
      ensures p.orientation != orientation
    {
      match orientation
      case ABVertical => Pair(BAHorizontal)
      case BAHorizontal => Pair(BAVertical)
      case BAVertical => Pair(ABHorizontal)
      case ABHorizontal => Pair(ABVertical)
    }
  }

  /** The pair after `k` clockwise turns. */
  function Turns(p: Pair, k: nat): Pair
  {
    if k == 0 then p else Turns(p, k - 1).TurnClockwise()
  }

  /** Rotation has period exactly four: four turns restore the pair, one to three never do. */
  lemma {:induction false} TurnPeriod(p: Pair, k: nat)
    ensures Turns(p, 4) == p
    ensures 1 <= k <= 3 ==> Turns(p, k) != p
  {
    assert Turns(p, 1) == p.TurnClockwise();
    assert Turns(p, 2) == p.TurnClockwise().TurnClockwise();
    assert Turns(p, 3) == p.TurnClockwise().TurnClockwise().TurnClockwise();
    assert Turns(p, 4) == p.TurnClockwise().TurnClockwise().TurnClockwise().TurnClockwise();
  }

  /**
   * A clockwise turn rotates the second piece's offset (dr, dc) to (-dc, dr):
   * below, left, above, right, below.
   */
  lemma TurnRotatesOffset(p: Pair, pos: GridPosition)
    ensures var s, t := p.GetSecondPosition(pos), p.TurnClockwise().GetSecondPosition(pos);
      t.row - pos.row == -(s.col - pos.col) && t.col - pos.col == s.row - pos.row
  {
  }

  /** The second piece moves rigidly with the first. */
  lemma SecondPositionTranslate(p: Pair, pos: GridPosition, dr: int, dc: int)
    ensures p.GetSecondPosition(pos.Translate(dr, dc)) == p.GetSecondPosition(pos).Translate(dr, dc)
  {
  }
}
