/** The board model of the Stern-Halma engine (halma.go): colours, cube
    coordinates, fields, and the star-shaped board that Start builds. */
module HalmaBoard {

  datatype Option<T> = None | Some(value: T)

  /** HalmaColor. Empty is "no colour"; Red, Green and Blue are 1, 2 and 3. */
  datatype Color = Empty | Red | Green | Blue

  /** The integer value of a colour. */
  function Ordinal(c: Color): (k: nat)
    ensures k <= 3
    ensures k == 0 <==> c == Empty
  {
    match c
    case Empty => 0
    case Red => 1
    case Green => 2
    case Blue => 3
  }

  /** The conversion HalmaColor(k) for the values 0..3 the engine produces. */
  function ColorOf(k: int): (c: Color)
    requires 0 <= k <= 3
    ensures Ordinal(c) == k
  {
    if k == 1 then Red else if k == 2 then Green else if k == 3 then Blue else Empty
  }

  /** A cell in cube coordinates (x, y); the third coordinate is -x - y. */
  datatype Position = Position(x: int, y: int)

  /** HalmaField: `kind` is the source's Type (the colour whose target the
      field is), `pin` the colour of the piece standing on it. */
  datatype Field = Field(kind: Color, pin: Color)

  /** The existing fields by position: the value the 17x17 array stands for. */
  type Board = map<Position, Field>

  function Abs(x: int): (r: nat)
    ensures r == x || r == -x
  {
    if x < 0 then -x else x
  }

  /** Positions whose array index (coordinate + 8) lies in 0..16. */
  predicate InRange(p: Position) {
    -8 <= p.x <= 8 && -8 <= p.y <= 8
  }

  ghost function AllCells(): set<Position> {
    set x: int, y: int | -8 <= x <= 8 && -8 <= y <= 8 :: Position(x, y)
  }

  lemma AllCellsCover()
    ensures forall p :: InRange(p) ==> p in AllCells()
  {
    forall p | InRange(p) ensures p in AllCells() {
      assert p == Position(p.x, p.y);
    }
  }

  /** Every position of the board has an array index. */
  predicate WellFormed(b: Board) {
    forall p | p in b :: InRange(p)
  }

  /** The array entry at index [i, j] that stands for board b: the field at
      position (i - 8, j - 8), or None where b has no field. */
  function CellAt(b: Board, i: int, j: int): Option<Field> {
    var p := Position(i - 8, j - 8);
    if p in b then Some(b[p]) else None
  }

  /** The 17x17 array a stores board b: index [x + 8, y + 8] holds the field
      at (x, y), and None stands for a nil field. */
  ghost predicate Represents(a: array2<Option<Field>>, b: Board)
    reads a
  {
    a.Length0 == 17 && a.Length1 == 17 && WellFormed(b) &&
    forall i, j | 0 <= i < 17 && 0 <= j < 17 :: a[i, j] == CellAt(b, i, j)
  }

  /** The star shape: a hexagon of radius 4 with six triangular points. */
  predicate Star(u: int, v: int) {
    var tu, tv, tw := Abs(u), Abs(v), Abs(-u - v);
    (tu <= 8 && tv <= 4 && tw <= 4) || (tu <= 4 && tv <= 8 && tw <= 4) || (tu <= 4 && tv <= 4 && tw <= 8)
  }

  /** The six cells where two coordinates tie at distance 4. */
  predicate Corner(u: int, v: int) {
    (u == 0 && v == -4) || (u == -4 && v == 0) || (u == -4 && v == 4) ||
    (u == 0 && v == 4) || (u == 4 && v == 0) || (u == 4 && v == -4)
  }

  /** The pin colours Start puts on the Green and Blue starting points:
      Empty unless that many players joined. */
  function GreenPin(n: nat): Color { if n > 1 then Green else Empty }
  function BluePin(n: nat): Color { if n > 2 then Blue else Empty }

  /** The field the general rule of Start's double loop creates at (u, v)
      for n players, or None where it creates none. */
  function GeneralCell(u: int, v: int, n: nat): Option<Field> {
    var tu, tv, tw := Abs(u), Abs(v), Abs(-u - v);
    if !Star(u, v) then None
    else if (tu + tv + tw) / 2 < 4 then Some(Field(Empty, Empty))
    else if tv >= 4 && tv > tu && tv > tw then
      (if v > 0 then Some(Field(Empty, Red)) else Some(Field(Red, Empty)))
    else if tw >= 4 && tw > tv && tw > tu then
      (if -u - v > 0 then Some(Field(Empty, GreenPin(n))) else Some(Field(Green, Empty)))
    else if tu >= 4 && tu > tv && tu > tw then
      (if u > 0 then Some(Field(Empty, BluePin(n))) else Some(Field(Blue, Empty)))
    else None
  }

  /** The general rule only creates fields inside the 17x17 square. */
  lemma GeneralCellInRange(u: int, v: int, n: nat)
    requires GeneralCell(u, v, n).Some?
    ensures InRange(Position(u, v))
  {
  }

  /** The six hard-coded corner fields of Start. */
  function CornerField(u: int, v: int, n: nat): Field
    requires Corner(u, v)
  {
    if u == 0 && v == -4 then Field(Red, GreenPin(n))
    else if u == -4 && v == 0 then Field(Blue, GreenPin(n))
    else if u == -4 && v == 4 then Field(Blue, Red)
    else if u == 0 && v == 4 then Field(Green, Red)
    else if u == 4 && v == 0 then Field(Green, BluePin(n))
    else Field(Red, BluePin(n))
  }

  /** The cell at (u, v) after Start with n players. */
  function InitialCell(u: int, v: int, n: nat): Option<Field> {
    if Corner(u, v) then Some(CornerField(u, v, n)) else GeneralCell(u, v, n)
  }

  /** The general rule creates a field exactly on the star minus its six
      corners: at a corner no coordinate is the unique maximum. */
  lemma GeneralRuleSkipsCorners(u: int, v: int, n: nat)
    ensures GeneralCell(u, v, n).Some? <==> Star(u, v) && !Corner(u, v)
  {
    var tu, tv, tw := Abs(u), Abs(v), Abs(-u - v);
    if Star(u, v) && (tu + tv + tw) / 2 >= 4 {
      // one cube coordinate is the sum of the absolute values of the other two
      assert tu == tv + tw || tv == tu + tw || tw == tu + tv;
    }
  }

  /** Whatever the number of players, Start creates a field exactly on the star. */
  lemma StartShape(u: int, v: int, n: nat)
    ensures InitialCell(u, v, n).Some? <==> Star(u, v)
  {
    GeneralRuleSkipsCorners(u, v, n);
  }

  /** The home colour (Type) of every field is independent of the number of players. */
  lemma StartKindIndependent(u: int, v: int, n: nat, m: nat)
    ensures InitialCell(u, v, n).Some? <==> InitialCell(u, v, m).Some?
    ensures InitialCell(u, v, n).Some? ==> InitialCell(u, v, n).value.kind == InitialCell(u, v, m).value.kind
  {
    StartShape(u, v, n);
    StartShape(u, v, m);
  }

  /** Green pieces are set up only with more than one player, Blue ones only
      with more than two; with them the Green and Blue points are filled. */
  lemma StartPins(u: int, v: int, n: nat)
    requires InitialCell(u, v, n).Some?
    ensures InitialCell(u, v, n).value.pin == Green ==> n > 1
    ensures InitialCell(u, v, n).value.pin == Blue ==> n > 2
    ensures n > 1 && !Corner(u, v) && (-u - v) >= 5 ==> InitialCell(u, v, n).value.pin == Green
    ensures n > 2 && !Corner(u, v) && u >= 5 ==> InitialCell(u, v, n).value.pin == Blue
  {
  }

  lemma StartShapeAll()
    ensures forall u, v, n: nat :: InitialCell(u, v, n).Some? <==> Star(u, v)
  {
    forall u, v, n: nat ensures InitialCell(u, v, n).Some? <==> Star(u, v) {
      StartShape(u, v, n);
    }
  }

  /** The board Start sets up for n players, as a value. */
  ghost function InitialBoard(n: nat): (b: Board)
    ensures forall p :: p in b <==> Star(p.x, p.y)
    ensures forall p | p in b :: Some(b[p]) == InitialCell(p.x, p.y, n)
  {
    StartShapeAll();
    AllCellsCover();
    map p | p in AllCells() && Star(p.x, p.y) :: InitialCell(p.x, p.y, n).value
  }

  /** The home colour of a field of the star, as Start assigns it. */
  function HomeOf(u: int, v: int): Color
    requires Star(u, v)
  {
    StartShape(u, v, 0);
    InitialCell(u, v, 0).value.kind
  }

  /** A field exists exactly on the star, and each has its home colour. */
  ghost predicate StarBoard(b: Board) {
    (forall p :: p in b <==> Star(p.x, p.y)) &&
    forall p | p in b :: b[p].kind == HomeOf(p.x, p.y)
  }

  /** Start's board has the star layout, whatever the number of players. */
  lemma InitialBoardIsStar(n: nat)
    ensures StarBoard(InitialBoard(n))
  {
    var b := InitialBoard(n);
    forall p | p in b ensures b[p].kind == HomeOf(p.x, p.y) {
      StartKindIndependent(p.x, p.y, n, 0);
    }
  }
}
