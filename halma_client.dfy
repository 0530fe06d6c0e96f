/** The browser client's copy of the rules (halma.js): its own board set-up,
    its own search for the destinations of a piece (a first-in first-out
    queue instead of the engine's stack), and the board update on a MOVE
    message. */
module HalmaClient {
  import opened HalmaBoard
  import opened HalmaMoves
  import opened HalmaGame

  /** dataToGrid: array indices to cube coordinates. The indices 0..16 are
      exactly the ones that land inside the square. */
  function DataToGrid(pos: Position): (r: Position)
    ensures InRange(r) <==> 0 <= pos.x < 17 && 0 <= pos.y < 17
  {
    Position(pos.x - 8, pos.y - 8)
  }

  /** gridToData: cube coordinates to array indices. The square maps onto
      the indices 0..16 and nothing else does. */
  function GridToData(pos: Position): (r: Position)
    ensures InRange(pos) <==> 0 <= r.x < 17 && 0 <= r.y < 17
  {
    Position(pos.x + 8, pos.y + 8)
  }

  /** The two conversions are inverse to each other, and the positions with
      an array index are exactly those with both indices in 0..16. */
  lemma GridDataRoundTrip(p: Position)
    ensures GridToData(DataToGrid(p)) == p
    ensures DataToGrid(GridToData(p)) == p
    ensures InRange(p) <==> 0 <= GridToData(p).x < 17 && 0 <= GridToData(p).y < 17
  {
  }

  /** The field generateFields creates at (u, v), or None where it creates
      none. The test for the inner hexagon divides by two as a JavaScript
      number, not as an integer. */
  function ClientCell(u: int, v: int): Option<Field> {
    var tu, tv, tw := Abs(u), Abs(v), Abs(-u - v);
    if !Star(u, v) then None
    else if (tu + tv + tw) as real / 2.0 < 4.0 then Some(Field(Empty, Empty))
    else if tv >= 4 && tv > tu && tv > tw then
      (if v > 0 then Some(Field(Empty, Empty)) else Some(Field(Red, Empty)))
    else if tw >= 4 && tw > tv && tw > tu then
      (if -u - v > 0 then Some(Field(Empty, Empty)) else Some(Field(Green, Empty)))
    else if tu >= 4 && tu > tv && tu > tw then
      (if u > 0 then Some(Field(Empty, Empty)) else Some(Field(Blue, Empty)))
    else None
  }

  /** The field with its pin removed. */
  function Blank(f: Option<Field>): Option<Field> {
    if f.Some? then Some(Field(f.value.kind, Empty)) else None
  }

  /** The client's rule and the engine's rule create a field at the same
      cells, with the same home colour; the client puts no pins. Dividing
      by two as a real or as an integer gives the same comparison with 4. */
  lemma ClientCellMatchesEngine(u: int, v: int, n: nat)
    ensures ClientCell(u, v) == Blank(GeneralCell(u, v, n))
  {
    var s := Abs(u) + Abs(v) + Abs(-u - v);
    assert s as real / 2.0 < 4.0 <==> s / 2 < 4;
  }

  /** The field rule of generateFields's double loop. */
  function ClientRule(): (int, int) -> Option<Field> {
    (u: int, v: int) => ClientCell(u, v)
  }

  /** Board b with the six corner fields of generateFields written over it,
      in the order it writes them: the engine's home colours, no pins. */
  function WithClientCorners(b: Board): Board {
    b[Position(0, -4) := Field(Red, Empty)]
     [Position(-4, 0) := Field(Blue, Empty)]
     [Position(-4, 4) := Field(Blue, Empty)]
     [Position(0, 4) := Field(Green, Empty)]
     [Position(4, 0) := Field(Green, Empty)]
     [Position(4, -4) := Field(Red, Empty)]
  }

  /** The board the client starts from: the engine's board with all pins removed. */
  ghost function ClientBoard(): Board {
    map p | p in InitialBoard(0) :: Field(InitialBoard(0)[p].kind, Empty)
  }

  /** Whatever the number of players, the client's board has its fields at
      the engine's positions, with the engine's home colours, and no pins. */
  lemma ClientBoardAgreesWithEngine(n: nat)
    ensures forall p :: p in ClientBoard() <==> p in InitialBoard(n)
    ensures forall p | p in ClientBoard() ::
      ClientBoard()[p] == Field(InitialBoard(n)[p].kind, Empty)
  {
    forall p | p in InitialBoard(n) ensures InitialBoard(n)[p].kind == InitialBoard(0)[p].kind {
      StartKindIndependent(p.x, p.y, n, 0);
    }
  }

  /** generateFields' double loop writes, wherever the engine's rule
      gives a field, that field without its pin. */
  lemma ClientLayout(b0: Board)
    ensures forall p :: p in LayRows(b0, 9, ClientRule()) <==> p in b0 || GeneralCell(p.x, p.y, 0).Some?
    ensures forall p | p in LayRows(b0, 9, ClientRule()) ::
      Some(LayRows(b0, 9, ClientRule())[p]) ==
        if GeneralCell(p.x, p.y, 0).Some? then Blank(GeneralCell(p.x, p.y, 0)) else Some(b0[p])
  {
    LayRowsFacts(b0, 9, ClientRule());
    var r := LayRows(b0, 9, ClientRule());
    forall p: Position
      ensures p in r <==> p in b0 || GeneralCell(p.x, p.y, 0).Some?
      ensures p in r ==>
        Some(r[p]) == if GeneralCell(p.x, p.y, 0).Some? then Blank(GeneralCell(p.x, p.y, 0)) else Some(b0[p])
    {
      ClientCellMatchesEngine(p.x, p.y, 0);
      if GeneralCell(p.x, p.y, 0).Some? {
        GeneralCellInRange(p.x, p.y, 0);
      }
    }
  }

  /** The corner writes of generateFields add exactly the six corners, with
      the engine's home colours and no pins, and keep every other field. */
  lemma WithClientCornersFacts(b: Board)
    ensures forall p :: p in WithClientCorners(b) <==> p in b || Corner(p.x, p.y)
    ensures forall p | p in WithClientCorners(b) ::
      WithClientCorners(b)[p] == if Corner(p.x, p.y) then Field(CornerField(p.x, p.y, 0).kind, Empty) else b[p]
  {
  }

  /** generateFields' double loop and corners give the client's board. */
  lemma ClientBoardLayout(b1: Board)
    requires forall p :: p in b1 <==> GeneralCell(p.x, p.y, 0).Some?
    requires forall p | p in b1 :: Some(b1[p]) == Blank(GeneralCell(p.x, p.y, 0))
    ensures WithClientCorners(b1) == ClientBoard()
  {
    var b := WithClientCorners(b1);
    WithClientCornersFacts(b1);
    forall p
      ensures p in b <==> p in InitialBoard(0)
      ensures p in b ==> b[p] == Field(InitialBoard(0)[p].kind, Empty)
    {
      ClientCornerCell(b1, b, p);
    }
    IsClientBoard(b);
  }

  /** The double loop of generateFields, run on the empty board, followed
      by the six corner fields gives the client's board. */
  lemma ClientStartBoard(b0: Board, b1: Board)
    requires b0 == map[] && b1 == LayRows(b0, 9, ClientRule())
    ensures WithClientCorners(b1) == ClientBoard()
  {
    ClientLayout(b0);
    ClientBoardLayout(b1);
  }

  /** One position of ClientBoardLayout: a corner, or a field of the
      general rule, or neither and then not on the star. */
  lemma ClientCornerCell(b1: Board, b: Board, p: Position)
    requires p in b1 <==> GeneralCell(p.x, p.y, 0).Some?
    requires p in b1 ==> Some(b1[p]) == Blank(GeneralCell(p.x, p.y, 0))
    requires p in b <==> p in b1 || Corner(p.x, p.y)
    requires p in b ==> b[p] == if Corner(p.x, p.y) then Field(CornerField(p.x, p.y, 0).kind, Empty) else b1[p]
    ensures p in b <==> p in InitialBoard(0)
    ensures p in b ==> b[p] == Field(InitialBoard(0)[p].kind, Empty)
  {
    GeneralRuleSkipsCorners(p.x, p.y, 0);
    StartShape(p.x, p.y, 0);
  }

  /** A board with the fields of Start's board, each without its pin, is
      the client's board. */
  lemma IsClientBoard(b: Board)
    requires forall p :: p in b <==> p in InitialBoard(0)
    requires forall p | p in b :: b[p] == Field(InitialBoard(0)[p].kind, Empty)
    ensures b == ClientBoard()
  {
  }

  /** createField(fields, x, y, type, pin): a new field at (x, y). */
  method CreateField(fields: array2<Option<Field>>, ghost b: Board, x: int, y: int, kind: Color, pin: Color)
    returns (ghost b': Board)
    requires Represents(fields, b) && InRange(Position(x, y))
    modifies fields
    ensures Represents(fields, b')
    ensures b' == b[Position(x, y) := Field(kind, pin)]
  {
    fields[x + 8, y + 8] := Some(Field(kind, pin));
    b' := b[Position(x, y) := Field(kind, pin)];
    forall i, j | 0 <= i < 17 && 0 <= j < 17 ensures fields[i, j] == CellAt(b', i, j) {
      if i == x + 8 && j == y + 8 {
        assert Position(i - 8, j - 8) == Position(x, y);
      }
    }
  }

  /** generateFields: a new 17x17 array holding the client's board. */
  method GenerateFields() returns (fields: array2<Option<Field>>, ghost b: Board)
    ensures fresh(fields)
    ensures Represents(fields, b) && b == ClientBoard()
  {
    fields := new Option<Field>[17, 17]((i, j) => None);
    ghost var b0: Board := map[];
    ghost var b1 := GenerateLayout(fields, b0);
    b := GenerateCorners(fields, b1);
    ClientStartBoard(b0, b1);
  }

  /** The double loop of generateFields, row by row. */
  method GenerateLayout(fields: array2<Option<Field>>, ghost b0: Board) returns (ghost b: Board)
    requires Represents(fields, b0)
    modifies fields
    ensures Represents(fields, b)
    ensures b == LayRows(b0, 9, ClientRule())
  {
    b := b0;
    for u := -8 to 9
      invariant Represents(fields, b)
      invariant b == LayRows(b0, u, ClientRule())
    {
      b := GenerateRow(fields, b, u);
    }
  }

  /** The six corner fields generateFields writes after its double loop. */
  method GenerateCorners(fields: array2<Option<Field>>, ghost b0: Board) returns (ghost b: Board)
    requires Represents(fields, b0)
    modifies fields
    ensures Represents(fields, b)
    ensures b == WithClientCorners(b0)
  {
    b := CreateField(fields, b0, 0, -4, Red, Empty);
    b := CreateField(fields, b, -4, 0, Blue, Empty);
    b := CreateField(fields, b, -4, 4, Blue, Empty);
    b := CreateField(fields, b, 0, 4, Green, Empty);
    b := CreateField(fields, b, 4, 0, Green, Empty);
    b := CreateField(fields, b, 4, -4, Red, Empty);
  }

  /** The inner loop of generateFields: the client rule along row u. */
  method GenerateRow(fields: array2<Option<Field>>, ghost b: Board, u: int) returns (ghost b': Board)
    requires Represents(fields, b) && -8 <= u <= 8
    modifies fields
    ensures Represents(fields, b')
    ensures b' == LayRow(b, u, 9, ClientRule())
  {
    b' := b;
    for v := -8 to 9
      invariant Represents(fields, b')
      invariant b' == LayRow(b, u, v, ClientRule())
    {
      b' := GenerateCell(fields, b', u, v);
    }
  }

  /** The body of generateFields' double loop at (u, v). */
  method GenerateCell(fields: array2<Option<Field>>, ghost b: Board, u: int, v: int) returns (ghost b': Board)
    requires Represents(fields, b) && InRange(Position(u, v))
    modifies fields
    ensures Represents(fields, b')
    ensures b' == Lay(b, u, v, ClientCell(u, v))
  {
    var tu := Abs(u);
    var tv := Abs(v);
    var tw := Abs(-u - v);
    ghost var cell := ClientCell(u, v);
    b' := b;
    if (tu <= 8 && tv <= 4 && tw <= 4) || (tu <= 4 && tv <= 8 && tw <= 4) || (tu <= 4 && tv <= 4 && tw <= 8) {
      if (tu + tv + tw) as real / 2.0 < 4.0 {
        assert cell == Some(Field(Empty, Empty));
        b' := CreateField(fields, b, u, v, Empty, Empty);
      } else if tv >= 4 && tv > tu && tv > tw {
        if v > 0 {
          assert cell == Some(Field(Empty, Empty));
          b' := CreateField(fields, b, u, v, Empty, Empty);
        } else {
          assert cell == Some(Field(Red, Empty));
          b' := CreateField(fields, b, u, v, Red, Empty);
        }
      } else if tw >= 4 && tw > tv && tw > tu {
        if -u - v > 0 {
          assert cell == Some(Field(Empty, Empty));
          b' := CreateField(fields, b, u, v, Empty, Empty);
        } else {
          assert cell == Some(Field(Green, Empty));
          b' := CreateField(fields, b, u, v, Green, Empty);
        }
      } else if tu >= 4 && tu > tv && tu > tw {
        if u > 0 {
          assert cell == Some(Field(Empty, Empty));
          b' := CreateField(fields, b, u, v, Empty, Empty);
        } else {
          assert cell == Some(Field(Blue, Empty));
          b' := CreateField(fields, b, u, v, Blue, Empty);
        }
      } else {
        assert cell.None?;
      }
    } else {
      assert cell.None?;
    }
  }

  /** The client page's rule state: its field array, the visited marks of
      the last search, and the highlighted destinations. */
  class Client {
    /** fields[x + 8][y + 8]; None stands for an undefined entry. */
    const fields: array2<Option<Field>>
    var visited: array2<bool>
    var possible: seq<Position>
    /** The board the field array stores. */
    ghost var board: Board

    /** The page as loaded: the client's board, nothing highlighted. */
    constructor ()
      ensures Represents(fields, board) && board == ClientBoard()
      ensures possible == []
    {
      var f;
      ghost var b;
      f, b := GenerateFields();
      fields := f;
      board := b;
      visited := new bool[17, 17]((i, j) => false);
      possible := [];
    }

    /** getField: the field at pos, read from the array. */
    function GetField(pos: Position): (f: Option<Field>)
      requires Represents(fields, board) && InRange(pos)
      reads this, fields
      ensures f.Some? <==> pos in board
      ensures f.Some? ==> f.value == board[pos]
    {
      assert pos == Position(pos.x + 8 - 8, pos.y + 8 - 8);
      fields[pos.x + 8, pos.y + 8]
    }

    /** fieldValid: the position has an index, and a field is there. */
    function FieldValid(pos: Position): (valid: bool)
      requires Represents(fields, board)
      reads this, fields
      ensures valid <==> pos in board
    {
      Abs(pos.x) <= 8 && Abs(pos.y) <= 8 && GetField(pos).Some?
    }

    /** The jump test of calculatePossible. */
    function JumpOpen(pos: Position, i: int): (open: bool)
      requires Represents(fields, board) && 0 <= i < 6
      reads this, fields
      ensures open <==> CanJump(board, pos, i)
    {
      var nb1 := Neighbour(pos, i);
      var nb2 := Beyond(pos, i);
      FieldValid(nb1) && FieldValid(nb2) && GetField(nb1).value.pin != Empty && GetField(nb2).value.pin == Empty
    }

    /** The step test of calculatePossible. */
    function StepOpen(pos: Position, i: int): (open: bool)
      requires Represents(fields, board) && 0 <= i < 6
      reads this, fields
      ensures open <==> IsEmptyField(board, Neighbour(pos, i))
    {
      var nb1 := Neighbour(pos, i);
      FieldValid(nb1) && GetField(nb1).value.pin == Empty
    }

    /** calculatePossible: a breadth-first search over a queue of jump
        landings; the first round also pushes the empty neighbours. It resets
        `visited` and only appends to `possible`: what it appends lists every
        destination of a piece at `position` exactly once, the same set as
        the engine's search. Afterwards `visited` marks the origin and the
        jump destinations. */
    method CalculatePossible(position: Position) returns (ghost added: seq<Position>)
      requires Represents(fields, board) && InRange(position)
      modifies this`visited, this`possible
      ensures possible == old(possible) + added
      ensures NoDuplicates(added)
      ensures forall q :: q in added <==> q in Destinations(board, position)
      ensures position !in added
      ensures forall q | q in added :: IsEmptyField(board, q)
      ensures fresh(visited)
      ensures Marks(visited, Jumps(board, position) + {position})
    {
      visited := new bool[17, 17]((i, j) => false);
      var todo := [position];
      var first := true;
      ghost var seen: set<Position> := {};
      ghost var unseen := AllCells();
      ghost var jumps: seq<Position> := [];
      added := [];
      AllCellsCover();
      StepListIsSteps(board, position);

      var pos: Position;
      while |todo| > 0
        invariant fresh(visited)
        invariant Marks(visited, seen)
        invariant possible == old(possible) + added
        invariant forall q | InRange(q) && q !in seen :: q in unseen
        invariant first ==> seen == {} && todo == [position] && added == [] && jumps == []
        invariant !first ==> position in seen && added == StepList(board, position, 6) + jumps
        invariant SearchInvariant(board, position, seen, todo)
        invariant NoDuplicates(added)
        invariant forall q :: q in jumps <==> q in seen && q != position
        decreases unseen, |todo|
      {
        ghost var before := todo;
        pos, todo := todo[0], todo[1..];
        assert before == [pos] + todo;
        assert Candidate(board, position, pos);
        if visited[pos.x + 8, pos.y + 8] {
          SearchSkip(board, position, seen, before, pos, todo);
          continue;
        }

        if !first {
          assert pos !in StepList(board, position, 6) && pos !in jumps;
          AppendFresh(added, pos);
          AppendAssoc(StepList(board, position, 6), jumps, [pos]);
        }
        ghost var seen0, p1 := seen, possible;
        ghost var grown := if first then StepList(board, position, 6) else [pos];
        todo := Visit(pos, first, todo, seen);
        assert possible == p1 + grown;
        AppendAssoc(old(possible), added, grown);
        added := added + grown;
        jumps := if first then jumps else jumps + [pos];
        seen := seen + {pos};
        unseen := unseen - {pos};
        JumpListLandings(board, position, pos);
        SearchVisit(board, position, seen0, before, pos, todo);
        first := false;
      }
      SearchComplete(board, position, seen);
      DestinationsFacts(board, position);
      assert seen == Jumps(board, position) + {position};
    }

    /** One visit of the search: push pos unless it is the origin, mark it
        visited and look at its six neighbours. */
    method Visit(pos: Position, first: bool, todo: seq<Position>, ghost seen: set<Position>) returns (todo': seq<Position>)
      requires Represents(fields, board) && InRange(pos) && Marks(visited, seen)
      modifies this`possible, visited
      ensures Marks(visited, seen + {pos})
      ensures todo' == todo + JumpList(board, pos, 6)
      ensures possible == old(possible) + (if first then StepList(board, pos, 6) else [pos])
    {
      if !first {
        possible := possible + [pos];
      }
      Mark(visited, pos, seen);
      todo' := VisitNeighbours(pos, first, todo);
    }

    /** The inner loop of calculatePossible: queue the landing of every jump
        from pos and, in the first round, push the empty neighbours. */
    method VisitNeighbours(pos: Position, first: bool, todo: seq<Position>) returns (todo': seq<Position>)
      requires Represents(fields, board)
      modifies this`possible
      ensures todo' == todo + JumpList(board, pos, 6)
      ensures possible == old(possible) + (if first then StepList(board, pos, 6) else [])
    {
      todo' := todo;
      for i := 0 to |Directions|
        invariant todo' == todo + JumpList(board, pos, i)
        invariant possible == old(possible) + (if first then StepList(board, pos, i) else [])
      {
        if JumpOpen(pos, i) {
          todo' := todo' + [Beyond(pos, i)];
        }
        if first && StepOpen(pos, i) {
          possible := possible + [Neighbour(pos, i)];
        }
      }
    }

    /** The MOVE message: `to` takes the pin of `from`, then `from` is
        emptied. Where either field is missing the handler stops with a
        TypeError before writing anything; that is ok == false here. */
    method OnMove(from: Position, to: Position) returns (ok: bool)
      requires Represents(fields, board)
      modifies this`board, fields
      ensures Represents(fields, board)
      ensures ok <==> from in old(board) && to in old(board)
      ensures ok ==> board == MovedBoard(old(board), from, to)
      ensures !ok ==> board == old(board) && unchanged(fields)
    {
      if !(InRange(to) && GetField(to).Some? && InRange(from) && GetField(from).Some?) {
        return false;
      }
      SetPin(to, GetField(from).value.pin);
      SetPin(from, Empty);
      return true;
    }

    /** An assignment to the pin of the existing field at pos. */
    method SetPin(pos: Position, pin: Color)
      requires Represents(fields, board) && pos in board
      modifies this`board, fields
      ensures Represents(fields, board)
      ensures board == old(board)[pos := Field(old(board)[pos].kind, pin)]
    {
      var i, j := pos.x + 8, pos.y + 8;
      assert Position(i - 8, j - 8) == pos;
      fields[i, j] := Some(Field(fields[i, j].value.kind, pin));
      board := board[pos := Field(board[pos].kind, pin)];
      forall i', j' | 0 <= i' < 17 && 0 <= j' < 17 ensures fields[i', j'] == CellAt(board, i', j') {
        if i' == i && j' == j {
          assert Position(i' - 8, j' - 8) == pos;
        }
      }
    }
  }
}
