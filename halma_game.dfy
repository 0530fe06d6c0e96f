/** The game engine of halma.go: a HalmaGame with its 17x17 field array,
    its state, whose turn it is, its players and its observing clients. */
module HalmaGame {
  import opened HalmaBoard
  import opened HalmaMoves

  datatype GameState = New | Running | Done

  /** The identity of a *Player, compared by equality (nil is one more identity). */
  type PlayerId = nat

  /** The identity of a HalmaClient registered with a game. */
  type ClientId = nat

  /** HalmaGamePlayer; its back pointer to the game is the game holding it. */
  datatype GamePlayer = GamePlayer(player: PlayerId, color: Color)

  /** The calls Move makes on its clients, in the order it makes them. */
  datatype Notification =
    | MoveNotice(client: ClientId, color: Color, from: Position, to: Position)
    | TurnNotice(client: ClientId, current: Color)

  /** The board after the piece on `from` went to `to`: `to` takes the pin
      of `from`, then `from` is emptied. */
  function MovedBoard(b: Board, from: Position, to: Position): Board
    requires from in b && to in b
  {
    var b1 := b[to := Field(b[to].kind, b[from].pin)];
    b1[from := Field(b1[from].kind, Empty)]
  }

  /** Colour c has won: every field whose home colour is c holds a c piece. */
  predicate Winner(b: Board, c: Color) {
    forall q | q in b && b[q].kind == c :: b[q].pin == c
  }

  /** The colour after c in a game of n players, wrapping back to Red. */
  function NextTurn(c: Color, n: nat): (r: Color)
    requires n <= 3
    ensures r != Empty
    ensures n >= 1 ==> Ordinal(r) <= n
  {
    if Ordinal(c) + 1 > n then Red else ColorOf(Ordinal(c) + 1)
  }

  /** Whose turn it is after a move by `current` led to board b. */
  function AfterMove(b: Board, current: Color, n: nat): Color
    requires n <= 3
  {
    if Winner(b, current) then Empty else NextTurn(current, n)
  }

  /** When Move carries out a move: the colour is on turn, both fields exist,
      the colour's piece stands on `from`, and `to` is one of its destinations. */
  ghost predicate Accepts(b: Board, current: Color, color: Color, from: Position, to: Position) {
    color == current && from in b && to in b && b[from].pin == color && to in Destinations(b, from)
  }

  /** The notifications of one move: NotifyMove then NotifyTurn, client by client. */
  function Broadcast(cs: seq<ClientId>, color: Color, from: Position, to: Position, turn: Color): seq<Notification> {
    if cs == [] then []
    else
      var last := cs[|cs| - 1];
      Broadcast(cs[..|cs| - 1], color, from, to, turn) + [MoveNotice(last, color, from, to), TurnNotice(last, turn)]
  }

  /** Every client gets the move and then the turn, in the order of the clients. */
  lemma {:induction false} BroadcastOrder(cs: seq<ClientId>, color: Color, from: Position, to: Position, turn: Color)
    ensures |Broadcast(cs, color, from, to, turn)| == 2 * |cs|
    ensures forall i | 0 <= i < |cs| ::
      Broadcast(cs, color, from, to, turn)[2 * i] == MoveNotice(cs[i], color, from, to) &&
      Broadcast(cs, color, from, to, turn)[2 * i + 1] == TurnNotice(cs[i], turn)
  {
    if cs != [] {
      var front := cs[..|cs| - 1];
      BroadcastOrder(front, color, from, to, turn);
      forall i | 0 <= i < |cs| - 1 ensures front[i] == cs[i] { }
    }
  }

  /** The colour on turn after k moves that win nothing. */
  function Turns(c: Color, n: nat, k: nat): Color
    requires n <= 3
  {
    if k == 0 then c else NextTurn(Turns(c, n, k - 1), n)
  }

  /** The turn goes round the n colours in the order of their values. */
  lemma {:induction false} TurnRotation(c: Color, n: nat, k: nat)
    requires 1 <= n <= 3 && 1 <= Ordinal(c) <= n
    ensures Ordinal(Turns(c, n, k)) == (Ordinal(c) - 1 + k) % n + 1
  {
    if k > 0 {
      TurnRotation(c, n, k - 1);
      if n == 1 {
      } else if n == 2 {
      } else {
      }
    }
  }

  /** After one move per player the turn is back where it started. */
  lemma TurnCycle(c: Color, n: nat)
    requires 1 <= n <= 3 && 1 <= Ordinal(c) <= n
    ensures Turns(c, n, n) == c
  {
    TurnRotation(c, n, n);
    var r := Turns(c, n, n);
    assert Ordinal(r) == Ordinal(c);
    match r
    case Empty =>
    case Red =>
    case Green =>
    case Blue =>
  }

  /** A move changes the two fields involved, keeps their home colours, and
      leaves every other field alone. */
  lemma MoveTouchesTwoFields(b: Board, from: Position, to: Position)
    requires from in b && to in b && from != to
    ensures MovedBoard(b, from, to).Keys == b.Keys
    ensures MovedBoard(b, from, to)[to] == Field(b[to].kind, b[from].pin)
    ensures MovedBoard(b, from, to)[from] == Field(b[from].kind, Empty)
    ensures forall q | q in b && q != from && q != to :: MovedBoard(b, from, to)[q] == b[q]
  {
  }

  /** The positions holding a c piece (or, for Empty, the vacant fields). */
  ghost function PinsOf(b: Board, c: Color): set<Position> {
    set q | q in b && b[q].pin == c
  }

  /** Which fields hold a c piece after a move: those before, apart from
      the two fields involved, then `to` if the moved piece is c and `from`
      if c is Empty. */
  lemma PinsOfMoved(b: Board, from: Position, to: Position, c: Color)
    requires from in b && to in b && from != to
    ensures PinsOf(MovedBoard(b, from, to), c) ==
      PinsOf(b, c) - {from, to} + (if b[from].pin == c then {to} else {}) + (if c == Empty then {from} else {})
  {
    var m := MovedBoard(b, from, to);
    forall q ensures q in PinsOf(m, c) <==> q in PinsOf(b, c) - {from, to} + (if b[from].pin == c then {to} else {}) + (if c == Empty then {from} else {}) {
      if q != from && q != to {
        assert q in m <==> q in b;
      }
    }
  }

  /** Moving onto an empty field keeps the number of pieces of every colour. */
  lemma MovePreservesPieces(b: Board, from: Position, to: Position, c: Color)
    requires from in b && to in b && from != to && b[to].pin == Empty
    ensures |PinsOf(MovedBoard(b, from, to), c)| == |PinsOf(b, c)|
  {
    PinsOfMoved(b, from, to, c);
    var s := PinsOf(b, c);
    var p := b[from].pin;
    if c == Empty && p == Empty {
      assert PinsOf(b, c) - {from, to} + {to} + {from} == s;
    } else if c == Empty {
      assert to in s && from !in s;
      assert s - {from, to} == s - {to};
    } else if c == p {
      assert from in s && to !in s;
      assert s - {from, to} == s - {from};
    } else {
      assert from !in s && to !in s;
      assert s - {from, to} == s;
    }
  }

  /** An accepted move goes to another field that is empty, so it keeps
      the number of pieces of every colour. */
  lemma AcceptedMovePreservesPieces(b: Board, current: Color, color: Color, from: Position, to: Position, c: Color)
    requires Accepts(b, current, color, from, to)
    ensures from != to && b[to].pin == Empty
    ensures |PinsOf(MovedBoard(b, from, to), c)| == |PinsOf(b, c)|
  {
    DestinationsFacts(b, from);
    MovePreservesPieces(b, from, to, c);
  }

  /** On the board Start sets up no colour has won yet. */
  lemma StartIsNotWon(n: nat, c: Color)
    requires c != Empty
    ensures !Winner(InitialBoard(n), c)
  {
    var q := if c == Red then Position(1, -5) else if c == Green then Position(4, 1) else Position(-5, 1);
    assert q in InitialBoard(n);
    assert InitialBoard(n)[q] == Field(c, Empty);
  }

  /** HalmaGamePlayer entry i is the first one of `player`. */
  ghost predicate FirstOf(players: seq<GamePlayer>, player: PlayerId, i: int) {
    0 <= i < |players| && players[i].player == player &&
    forall j | 0 <= j < i :: players[j].player != player
  }
  /** A move keeps the star layout and the home colours. */
  lemma MovedStarBoard(b: Board, from: Position, to: Position)
    requires StarBoard(b) && from in b && to in b
    ensures StarBoard(MovedBoard(b, from, to))
  {
  }

  /** The field rule Start's double loop applies for n players. */
  function GeneralRule(n: nat): (int, int) -> Option<Field> {
    (u: int, v: int) => GeneralCell(u, v, n)
  }

  /** Board b after Start's double loop visited (u, v), where the rule
      gives `cell`. */
  function Lay(b: Board, u: int, v: int, cell: Option<Field>): Board {
    if cell.Some? then b[Position(u, v) := cell.value] else b
  }

  /** Board b after the inner loop of Start has applied the rule to
      columns -8 .. v - 1 of row u. */
  function LayRow(b: Board, u: int, v: int, rule: (int, int) -> Option<Field>): Board
    requires -8 <= v <= 9
    decreases v + 8
  {
    if v == -8 then b else Lay(LayRow(b, u, v - 1, rule), u, v - 1, rule(u, v - 1))
  }

  /** Board b after the outer loop of Start has applied the rule to rows -8 .. u - 1. */
  function LayRows(b: Board, u: int, rule: (int, int) -> Option<Field>): Board
    requires -8 <= u <= 9
    decreases u + 8
  {
    if u == -8 then b else LayRow(LayRows(b, u - 1, rule), u - 1, 9, rule)
  }

  /** One row of the double loop writes the rule's field at each of its
      columns done so far, and nothing else. */
  lemma {:induction false} LayRowFacts(b: Board, u: int, v: int, rule: (int, int) -> Option<Field>)
    requires -8 <= v <= 9
    decreases v + 8
    ensures forall p :: p in LayRow(b, u, v, rule) <==> p in b || (p.x == u && -8 <= p.y < v && rule(p.x, p.y).Some?)
    ensures forall p | p in LayRow(b, u, v, rule) ::
      Some(LayRow(b, u, v, rule)[p]) == if p.x == u && -8 <= p.y < v && rule(p.x, p.y).Some? then rule(p.x, p.y) else Some(b[p])
  {
    if v > -8 {
      LayRowFacts(b, u, v - 1, rule);
    }
  }

  /** The double loop writes the rule's field on every cell of the 17x17
      square where the rule gives one, and nothing else. */
  lemma {:induction false} LayRowsFacts(b: Board, u: int, rule: (int, int) -> Option<Field>)
    requires -8 <= u <= 9
    decreases u + 8
    ensures forall p :: p in LayRows(b, u, rule) <==> p in b || (-8 <= p.x < u && -8 <= p.y <= 8 && rule(p.x, p.y).Some?)
    ensures forall p | p in LayRows(b, u, rule) ::
      Some(LayRows(b, u, rule)[p]) == if -8 <= p.x < u && -8 <= p.y <= 8 && rule(p.x, p.y).Some? then rule(p.x, p.y) else Some(b[p])
  {
    if u > -8 {
      var prev := LayRows(b, u - 1, rule);
      var cur := LayRow(prev, u - 1, 9, rule);
      LayRowsFacts(b, u - 1, rule);
      LayRowFacts(prev, u - 1, 9, rule);
      forall p
        ensures p in cur <==> p in b || (-8 <= p.x < u && -8 <= p.y <= 8 && rule(p.x, p.y).Some?)
        ensures p in cur ==>
          Some(cur[p]) == if -8 <= p.x < u && -8 <= p.y <= 8 && rule(p.x, p.y).Some? then rule(p.x, p.y) else Some(b[p])
      {
      }
    }
  }

  /** Board b with the six corner fields of Start written over it, in the
      order Start writes them. */
  function WithCorners(b: Board, n: nat): Board {
    b[Position(0, -4) := Field(Red, GreenPin(n))]
     [Position(-4, 0) := Field(Blue, GreenPin(n))]
     [Position(-4, 4) := Field(Blue, Red)]
     [Position(0, 4) := Field(Green, Red)]
     [Position(4, 0) := Field(Green, BluePin(n))]
     [Position(4, -4) := Field(Red, BluePin(n))]
  }

  /** The corner writes add exactly the six corners, with CornerField's
      (Type, Pin) pairs, and keep every other field. */
  lemma WithCornersFacts(b: Board, n: nat)
    ensures forall p :: p in WithCorners(b, n) <==> p in b || Corner(p.x, p.y)
    ensures forall p | p in WithCorners(b, n) ::
      WithCorners(b, n)[p] == if Corner(p.x, p.y) then CornerField(p.x, p.y, n) else b[p]
  {
  }

  /** Start's double loop writes the general rule's field wherever the
      rule gives one, and nothing else. */
  lemma GeneralLayout(b0: Board, n: nat)
    ensures forall p :: p in LayRows(b0, 9, GeneralRule(n)) <==> p in b0 || GeneralCell(p.x, p.y, n).Some?
    ensures forall p | p in LayRows(b0, 9, GeneralRule(n)) ::
      Some(LayRows(b0, 9, GeneralRule(n))[p]) == if GeneralCell(p.x, p.y, n).Some? then GeneralCell(p.x, p.y, n) else Some(b0[p])
  {
    LayRowsFacts(b0, 9, GeneralRule(n));
    forall p: Position | GeneralCell(p.x, p.y, n).Some? ensures -8 <= p.x < 9 && -8 <= p.y <= 8 {
      GeneralCellInRange(p.x, p.y, n);
    }
  }

  /** Start's double loop followed by its corners yields Start's board,
      whatever star fields were there before. */
  lemma StartBoard(b0: Board, b1: Board, n: nat)
    requires forall p | p in b0 :: Star(p.x, p.y)
    requires forall p :: p in b1 <==> p in b0 || GeneralCell(p.x, p.y, n).Some?
    requires forall p | p in b1 ::
      Some(b1[p]) == if GeneralCell(p.x, p.y, n).Some? then GeneralCell(p.x, p.y, n) else Some(b0[p])
    ensures WithCorners(b1, n) == InitialBoard(n)
  {
    var b := WithCorners(b1, n);
    WithCornersFacts(b1, n);
    forall p
      ensures p in b <==> Star(p.x, p.y)
      ensures p in b ==> Some(b[p]) == InitialCell(p.x, p.y, n)
    {
      StartCell(b0, b1, b, n, p);
    }
    IsInitialBoard(b, n);
  }

  /** One position of StartBoard: either a corner, or a field of the general
      rule, or neither and then not on the star. */
  lemma StartCell(b0: Board, b1: Board, b: Board, n: nat, p: Position)
    requires p in b0 ==> Star(p.x, p.y)
    requires p in b1 <==> p in b0 || GeneralCell(p.x, p.y, n).Some?
    requires p in b1 ==> Some(b1[p]) == if GeneralCell(p.x, p.y, n).Some? then GeneralCell(p.x, p.y, n) else Some(b0[p])
    requires p in b <==> p in b1 || Corner(p.x, p.y)
    requires p in b ==> b[p] == if Corner(p.x, p.y) then CornerField(p.x, p.y, n) else b1[p]
    ensures p in b <==> Star(p.x, p.y)
    ensures p in b ==> Some(b[p]) == InitialCell(p.x, p.y, n)
  {
    GeneralRuleSkipsCorners(p.x, p.y, n);
  }

  /** A board with a field exactly on the star, each as Start sets it up
      for n players, is Start's board. */
  lemma IsInitialBoard(b: Board, n: nat)
    requires forall p :: p in b <==> Star(p.x, p.y)
    requires forall p | p in b :: Some(b[p]) == InitialCell(p.x, p.y, n)
    ensures b == InitialBoard(n)
  {
  }

  /** visited[x + 8, y + 8] is set exactly for the positions (x, y) seen. */
  ghost predicate Marks(visited: array2<bool>, seen: set<Position>)
    reads visited
  {
    visited.Length0 == 17 && visited.Length1 == 17 &&
    (forall q | q in seen :: InRange(q)) &&
    forall i, j | 0 <= i < 17 && 0 <= j < 17 :: visited[i, j] <==> Position(i - 8, j - 8) in seen
  }

  /** Marks pos as visited. */
  method Mark(visited: array2<bool>, pos: Position, ghost seen: set<Position>)
    requires Marks(visited, seen) && InRange(pos)
    modifies visited
    ensures Marks(visited, seen + {pos})
  {
    visited[pos.x + 8, pos.y + 8] := true;
    forall i, j | 0 <= i < 17 && 0 <= j < 17 ensures visited[i, j] <==> Position(i - 8, j - 8) in seen + {pos} {
      if i == pos.x + 8 && j == pos.y + 8 {
        assert Position(i - 8, j - 8) == pos;
      }
    }
  }

  class Game {
    const id: int
    var state: GameState
    /** Fields[x + 8][y + 8]; None stands for a nil field. */
    const fields: array2<Option<Field>>
    var currentPlayer: Color
    var players: seq<GamePlayer>
    var clients: seq<ClientId>
    /** The calls made on the clients so far. */
    var notifications: seq<Notification>
    /** The board the field array stores. */
    ghost var board: Board

    /** What every operation keeps: the array stores the board; at most
        three players, coloured Red, Green, Blue in joining order; the turn
        is Empty or one of theirs; a new game has no fields and a running
        one has the star board with its home colours; Done is never reached. */
    ghost predicate Valid()
      reads this`board, this`players, this`currentPlayer, this`state, fields
    {
      Represents(fields, board) &&
      |players| <= 3 &&
      (forall i | 0 <= i < |players| :: players[i].color == ColorOf(i + 1)) &&
      (currentPlayer == Empty || Ordinal(currentPlayer) <= |players|) &&
      state != Done &&
      (state == New ==> board == map[]) &&
      (state == Running ==> |players| >= 1 && StarBoard(board))
    }

    /** The game NewHalmaGame creates: New, no fields, no turn, nobody in it. */
    constructor (id: int)
      ensures Valid() && fresh(fields)
      ensures this.id == id && state == New && currentPlayer == Empty
      ensures players == [] && clients == [] && notifications == []
      ensures board == map[]
    {
      this.id := id;
      state := New;
      fields := new Option<Field>[17, 17]((i, j) => None);
      currentPlayer := Empty;
      players := [];
      clients := [];
      notifications := [];
      board := map[];
    }

    /** getField: the field at pos, read from the array. */
    function GetField(pos: Position): (f: Option<Field>)
      requires Represents(fields, board) && InRange(pos)
      reads this, fields
      ensures f.Some? <==> pos in board
      ensures f.Some? ==> f.value == board[pos]
    {
      assert pos == Position(pos.x + 8 - 8, pos.y + 8 - 8);
      fields[pos.x + 8, pos.y + 8]
    }

    /** fieldValid: the position has an index, and a field is there. */
    function FieldValid(pos: Position): (valid: bool)
      requires Represents(fields, board)
      reads this, fields
      ensures valid <==> pos in board
    {
      Abs(pos.x) <= 8 && Abs(pos.y) <= 8 && GetField(pos).Some?
    }

    /** createField: a new field at pos; nothing else changes. */
    method CreateField(pos: Position, kind: Color, pin: Color)
      requires Represents(fields, board) && InRange(pos)
      modifies this`board, fields
      ensures Represents(fields, board)
      ensures board == old(board)[pos := Field(kind, pin)]
    {
      fields[pos.x + 8, pos.y + 8] := Some(Field(kind, pin));
      board := board[pos := Field(kind, pin)];
      forall i, j | 0 <= i < 17 && 0 <= j < 17 ensures fields[i, j] == CellAt(board, i, j) {
        if i == pos.x + 8 && j == pos.y + 8 {
          assert Position(i - 8, j - 8) == pos;
        }
      }
    }

    /** Start: lays out the star board for the players present and gives the
        turn to player pick + 1 (the pick is rand.Intn(len(Players))). */
    method Start(pick: nat)
      requires Valid()
      requires pick < |players|
      modifies this, fields
      ensures Valid()
      ensures board == InitialBoard(|players|)
      ensures state == Running && currentPlayer == ColorOf(pick + 1)
      ensures players == old(players) && clients == old(clients) && notifications == old(notifications)
    {
      var green := Empty;
      var blue := Empty;
      if |players| > 1 {
        green := Green;
        if |players| > 2 {
          blue := Blue;
        }
      }
      ghost var n := |players|;
      LayBoard(green, blue, n);

      state := Running;
      currentPlayer := ColorOf(pick + 1);
      InitialBoardIsStar(n);
    }


    /** The fields of Start: its double loop, then its six corners. */
    method LayBoard(green: Color, blue: Color, ghost n: nat)
      requires Represents(fields, board) && forall p | p in board :: Star(p.x, p.y)
      requires green == GreenPin(n) && blue == BluePin(n)
      modifies this`board, fields
      ensures Represents(fields, board)
      ensures board == InitialBoard(n)
    {
      ghost var b0 := board;
      LayOut(green, blue, n);
      GeneralLayout(b0, n);
      StartBoard(b0, board, n);
      CreateCorners(green, blue, n);
    }

    /** The double loop of Start: the general rule at every (u, v) of the
        17x17 square, row by row. */
    method LayOut(green: Color, blue: Color, ghost n: nat)
      requires Represents(fields, board)
      requires green == GreenPin(n) && blue == BluePin(n)
      modifies this`board, fields
      ensures Represents(fields, board)
      ensures board == LayRows(old(board), 9, GeneralRule(n))
    {
      for u := -8 to 9
        invariant Represents(fields, board)
        invariant board == LayRows(old(board), u, GeneralRule(n))
      {
        LayOutRow(u, green, blue, n);
      }
    }

    /** The inner loop of Start's double loop: the general rule along row u. */
    method LayOutRow(u: int, green: Color, blue: Color, ghost n: nat)
      requires Represents(fields, board) && -8 <= u <= 8
      requires green == GreenPin(n) && blue == BluePin(n)
      modifies this`board, fields
      ensures Represents(fields, board)
      ensures board == LayRow(old(board), u, 9, GeneralRule(n))
    {
      for v := -8 to 9
        invariant Represents(fields, board)
        invariant board == LayRow(old(board), u, v, GeneralRule(n))
      {
        CreateStarCell(u, v, green, blue, n);
      }
    }

    /** The body of Start's double loop at (u, v): the field the general
        rule creates there, with the Green and Blue pins chosen for n players. */
    method CreateStarCell(u: int, v: int, green: Color, blue: Color, ghost n: nat)
      requires Represents(fields, board) && InRange(Position(u, v))
      requires green == GreenPin(n) && blue == BluePin(n)
      modifies this`board, fields
      ensures Represents(fields, board)
      ensures board == Lay(old(board), u, v, GeneralCell(u, v, n))
    {
      var tu := Abs(u);
      var tv := Abs(v);
      var tw := Abs(-u - v);
      ghost var cell := GeneralCell(u, v, n);
      if (tu <= 8 && tv <= 4 && tw <= 4) || (tu <= 4 && tv <= 8 && tw <= 4) || (tu <= 4 && tv <= 4 && tw <= 8) {
        if (tu + tv + tw) / 2 < 4 {
          assert cell == Some(Field(Empty, Empty));
          CreateField(Position(u, v), Empty, Empty);
        } else if tv >= 4 && tv > tu && tv > tw {
          if v > 0 {
            assert cell == Some(Field(Empty, Red));
            CreateField(Position(u, v), Empty, Red);
          } else {
            assert cell == Some(Field(Red, Empty));
            CreateField(Position(u, v), Red, Empty);
          }
        } else if tw >= 4 && tw > tv && tw > tu {
          if -u - v > 0 {
            assert cell == Some(Field(Empty, green));
            CreateField(Position(u, v), Empty, green);
          } else {
            assert cell == Some(Field(Green, Empty));
            CreateField(Position(u, v), Green, Empty);
          }
        } else if tu >= 4 && tu > tv && tu > tw {
          if u > 0 {
            assert cell == Some(Field(Empty, blue));
            CreateField(Position(u, v), Empty, blue);
          } else {
            assert cell == Some(Field(Blue, Empty));
            CreateField(Position(u, v), Blue, Empty);
          }
        } else {
          assert cell.None?;
        }
      } else {
        assert cell.None?;
      }
    }

    /** The six corner fields Start creates after its double loop. */
    method CreateCorners(green: Color, blue: Color, ghost n: nat)
      requires Represents(fields, board)
      requires green == GreenPin(n) && blue == BluePin(n)
      modifies this`board, fields
      ensures Represents(fields, board)
      ensures board == WithCorners(old(board), n)
    {
      CreateField(Position(0, -4), Red, green);
      CreateField(Position(-4, 0), Blue, green);
      CreateField(Position(-4, 4), Blue, Red);
      CreateField(Position(0, 4), Green, Red);
      CreateField(Position(4, 0), Green, blue);
      CreateField(Position(4, -4), Red, blue);
    }

    /** calculatePossible: a depth-first search over a stack of jump landings;
        the first round also collects the empty neighbours. The result lists
        every destination of a piece at `position` exactly once. */
    method CalculatePossible(position: Position) returns (possible: seq<Position>)
      requires Represents(fields, board)
      requires InRange(position)
      ensures NoDuplicates(possible)
      ensures forall q :: q in possible <==> q in Destinations(board, position)
      ensures position !in possible
      ensures forall q | q in possible :: IsEmptyField(board, q)
    {
      var visited := new bool[17, 17]((i, j) => false);
      var todo := [position];
      possible := [];
      var first := true;
      ghost var seen: set<Position> := {};
      ghost var unseen := AllCells();
      ghost var jumps: seq<Position> := [];
      AllCellsCover();
      StepListIsSteps(board, position);

      var pos: Position;
      while |todo| > 0
        invariant Marks(visited, seen)
        invariant forall q | InRange(q) && q !in seen :: q in unseen
        invariant first ==> seen == {} && todo == [position] && possible == [] && jumps == []
        invariant !first ==> position in seen && possible == StepList(board, position, 6) + jumps
        invariant SearchInvariant(board, position, seen, todo)
        invariant NoDuplicates(possible)
        invariant forall q :: q in jumps <==> q in seen && q != position
        decreases unseen, |todo|
      {
        ghost var before := todo;
        pos, todo := todo[|todo| - 1], todo[..|todo| - 1];
        assert before == todo + [pos];
        assert Candidate(board, position, pos);
        if visited[pos.x + 8, pos.y + 8] {
          SearchSkip(board, position, seen, before, pos, todo);
          continue;
        }

        if !first {
          assert pos !in StepList(board, position, 6) && pos !in jumps;
          AppendFresh(possible, pos);
          AppendAssoc(StepList(board, position, 6), jumps, [pos]);
          possible := possible + [pos];
          jumps := jumps + [pos];
        }
        Mark(visited, pos, seen);
        ghost var seen0 := seen;
        seen := seen + {pos};
        unseen := unseen - {pos};

        todo, possible := VisitNeighbours(pos, first, todo, possible);
        JumpListLandings(board, position, pos);
        SearchVisit(board, position, seen0, before, pos, todo);
        if first {
          assert possible == StepList(board, position, 6) + jumps;
        }
        first := false;
      }
      SearchComplete(board, position, seen);
      DestinationsFacts(board, position);
    }

    /** The jump test of calculatePossible: the neighbour in direction i is
        a valid, occupied field and the one beyond it a valid, empty field. */
    function JumpOpen(pos: Position, i: int): (open: bool)
      requires Represents(fields, board) && 0 <= i < 6
      reads this, fields
      ensures open <==> CanJump(board, pos, i)
    {
      var nb1 := Neighbour(pos, i);
      var nb2 := Beyond(pos, i);
      FieldValid(nb1) && FieldValid(nb2) && GetField(nb1).value.pin != Empty && GetField(nb2).value.pin == Empty
    }

    /** The step test of calculatePossible: the neighbour in direction i is
        a valid, empty field. */
    function StepOpen(pos: Position, i: int): (open: bool)
      requires Represents(fields, board) && 0 <= i < 6
      reads this, fields
      ensures open <==> IsEmptyField(board, Neighbour(pos, i))
    {
      var nb1 := Neighbour(pos, i);
      FieldValid(nb1) && GetField(nb1).value.pin == Empty
    }

    /** The inner loop of calculatePossible: push the landing of every jump
        from pos and, in the first round, append the empty neighbours. */
    method VisitNeighbours(pos: Position, first: bool, todo: seq<Position>, possible: seq<Position>)
      returns (todo': seq<Position>, possible': seq<Position>)
      requires Represents(fields, board)
      ensures todo' == todo + JumpList(board, pos, 6)
      ensures first ==> possible' == possible + StepList(board, pos, 6)
      ensures !first ==> possible' == possible
    {
      todo', possible' := todo, possible;
      for i := 0 to |Directions|
        invariant todo' == todo + JumpList(board, pos, i)
        invariant first ==> possible' == possible + StepList(board, pos, i)
        invariant !first ==> possible' == possible
      {
        if JumpOpen(pos, i) {
          todo' := todo' + [Beyond(pos, i)];
        }
        if first && StepOpen(pos, i) {
          possible' := possible' + [Neighbour(pos, i)];
        }
      }
    }

    /** checkWinner: a scan of the array for a home field of `color` that
        does not hold a `color` piece. */
    method CheckWinner(color: Color) returns (won: bool)
      requires Represents(fields, board)
      ensures won <==> Winner(board, color)
    {
      for x := 0 to 17
        invariant forall i, j | 0 <= i < x && 0 <= j < 17 && fields[i, j].Some? && fields[i, j].value.kind == color ::
          fields[i, j].value.pin == color
      {
        for y := 0 to 17
          invariant forall i, j | 0 <= i < x && 0 <= j < 17 && fields[i, j].Some? && fields[i, j].value.kind == color ::
            fields[i, j].value.pin == color
          invariant forall j | 0 <= j < y && fields[x, j].Some? && fields[x, j].value.kind == color ::
            fields[x, j].value.pin == color
        {
          if fields[x, y].Some? {
            if fields[x, y].value.kind == color && fields[x, y].value.kind != fields[x, y].value.pin {
              assert Position(x - 8, y - 8) in board;
              return false;
            }
          }
        }
      }
      forall q | q in board && board[q].kind == color ensures board[q].pin == color {
        assert q == Position(q.x + 8 - 8, q.y + 8 - 8);
        assert fields[q.x + 8, q.y + 8].Some?;
      }
      return true;
    }

    /** Move: a no-op unless the move is accepted; then the piece moves, the
        turn passes on (or ends on a win), and every client is told. */
    method Move(color: Color, from: Position, to: Position)
      requires Valid()
      modifies this`board, this`currentPlayer, this`notifications, fields
      ensures Valid()
      ensures state == old(state) && players == old(players) && clients == old(clients)
      ensures !Accepts(old(board), old(currentPlayer), color, from, to) ==>
        board == old(board) && currentPlayer == old(currentPlayer) && notifications == old(notifications)
      ensures Accepts(old(board), old(currentPlayer), color, from, to) ==>
        board == MovedBoard(old(board), from, to) &&
        currentPlayer == AfterMove(board, old(currentPlayer), |players|) &&
        notifications == old(notifications) + Broadcast(clients, color, from, to, currentPlayer)
    {
      if color != currentPlayer || !FieldValid(from) || !FieldValid(to) || GetField(from).value.pin != color {
        return;
      }

      var possible := CalculatePossible(from);
      ghost var accepted := Accepts(board, currentPlayer, color, from, to);
      assert accepted <==> to in possible;

      // the index at which the loop finds `to`, |possible| when it never does
      ghost var at := |possible|;
      if to in possible {
        at :| 0 <= at < |possible| && possible[at] == to;
      }

      for k := 0 to |possible|
        invariant Valid()
        invariant k <= at ==>
          board == old(board) && currentPlayer == old(currentPlayer) && notifications == old(notifications)
        invariant at < k ==>
          board == MovedBoard(old(board), from, to) &&
          currentPlayer == AfterMove(board, old(currentPlayer), |players|) &&
          notifications == old(notifications) + Broadcast(clients, color, from, to, currentPlayer)
      {
        if possible[k] == to {
          assert k == at;
          DestinationsFacts(board, from);
          Play(color, from, to);
        }
      }
    }

    /** The body of Move's loop once the destination is found: the piece
        moves, the turn passes on or ends on a win, and every client is told. */
    method Play(color: Color, from: Position, to: Position)
      requires Valid() && from in board && to in board && from != to
      modifies this`board, this`currentPlayer, this`notifications, fields
      ensures Valid()
      ensures board == MovedBoard(old(board), from, to)
      ensures currentPlayer == AfterMove(board, old(currentPlayer), |players|)
      ensures notifications == old(notifications) + Broadcast(clients, color, from, to, currentPlayer)
    {
      MoveOnBoard(from, to);
      var won := CheckWinner(currentPlayer);
      PassTurn(won);
      NotifyAll(color, from, to);
    }

    /** The board half of Play: the piece moves and the game stays consistent. */
    method MoveOnBoard(from: Position, to: Position)
      requires Valid() && from in board && to in board
      modifies this`board, fields
      ensures Valid()
      ensures board == MovedBoard(old(board), from, to)
    {
      MovePiece(from, to);
      MovedStarBoard(old(board), from, to);
    }

    /** The turn update of Move: Empty after a win, else the next colour,
        back to Red after the last player. */
    method PassTurn(won: bool)
      requires Valid() && state == Running
      modifies this`currentPlayer
      ensures Valid()
      ensures currentPlayer == if won then Empty else NextTurn(old(currentPlayer), |players|)
    {
      if won {
        currentPlayer := Empty;
      } else {
        var next := Ordinal(currentPlayer) + 1;
        if next > |players| {
          currentPlayer := Red;
        } else {
          currentPlayer := ColorOf(next);
        }
      }
    }

    /** The two writes of Move: `to` takes the pin of `from`, and `from` is emptied. */
    method MovePiece(from: Position, to: Position)
      requires Represents(fields, board) && from in board && to in board
      modifies this`board, fields
      ensures Represents(fields, board)
      ensures board == MovedBoard(old(board), from, to)
    {
      SetPin(to, GetField(from).value.pin);
      SetPin(from, Empty);
    }

    /** An assignment to the Pin of the existing field at pos. */
    method SetPin(pos: Position, pin: Color)
      requires Represents(fields, board) && pos in board
      modifies this`board, fields
      ensures Represents(fields, board)
      ensures board == old(board)[pos := Field(old(board)[pos].kind, pin)]
    {
      var i, j := pos.x + 8, pos.y + 8;
      assert Position(i - 8, j - 8) == pos;
      fields[i, j] := Some(Field(fields[i, j].value.kind, pin));
      board := board[pos := Field(board[pos].kind, pin)];
      forall i', j' | 0 <= i' < 17 && 0 <= j' < 17 ensures fields[i', j'] == CellAt(board, i', j') {
        if i' == i && j' == j {
          assert Position(i' - 8, j' - 8) == pos;
        }
      }
    }

    /** The loop at the end of a move: NotifyMove and NotifyTurn on every
        client, in order. */
    method NotifyAll(color: Color, from: Position, to: Position)
      modifies this`notifications
      ensures notifications == old(notifications) + Broadcast(clients, color, from, to, currentPlayer)
    {
      for c := 0 to |clients|
        invariant notifications == old(notifications) + Broadcast(clients[..c], color, from, to, currentPlayer)
      {
        assert clients[..c + 1][..c] == clients[..c];
        notifications := notifications + [MoveNotice(clients[c], color, from, to), TurnNotice(clients[c], currentPlayer)];
      }
      assert clients[..|clients|] == clients;
    }
    /** GetFreeColor: the colour the next player to join gets, Empty when full. */
    function GetFreeColor(): (color: Color)
      reads this
      ensures color == Empty <==> |players| >= 3
      ensures color != Empty ==> Ordinal(color) == |players| + 1
    {
      if |players| + 1 > 3 then Empty else ColorOf(|players| + 1)
    }

    /** Join: adds the player with the next free colour, unless three are in. */
    method Join(player: PlayerId) returns (hgp: Option<GamePlayer>)
      requires Valid()
      modifies this`players
      ensures Valid()
      ensures old(|players|) >= 3 ==> hgp == None && players == old(players)
      ensures old(|players|) < 3 ==>
        hgp == Some(GamePlayer(player, ColorOf(old(|players|) + 1))) && players == old(players) + [hgp.value]
      ensures state == old(state) && currentPlayer == old(currentPlayer)
      ensures clients == old(clients) && notifications == old(notifications)
    {
      var color := GetFreeColor();
      if color == Empty {
        return None;
      }
      hgp := Some(GamePlayer(player, color));
      players := players + [hgp.value];
    }

    /** GetPlayer: the first entry of the player, if any. */
    method GetPlayer(player: PlayerId) returns (hgp: Option<GamePlayer>)
      ensures hgp.None? <==> forall i | 0 <= i < |players| :: players[i].player != player
      ensures hgp.Some? ==> exists i :: FirstOf(players, player, i) && hgp.value == players[i]
    {
      for i := 0 to |players|
        invariant forall j | 0 <= j < i :: players[j].player != player
      {
        if players[i].player == player {
          assert FirstOf(players, player, i);
          return Some(players[i]);
        }
      }
      return None;
    }

    /** GetPlayerColor: the colour of the player's first entry, Empty when
        the player has not joined. */
    method GetPlayerColor(player: PlayerId) returns (color: Color)
      requires Valid()
      ensures color == Empty <==> forall i | 0 <= i < |players| :: players[i].player != player
      ensures color != Empty ==> exists i :: FirstOf(players, player, i) && color == ColorOf(i + 1)
    {
      var hgp := GetPlayer(player);
      if hgp.Some? {
        return hgp.value.color;
      }
      return Empty;
    }
  }
}
