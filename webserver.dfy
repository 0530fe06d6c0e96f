/** The registry logic of webserver.go: the list of games, the list of
    registered players, removing a disconnected client from its game, and
    the field lists the server sends to its clients. */
module WebServer {
  import opened HalmaBoard
  import opened HalmaMoves
  import opened HalmaGame

  /** A registered Player. Names are unique in the registry, so a player
      value stands for the one *Player the registry holds under that name. */
  datatype Player = Player(name: string, password: string)

  /** FieldInfo: a position and the pin standing on it. */
  datatype FieldInfo = FieldInfo(pos: Position, pin: Color)

  /** A HalmaWebsocketClient: its identity among a game's clients, and the
      game of its HalmaGamePlayer, None where Player is nil. */
  datatype WebClient = WebClient(id: ClientId, game: Option<Game>)

  /** No two players share a name. */
  predicate UniqueNames(ps: seq<Player>) {
    forall i, j | 0 <= i < j < |ps| :: ps[i].name != ps[j].name
  }

  predicate NameTaken(ps: seq<Player>, name: string) {
    exists i :: 0 <= i < |ps| && ps[i].name == name
  }

  /** The first player with this name and password, as a value. */
  function Lookup(ps: seq<Player>, name: string, password: string): Option<Player>
  {
    if |ps| == 0 then None
    else if ps[0].name == name && ps[0].password == password then Some(ps[0])
    else Lookup(ps[1..], name, password)
  }

  /** Lookup finds exactly the registered pairs, and returns the first of them. */
  lemma {:induction false} LookupFirst(ps: seq<Player>, name: string, password: string)
    ensures Lookup(ps, name, password).None? <==> Player(name, password) !in ps
    ensures Lookup(ps, name, password).Some? ==> Lookup(ps, name, password).value == Player(name, password)
    decreases |ps|
  {
    if |ps| > 0 {
      LookupFirst(ps[1..], name, password);
      assert ps == [ps[0]] + ps[1..];
    }
  }

  /** A player registered under a new name can log in with its own
      password, and with no other. */
  lemma RegisterThenLogin(ps: seq<Player>, name: string, password: string, other: string)
    requires !NameTaken(ps, name) && other != password
    ensures Lookup(ps + [Player(name, password)], name, password) == Some(Player(name, password))
    ensures Lookup(ps + [Player(name, password)], name, other).None?
  {
    var qs := ps + [Player(name, password)];
    LookupFirst(qs, name, password);
    LookupFirst(qs, name, other);
    assert qs[|ps|] == Player(name, password);
    forall i | 0 <= i < |qs| ensures qs[i] != Player(name, other) {
      if i < |ps| {
        assert qs[i] == ps[i];
      }
    }
  }

  /** The Clients slice after the element at index i is overwritten with the
      last one and the last slot is cut off. */
  function SwapRemove<T>(s: seq<T>, i: nat): seq<T>
    requires i < |s|
  {
    s[i := s[|s| - 1]][..|s| - 1]
  }

  /** SwapRemove drops the element at i and nothing else: the length falls
      by one, the others keep their place except the last, which takes i's. */
  lemma SwapRemoveFacts<T>(s: seq<T>, i: nat)
    requires i < |s|
    ensures |SwapRemove(s, i)| == |s| - 1
    ensures multiset(SwapRemove(s, i)) + multiset{s[i]} == multiset(s)
    ensures forall j | 0 <= j < |s| - 1 && j != i :: SwapRemove(s, i)[j] == s[j]
    ensures i < |s| - 1 ==> SwapRemove(s, i)[i] == s[|s| - 1]
  {
    var r := SwapRemove(s, i);
    var n := |s| - 1;
    if i == n {
      assert s == r + [s[i]];
    } else {
      assert s == s[..i] + [s[i]] + s[i + 1..n] + [s[n]];
      assert r == s[..i] + [s[n]] + s[i + 1..n];
      calc {
        multiset(r) + multiset{s[i]};
        multiset(s[..i]) + multiset{s[n]} + multiset(s[i + 1..n]) + multiset{s[i]};
        multiset(s[..i]) + multiset{s[i]} + multiset(s[i + 1..n]) + multiset{s[n]};
        multiset(s);
      }
    }
  }

  /** i is the first index holding c. */
  predicate FirstAt(s: seq<ClientId>, c: ClientId, i: int) {
    0 <= i < |s| && s[i] == c && forall j | 0 <= j < i :: s[j] != c
  }

  /** The loop of DestroyClient: the first occurrence of c leaves the game's
      clients by a swap with the last one; without one nothing changes. */
  method RemoveClient(game: Game, c: ClientId)
    modifies game`clients
    ensures c !in old(game.clients) ==> game.clients == old(game.clients)
    ensures c in old(game.clients) ==>
      exists i :: FirstAt(old(game.clients), c, i) && game.clients == SwapRemove(old(game.clients), i)
    ensures c in old(game.clients) ==>
      |game.clients| == |old(game.clients)| - 1 && multiset(game.clients) + multiset{c} == multiset(old(game.clients))
  {
    for i := 0 to |game.clients|
      invariant game.clients == old(game.clients)
      invariant forall j | 0 <= j < i :: game.clients[j] != c
    {
      if game.clients[i] == c {
        assert FirstAt(game.clients, c, i);
        SwapRemoveFacts(game.clients, i);
        var last := |game.clients| - 1;
        game.clients := game.clients[i := game.clients[last]][..last];
        return;
      }
    }
  }

  /** DestroyClient: a nil client, or one whose Player is nil, is ignored;
      otherwise it is removed from its game's clients. */
  method DestroyClient(client: Option<WebClient>)
    modifies if client.Some? && client.value.game.Some? then {client.value.game.value} else {}
    ensures client.Some? && client.value.game.Some? ==>
      var g, c := client.value.game.value, client.value.id;
      (c !in old(g.clients) ==> g.clients == old(g.clients)) &&
      (c in old(g.clients) ==> exists i :: FirstAt(old(g.clients), c, i) && g.clients == SwapRemove(old(g.clients), i)) &&
      g.state == old(g.state) && g.players == old(g.players) && g.currentPlayer == old(g.currentPlayer) &&
      g.notifications == old(g.notifications) && g.board == old(g.board) && unchanged(g.fields)
  {
    if client.Some? && client.value.game.Some? {
      RemoveClient(client.value.game.value, client.value.id);
    }
  }

  /** The row-major number of an array index: Fields[x][y] is cell 17 * x + y. */
  function CellNumber(p: Position): int {
    17 * (p.x + 8) + (p.y + 8)
  }

  /** The snapshot entry of array element [x, y], if it holds a field. */
  function Entry(b: Board, x: int, y: int): seq<FieldInfo> {
    var c := CellAt(b, x, y);
    if c.Some? then [FieldInfo(Position(x - 8, y - 8), c.value.pin)] else []
  }

  /** The entries of row x, columns 0 to y - 1. */
  function Row(b: Board, x: int, y: nat): seq<FieldInfo> {
    if y == 0 then [] else Row(b, x, y - 1) + Entry(b, x, y - 1)
  }

  /** The entries of rows 0 to x - 1, row by row. */
  function Rows(b: Board, x: nat): seq<FieldInfo> {
    if x == 0 then [] else Rows(b, x - 1) + Row(b, x - 1, 17)
  }

  /** The field list of a MsgFieldInfo response for board b. */
  function Snapshot(b: Board): seq<FieldInfo> {
    Rows(b, 17)
  }

  /** The entries of row x up to column y are fields of b in row x with
      their current pins, in increasing column order. */
  lemma {:induction false} RowFacts(b: Board, x: int, y: nat)
    ensures forall e | e in Row(b, x, y) :: e.pos in b && e.pin == b[e.pos].pin && e.pos.x == x - 8 && 0 <= e.pos.y + 8 < y
    ensures forall i, j | 0 <= i < j < |Row(b, x, y)| :: Row(b, x, y)[i].pos.y < Row(b, x, y)[j].pos.y
  {
    if y > 0 {
      RowFacts(b, x, y - 1);
      var s: seq<FieldInfo>, t: seq<FieldInfo> := Row(b, x, y - 1), Entry(b, x, y - 1);
      assert Row(b, x, y) == s + t;
      forall i, j | 0 <= i < j < |s + t|
        ensures (s + t)[i].pos.y < (s + t)[j].pos.y
      {
        if j >= |s| {
          assert (s + t)[j] == t[0];
          assert (s + t)[i] in s;
        }
      }
    }
  }

  /** Every entry of the first x rows is a field of b with its current pin,
      and the entries come in strictly increasing cell order. */
  lemma {:induction false} RowsFacts(b: Board, x: nat)
    ensures forall e | e in Rows(b, x) :: e.pos in b && e.pin == b[e.pos].pin && 0 <= CellNumber(e.pos) < 17 * x
    ensures forall i, j | 0 <= i < j < |Rows(b, x)| :: CellNumber(Rows(b, x)[i].pos) < CellNumber(Rows(b, x)[j].pos)
  {
    if x > 0 {
      RowsFacts(b, x - 1);
      RowFacts(b, x - 1, 17);
      var s: seq<FieldInfo>, t: seq<FieldInfo> := Rows(b, x - 1), Row(b, x - 1, 17);
      assert Rows(b, x) == s + t;
      forall i, j | 0 <= i < j < |s + t|
        ensures CellNumber((s + t)[i].pos) < CellNumber((s + t)[j].pos)
      {
        if i >= |s| {
          assert (s + t)[i] == t[i - |s|] && (s + t)[j] == t[j - |s|];
        } else if j >= |s| {
          assert (s + t)[j] == t[j - |s|];
          assert (s + t)[j] in t;
          assert (s + t)[i] in s;
        }
      }
    }
  }

  /** A field of b in row x at a column below y has its entry in Row(b, x, y). */
  lemma {:induction false} RowComplete(b: Board, x: int, y: nat, p: Position)
    requires p in b && p.x == x - 8 && 0 <= p.y + 8 < y
    ensures FieldInfo(p, b[p].pin) in Row(b, x, y)
  {
    if p.y + 8 == y - 1 {
      assert Position(x - 8, y - 1 - 8) == p;
      assert Entry(b, x, y - 1) == [FieldInfo(p, b[p].pin)];
    } else {
      RowComplete(b, x, y - 1, p);
    }
  }

  /** A field of b in the 17x17 square in a row below x has its entry in Rows(b, x). */
  lemma {:induction false} RowsComplete(b: Board, x: nat, p: Position)
    requires p in b && InRange(p) && p.x + 8 < x
    ensures FieldInfo(p, b[p].pin) in Rows(b, x)
  {
    if p.x + 8 == x - 1 {
      RowComplete(b, x - 1, 17, p);
    } else {
      RowsComplete(b, x - 1, p);
    }
  }

  /** The snapshot lists exactly the existing fields, each with its pin and
      only once, in row-major order of the array. */
  lemma SnapshotExact(b: Board)
    requires WellFormed(b)
    ensures forall e | e in Snapshot(b) :: e.pos in b && e.pin == b[e.pos].pin
    ensures forall p | p in b :: FieldInfo(p, b[p].pin) in Snapshot(b)
    ensures forall i, j | 0 <= i < j < |Snapshot(b)| :: CellNumber(Snapshot(b)[i].pos) < CellNumber(Snapshot(b)[j].pos)
  {
    RowsFacts(b, 17);
    forall p | p in b ensures FieldInfo(p, b[p].pin) in Snapshot(b) {
      RowsComplete(b, 17, p);
    }
  }

  /** The MsgFieldInfo loop: walk the array row by row and list every
      non-nil field with its position (index - 8) and its pin. */
  method FieldSnapshot(g: Game) returns (fs: seq<FieldInfo>)
    requires Represents(g.fields, g.board)
    ensures fs == Snapshot(g.board)
  {
    fs := [];
    for x := 0 to g.fields.Length0
      invariant fs == Rows(g.board, x)
    {
      for y := 0 to g.fields.Length1
        invariant fs == Rows(g.board, x) + Row(g.board, x, y)
      {
        assert g.fields[x, y] == CellAt(g.board, x, y);
        if g.fields[x, y] != None {
          fs := fs + [FieldInfo(Position(x - 8, y - 8), g.fields[x, y].value.pin)];
        }
      }
    }
  }

  /** The fields of a NotifyMove message. A receiver that applies them to a
      board where the colour's piece stands on `from` gets the moved board. */
  function NotifyMoveFields(color: Color, from: Position, to: Position): (r: seq<FieldInfo>)
    ensures forall b: Board | from in b && to in b && from != to && b[from].pin == color ::
      ApplyFields(b, r) == MovedBoard(b, from, to)
  {
    var r := [FieldInfo(from, Empty), FieldInfo(to, color)];
    assert forall b: Board | from in b && to in b && from != to && b[from].pin == color ::
      ApplyFields(b, r) == MovedBoard(b, from, to)
    by {
      forall b: Board | from in b && to in b && from != to && b[from].pin == color
        ensures ApplyFields(b, r) == MovedBoard(b, from, to)
      {
        ReplayTwo(b, color, from, to);
      }
    }
    r
  }

  /** Setting `from` to Empty and then `to` to the colour is the move. */
  lemma ReplayTwo(b: Board, color: Color, from: Position, to: Position)
    requires from in b && to in b && from != to && b[from].pin == color
    ensures ApplyFields(b, [FieldInfo(from, Empty), FieldInfo(to, color)]) == MovedBoard(b, from, to)
  {
    var fs := [FieldInfo(from, Empty), FieldInfo(to, color)];
    var b1 := b[from := Field(b[from].kind, Empty)];
    var b2 := b1[to := Field(b[to].kind, color)];
    assert ApplyFields(b, fs) == ApplyFields(b1, fs[1..]);
    assert fs[1..][1..] == [];
    assert ApplyFields(b1, fs[1..]) == b2;
    var m := MovedBoard(b, from, to);
    assert b2.Keys == m.Keys;
    forall p | p in b2 ensures b2[p] == m[p] {
    }
  }

  /** A receiver setting each listed pin in turn; entries for missing fields are skipped. */
  function ApplyFields(b: Board, fs: seq<FieldInfo>): Board
    decreases |fs|
  {
    if |fs| == 0 then b
    else
      var e := fs[0];
      var b1 := if e.pos in b then b[e.pos := Field(b[e.pos].kind, e.pin)] else b;
      ApplyFields(b1, fs[1..])
  }

  /** Applying the NotifyMove fields of a move Move accepted reproduces the
      move: the message tells each client the new board. */
  lemma NotifyMoveReplays(b: Board, current: Color, color: Color, from: Position, to: Position)
    requires Accepts(b, current, color, from, to)
    ensures ApplyFields(b, NotifyMoveFields(color, from, to)) == MovedBoard(b, from, to)
  {
    DestinationsFacts(b, from);
  }

  /** The server's global lists of games and registered players. */
  class Server {
    var gameList: seq<Game>
    var playerList: seq<Player>

    /** Every game's ID is its index in gameList; player names are unique. */
    ghost predicate Valid()
      reads this
    {
      (forall i | 0 <= i < |gameList| :: gameList[i].id == i) && UniqueNames(playerList)
    }

    constructor ()
      ensures Valid() && gameList == [] && playerList == []
    {
      gameList := [];
      playerList := [];
    }

    /** NewHalmaGame: a new game, numbered by the length of gameList, appended to it. */
    method NewHalmaGame() returns (g: Game)
      requires Valid()
      modifies this`gameList
      ensures Valid()
      ensures fresh(g) && fresh(g.fields) && g.Valid()
      ensures gameList == old(gameList) + [g] && g.id == old(|gameList|)
      ensures g.state == New && g.currentPlayer == Empty && g.board == map[]
      ensures g.players == [] && g.clients == [] && g.notifications == []
    {
      g := new Game(|gameList|);
      gameList := gameList + [g];
    }

    /** RegisterPlayer: nil if the name is taken, else the new player, appended. */
    method RegisterPlayer(name: string, password: string) returns (p: Option<Player>)
      requires Valid()
      modifies this`playerList
      ensures Valid()
      ensures p.None? <==> NameTaken(old(playerList), name)
      ensures p.None? ==> playerList == old(playerList)
      ensures p.Some? ==> p.value == Player(name, password) && playerList == old(playerList) + [p.value]
    {
      for i := 0 to |playerList|
        invariant forall j | 0 <= j < i :: playerList[j].name != name
      {
        if playerList[i].name == name {
          return None;
        }
      }
      p := Some(Player(name, password));
      playerList := playerList + [p.value];
    }

    /** LoginPlayer: the first player with that name and password, else nil. */
    method LoginPlayer(name: string, password: string) returns (p: Option<Player>)
      ensures p == Lookup(playerList, name, password)
    {
      for i := 0 to |playerList|
        invariant Lookup(playerList, name, password) == Lookup(playerList[i..], name, password)
      {
        if playerList[i].name == name && playerList[i].password == password {
          return Some(playerList[i]);
        }
        assert playerList[i..][1..] == playerList[i + 1..];
      }
      return None;
    }
  }
}
