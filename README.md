# Stern-Halma in Dafny

This project models the rules core of stern-halma, a three-player Chinese
checkers (Stern-Halma) server with a browser client. The model covers:

- the Go engine (`halma.go`): the star-shaped board in a 17x17 array of
  fields in cube coordinates; `Start`, which lays out the board and the
  pieces for one to three players; the search for a piece's destinations
  (steps onto an empty neighbour, and chains of jumps over an occupied
  neighbour); `Move` with its turn rotation and win check; joining a game;
- the browser client's copy of the rules (`halma.js`): its own board
  set-up, its own breadth-first destination search, and the board update
  on a MOVE message;
- the registry logic of the Go web server (`webserver.go`): the game list,
  player registration and login, removing a disconnected client from its
  game, the field snapshot the server sends, and the contents of a move
  notification.

Modules:

- `HalmaBoard` (`halma_board.dfy`): colours, positions and fields. A board is
  a value `map<Position, Field>`, and `Represents` ties a 17x17 array to the
  board it stores. The start layout (`GeneralCell`, `CornerField`,
  `InitialBoard`) and its shape lemmas live here too.
- `HalmaMoves` (`halma_moves.dfy`): the move rules as values. `Destinations`
  is the set of steps plus the fields reachable by one or more jumps. It
  also holds the lemmas that carry the search proofs.
- `HalmaGame` (`halma_game.dfy`): class `Game` with the fields of HalmaGame
  and a ghost `board`. Its methods are the engine's. Replay functions
  (`Lay`, `LayRow`, `LayRows`, `WithCorners`) specify `Start`'s loops.
- `HalmaClient` (`halma_client.dfy`): `GenerateFields`, and class `Client`
  with the page's `fields`, `visited` and `possible` state.
- `WebServer` (`webserver.dfy`): class `Server` with `gameList` and
  `playerList`, `DestroyClient`, `FieldSnapshot` and `NotifyMoveFields`.

Things outside the program are modelled as follows:

- `rand.Intn(len(g.Players))` in `Start` becomes the parameter `pick`, with
  `pick < |players|`. `rand.Intn` panics on 0, and `Start` is only called
  after a join.
- The calls `Move` makes on its clients (`NotifyMove`, `NotifyTurn`) are
  recorded in order in the `notifications` log.
- Pointers to players and clients are abstract identities (`PlayerId`,
  `ClientId`).
- A registered `Player` is a value. Its name is unique in the registry, so
  it stands for the one `*Player` stored under that name.
- A nil field is `None`. JavaScript's `undefined` entries are modelled the
  same way.

Where the code and the design disagree, the model follows the code:

- State `Done` is never entered. `Move` clears `CurrentPlayer` on a win but
  never sets `Done`. `Game.Valid` records `state != Done`.
- `Start` gives the Green and Blue triangles their home colour (Type)
  whatever the number of players. Only their pins depend on it
  (`StartKindIndependent`, `StartPins`).
- `Move` does not reject the color `Empty` itself. After a win
  `CurrentPlayer` is `Empty`, so `Move(Empty, …)` on a field holding no
  piece is accepted whenever the search finds a destination. The turn then
  passes to Red unless every neutral field is vacant (`AfterMove`,
  `NextTurn`).
- The two searches use different work lists. The engine takes the newest
  entry from the end of its slice (a stack); the client takes `todo.shift()`
  (a queue). Both are proved to produce, without duplicates, exactly
  `Destinations` of the board they search.
- The client empties the origin's pin before it searches (halma.js:220-222).
  The engine searches with the piece still standing there. The two give the
  same destinations (`EmptiedStartSameDestinations`). A jump chain's fields
  lie at even offsets from the origin, so no jump passes over the origin,
  and a chain that comes back to the origin can be cut there.
- A MOVE message naming a field that does not exist makes the JavaScript
  handler throw a TypeError before it writes anything. `Client.OnMove`
  returns `ok == false` and changes nothing in that case.

## Model

`GeneralCell` (halma.go:187-209) and `ClientCell` (halma.js:325-347) are the
field rules of the two set-up loops. They are specification functions
without a contract of their own. What they promise is stated by the lemmas
about them: `GeneralCellInRange`, `GeneralRuleSkipsCorners`, `StartShape`,
`StartKindIndependent` and `StartPins` for the engine's rule, and
`ClientCellMatchesEngine` for the client's.

| member | source | states |
|---|---|---|
| HalmaBoard.Ordinal | halma.go:24-31 | HalmaColor values are 0..3, and only Empty is 0 |
| HalmaBoard.ColorOf | halma.go:152 | the conversion HalmaColor(k) is inverse to the ordinal on 0..3 |
| HalmaBoard.Abs | halma.go:76-81 | abs returns x or -x, never negative |
| HalmaBoard.GeneralCellInRange | halma.go:181-182 | the double loop of Start only creates fields with an array index |
| HalmaBoard.GeneralRuleSkipsCorners | halma.go:187-209 | the general rule creates a field exactly on the star minus the six corners |
| HalmaBoard.StartShape | halma.go:181-218 | whatever the number of players, Start creates a field exactly on the star |
| HalmaBoard.StartKindIndependent | halma.go:181-218 | the home colour of every field does not depend on the number of players |
| HalmaBoard.StartPins | halma.go:170-179 | Green pieces only with more than one player, Blue only with more than two, and then their points are filled |
| HalmaBoard.InitialBoard | halma.go:181-218 | the start board has a field exactly on the star, each as the general rule or the corner list gives it |
| HalmaBoard.InitialBoardIsStar | halma.go:181-218 | the start board has the star layout with every field's home colour |
| HalmaMoves.StepListIsSteps | halma.go:126-128 | the first round appends each empty neighbour once, in direction order, and nothing else |
| HalmaMoves.JumpListLandings | halma.go:123-125 | each round queues the landing of every possible jump, and each landing is still a search candidate |
| HalmaMoves.DestinationsFacts | halma.go:95-135 | the origin is never a destination, and every destination is an empty field |
| HalmaMoves.IsolatedPieceOnlySteps | halma.go:120-129 | a piece with no occupied neighbour can only step |
| HalmaMoves.JumpsContinue | halma.go:120-125 | a jump from the origin or from a jump destination leads to another destination unless it returns to the origin |
| HalmaMoves.SearchComplete | halma.go:109-132 | when the work list is empty, the visited fields other than the origin are exactly those reachable by jumps |
| HalmaMoves.ChainParity | halma.go:120-125 | every field of a jump chain is an even offset away from where the chain starts |
| HalmaMoves.CutAtStart | halma.go:120-125 | a jump chain to another field can be shortened so that it never returns to its start |
| HalmaMoves.ReachableOffStart | halma.go:120-125 | a field other than the origin is reachable on a board if it is reachable on one that differs only at the origin |
| HalmaMoves.EmptiedStartSameDestinations | halma.js:220-222 | lifting the piece off its field before the search leaves its set of destinations unchanged |
| HalmaGame.NextTurn | halma.go:239-242 | the turn passes to the next colour and wraps back to Red after the last player |
| HalmaGame.TurnRotation | halma.go:239-242 | k moves without a win advance the turn by k, cyclically over the players |
| HalmaGame.TurnCycle | halma.go:239-242 | after as many moves as there are players the turn is back where it started |
| HalmaGame.BroadcastOrder | halma.go:245-248 | every client gets NotifyMove and then NotifyTurn, in the order of Clients |
| HalmaGame.MoveTouchesTwoFields | halma.go:233-234 | a move gives `to` the pin of `from`, empties `from` and leaves every other field alone |
| HalmaGame.PinsOfMoved | halma.go:233-234 | which fields hold a colour after a move, in terms of the fields before it |
| HalmaGame.MovePreservesPieces | halma.go:233-234 | moving onto an empty field keeps the number of pieces of every colour |
| HalmaGame.AcceptedMovePreservesPieces | halma.go:225-234 | an accepted move goes to another, empty field and so keeps every colour's piece count |
| HalmaGame.StartIsNotWon | halma.go:137-149 | no colour has won on the start board |
| HalmaGame.MovedStarBoard | halma.go:233-234 | a move keeps the star layout and the home colours |
| HalmaGame.LayRowsFacts | halma.go:181-211 | the rows laid so far hold exactly the fields the rule gives for them |
| HalmaGame.StartBoard | halma.go:181-218 | the double loop followed by the six corner fields gives the start board |
| HalmaGame.Game.constructor | webserver.go:104 | a new game: state New, no fields, no turn, no players, no clients |
| HalmaGame.Game.GetField | halma.go:91-93 | the array entry at pos + 8 is the field at pos, or nil where there is none |
| HalmaGame.Game.FieldValid | halma.go:87-89 | fieldValid is true exactly at the existing fields |
| HalmaGame.Game.CreateField | halma.go:83-85 | createField puts a field with the given Type and Pin at pos and changes nothing else |
| HalmaGame.Game.Start | halma.go:169-222 | Start lays out the start board for the players present, sets Running and gives the turn to a player |
| HalmaGame.Game.LayOut | halma.go:181-211 | the double loop creates the fields of the general rule, row by row |
| HalmaGame.Game.CreateCorners | halma.go:213-218 | the six corner fields are created with their Type and pin |
| HalmaGame.Game.CalculatePossible | halma.go:95-135 | the result lists every destination of a piece at `position` exactly once, never the origin, and only empty fields |
| HalmaGame.Game.JumpOpen | halma.go:123 | the jump test is true exactly when the neighbour is occupied and the field behind it empty |
| HalmaGame.Game.StepOpen | halma.go:126 | the step test is true exactly when the neighbour is an empty field |
| HalmaGame.Game.CheckWinner | halma.go:137-149 | checkWinner is true exactly when every field of the colour's home holds one of its pieces |
| HalmaGame.Game.Move | halma.go:224-251 | an accepted move updates the board, passes or clears the turn and notifies the clients; any other call changes nothing |
| HalmaGame.Game.GetFreeColor | halma.go:151-157 | the next colour is the player count plus one, or Empty once three have joined |
| HalmaGame.Game.Join | halma.go:253-264 | a fourth player is refused; otherwise the player is appended with the next colour |
| HalmaGame.Game.GetPlayer | halma.go:266-274 | the first entry of the player, nil exactly when the player has not joined |
| HalmaGame.Game.GetPlayerColor | halma.go:159-167 | the colour of the first entry of the player, Empty exactly when the player has not joined |
| HalmaClient.DataToGrid | halma.js:81-83 | exactly the array indices 0..16 are converted to positions inside the square |
| HalmaClient.GridToData | halma.js:85-87 | exactly the positions inside the square are converted to array indices 0..16 |
| HalmaClient.GridDataRoundTrip | halma.js:81-87 | dataToGrid and gridToData are inverse, and gridToData maps the 17x17 square onto the indices 0..16 |
| HalmaClient.ClientCellMatchesEngine | halma.js:319-349 | the client's rule, with its real-valued halving, creates the engine's fields with their home colours and no pins |
| HalmaClient.ClientBoardAgreesWithEngine | halma.js:314-359 | the client's board has the fields and home colours of the engine's start board, for any player count, and no pins |
| HalmaClient.ClientBoardLayout | halma.js:314-359 | the double loop followed by the six corner fields gives the client's board |
| HalmaClient.CreateField | halma.js:265-267 | createField puts a field with the given type and pin at (x, y) and changes nothing else |
| HalmaClient.GenerateFields | halma.js:314-359 | generateFields returns a fresh array storing the client's board |
| HalmaClient.Client.constructor | halma.js:361-367 | the page starts with the generated board and no highlighted destinations |
| HalmaClient.Client.GetField | halma.js:257-259 | the array entry at pos + 8 is the field at pos, or undefined where there is none |
| HalmaClient.Client.FieldValid | halma.js:269-271 | fieldValid is true exactly at the existing fields |
| HalmaClient.Client.JumpOpen | halma.js:302 | the jump test is true exactly when the neighbour is occupied and the field behind it empty |
| HalmaClient.Client.StepOpen | halma.js:305 | the step test is true exactly when the neighbour is an empty field |
| HalmaClient.Client.CalculatePossible | halma.js:273-312 | the search appends to `possible` every destination exactly once, never the origin, only empty fields, and leaves `visited` marking the origin and the jump destinations |
| HalmaClient.Client.OnMove | halma.js:456-458 | the MOVE message moves the pin as the engine's move does, and changes nothing if a field is missing |
| WebServer.LookupFirst | webserver.go:122-130 | the lookup finds a player exactly when that name and password are registered |
| WebServer.RegisterThenLogin | webserver.go:110-130 | a newly registered player can log in with the password, and no other password logs in |
| WebServer.SwapRemoveFacts | webserver.go:137 | the swap with the last element drops exactly the element at i: one shorter, same multiset otherwise, others in place except the last |
| WebServer.RemoveClient | webserver.go:135-140 | the first occurrence of the client leaves the list by a swap with the last; without one nothing changes |
| WebServer.DestroyClient | webserver.go:132-142 | a nil client or one without a player is ignored; otherwise it leaves its game's clients and nothing else changes |
| WebServer.RowFacts | webserver.go:173-177 | the entries of a row are existing fields of that row with their current pins, in increasing column order |
| WebServer.RowsFacts | webserver.go:172-178 | the entries of the first rows are existing fields with their current pins, in strictly increasing cell order |
| WebServer.RowComplete | webserver.go:173-177 | every existing field of a row has its entry in that row's part of the list |
| WebServer.RowsComplete | webserver.go:172-178 | every existing field of the first rows has its entry among them |
| WebServer.SnapshotExact | webserver.go:172-178 | the snapshot lists every existing field once with its pin and nothing else, in row-major order |
| WebServer.FieldSnapshot | webserver.go:172-178 | the loop over the array builds exactly the snapshot of the game's board |
| WebServer.NotifyMoveFields | webserver.go:84-91 | the two entries of the message, applied to any board where the colour's piece stands on `from`, give the board after the move |
| WebServer.ReplayTwo | webserver.go:84-91 | emptying `from` and then putting the colour on another field `to` is the move from `from` to `to` |
| WebServer.NotifyMoveReplays | webserver.go:84-91 | applying the two NotifyMove entries, (from, Empty) then (to, color), reproduces an accepted move |
| WebServer.Server.constructor | webserver.go:280-285 | the server starts with no games and no players |
| WebServer.Server.NewHalmaGame | webserver.go:103-108 | a new game is numbered by the old length of gameList and appended, so IDs stay equal to indices |
| WebServer.Server.RegisterPlayer | webserver.go:110-120 | a taken name is refused and nothing changes; otherwise the player is appended, and names stay unique |
| WebServer.Server.LoginPlayer | webserver.go:122-130 | the first player with that name and password, nil if there is none, changing nothing |

## Left out

- I/O: the websocket `process` loop, JSON encoding, the HTTP handlers and
  `main` (webserver.go:144-294). The model only records what is sent: the
  notifications log, `FieldSnapshot` and `NotifyMoveFields`.
- The nil dereference at webserver.go:268, when `Join` fails and the result
  is used anyway, is part of the `process` loop and is not modelled.
- `FieldSnapshot` assumes the connection has a game. In the `process` loop
  `game` may still be nil there.
- Concurrency: the server handles connections in parallel without locks.
  Every operation here is modelled as atomic.
- `rand.Intn` is the parameter `pick` of `Game.Start`.
- The client's drawing, mouse handling and messages other than MOVE
  (halma.js). This includes `gridToPixel`/`pixelToGrid`, which use floating
  point. The emptying of the origin before a search (halma.js:220-222) is
  stated on the board value (`EmptiedStartSameDestinations`), not as a step
  of a mouse handler.
- The number of fields of the start board (121) is not stated; the model
  states the shape instead (`StartShape`).
- Slice aliasing: DestroyClient's truncated slice shares its backing array
  with the old one. Nothing else holds the old slice, so the model uses a
  value sequence.
- Helper methods: `LayBoard`, `LayOut`, `LayOutRow`,
  `CreateStarCell`, `CreateCorners`, `Play`, `MovePiece`, `SetPin`,
  `NotifyAll`, `MoveOnBoard`, `PassTurn`, `VisitNeighbours`, `Visit`,
  `Mark`, `GenerateLayout`, `GenerateRow`, `GenerateCell`,
  `GenerateCorners` and `RemoveClient` are parts of one source function each.
  They carry no behaviour of their own.
- `visited` is an implicit global of the page that the first search
  creates. The model allocates it in the `Client` constructor, and every
  search replaces it with a fresh array.
- Client.CalculatePossible: the destinations it appends are returned as a
  ghost value. The source appends to the global `possible` and returns
  nothing.
