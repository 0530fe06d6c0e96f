/** The move rules shared by the engine (halma.go) and the browser client
    (halma.js): single steps onto an empty neighbour, and chains of jumps
    over an occupied neighbour onto the empty field behind it. */
module HalmaMoves {
  import opened HalmaBoard

  /** The six neighbour directions, in the order calculatePossible tries them. */
  const Directions: seq<Position> := [
    Position(1, 0), Position(1, -1), Position(0, -1),
    Position(-1, 0), Position(-1, 1), Position(0, 1)
  ]

  /** The neighbour of p in direction k (nb1 in the source). */
  function Neighbour(p: Position, k: int): Position
    requires 0 <= k < 6
  {
    Position(p.x + Directions[k].x, p.y + Directions[k].y)
  }

  /** The cell two steps from p in direction k (nb2 in the source). */
  function Beyond(p: Position, k: int): Position
    requires 0 <= k < 6
  {
    Position(p.x + 2 * Directions[k].x, p.y + 2 * Directions[k].y)
  }

  predicate IsEmptyField(b: Board, p: Position) {
    p in b && b[p].pin == Empty
  }

  predicate IsOccupiedField(b: Board, p: Position) {
    p in b && b[p].pin != Empty
  }

  /** A piece at p may jump in direction k: over an occupied field onto an empty one. */
  predicate CanJump(b: Board, p: Position, k: int)
    requires 0 <= k < 6
  {
    IsOccupiedField(b, Neighbour(p, k)) && IsEmptyField(b, Beyond(p, k))
  }

  ghost predicate JumpStep(b: Board, p: Position, q: Position) {
    exists k | 0 <= k < 6 :: CanJump(b, p, k) && q == Beyond(p, k)
  }

  /** Consecutive positions of the path are linked by jumps. */
  ghost predicate JumpChain(b: Board, path: seq<Position>) {
    forall i | 0 <= i < |path| - 1 :: JumpStep(b, path[i], path[i + 1])
  }

  /** q is reached from p by one or more jumps. */
  ghost predicate Reachable(b: Board, p: Position, q: Position) {
    exists path :: |path| >= 2 && path[0] == p && path[|path| - 1] == q && JumpChain(b, path)
  }

  /** The valid empty neighbours of p, in direction order k < i, as the first
      pass of calculatePossible appends them. */
  function StepList(b: Board, p: Position, i: int): seq<Position>
    requires 0 <= i <= 6
  {
    if i == 0 then []
    else StepList(b, p, i - 1) + (if IsEmptyField(b, Neighbour(p, i - 1)) then [Neighbour(p, i - 1)] else [])
  }

  /** The landings of the jumps from p in direction order k < i, as each
      round of calculatePossible pushes them onto its work list. */
  function JumpList(b: Board, p: Position, i: int): seq<Position>
    requires 0 <= i <= 6
  {
    if i == 0 then []
    else JumpList(b, p, i - 1) + (if CanJump(b, p, i - 1) then [Beyond(p, i - 1)] else [])
  }

  ghost function Steps(b: Board, p: Position): set<Position> {
    set k | 0 <= k < 6 && IsEmptyField(b, Neighbour(p, k)) :: Neighbour(p, k)
  }

  ghost function Jumps(b: Board, p: Position): set<Position> {
    set q | q in b.Keys && q != p && Reachable(b, p, q)
  }

  /** The destinations of a piece at p: what calculatePossible promises. */
  ghost function Destinations(b: Board, p: Position): set<Position> {
    Steps(b, p) + Jumps(b, p)
  }

  predicate NoDuplicates<T(==)>(s: seq<T>) {
    forall i, j | 0 <= i < j < |s| :: s[i] != s[j]
  }

  lemma AppendAssoc<T>(a: seq<T>, b: seq<T>, c: seq<T>)
    ensures a + b + c == a + (b + c)
  {
  }

  lemma AppendFresh<T>(s: seq<T>, x: T)
    requires NoDuplicates(s) && x !in s
    ensures NoDuplicates(s + [x])
  {
    var t := s + [x];
    forall i, j | 0 <= i < j < |t| ensures t[i] != t[j] {
      assert t[i] == s[i];
      if j < |s| {
        assert t[j] == s[j];
      }
    }
  }

  /** q differs from p by even amounts in both coordinates. */
  predicate EvenOffset(p: Position, q: Position) {
    (q.x - p.x) % 2 == 0 && (q.y - p.y) % 2 == 0
  }

  /** Jumps keep the parity of the offset from the origin; single steps break it. */
  lemma DirectionParity(p: Position, q: Position, k: int)
    requires 0 <= k < 6
    requires EvenOffset(p, q)
    ensures EvenOffset(p, Beyond(q, k))
    ensures !EvenOffset(p, Neighbour(q, k))
  {
    if k == 0 {} else if k == 1 {} else if k == 2 {} else if k == 3 {} else if k == 4 {} else {}
  }

  lemma DirectionsDistinct(j: int, k: int)
    requires 0 <= j < k < 6
    ensures Directions[j] != Directions[k]
  {
  }

  lemma {:induction false} StepListFacts(b: Board, p: Position, i: int)
    requires 0 <= i <= 6
    ensures NoDuplicates(StepList(b, p, i))
    ensures forall q :: q in StepList(b, p, i) <==>
      exists k | 0 <= k < i :: IsEmptyField(b, Neighbour(p, k)) && q == Neighbour(p, k)
    ensures forall q | q in StepList(b, p, i) :: !EvenOffset(p, q)
  {
    if i > 0 {
      StepListFacts(b, p, i - 1);
      var s := StepList(b, p, i - 1);
      var nb := Neighbour(p, i - 1);
      DirectionParity(p, p, i - 1);
      forall k | 0 <= k < i - 1 ensures Neighbour(p, k) != nb {
        DirectionsDistinct(k, i - 1);
      }
      assert StepList(b, p, i) == s + (if IsEmptyField(b, nb) then [nb] else []);
      if IsEmptyField(b, nb) {
        var t := s + [nb];
        forall a, c | 0 <= a < c < |t| ensures t[a] != t[c] {
          assert t[a] == s[a] && t[a] in s;
          if c < |s| {
            assert t[c] == s[c];
          }
        }
      }
    }
  }

  /** The list the first pass appends is the set of single steps, without repeats. */
  lemma StepListIsSteps(b: Board, p: Position)
    ensures NoDuplicates(StepList(b, p, 6))
    ensures forall q :: q in StepList(b, p, 6) <==> q in Steps(b, p)
    ensures forall q | q in StepList(b, p, 6) :: !EvenOffset(p, q)
  {
    StepListFacts(b, p, 6);
  }

  /** The positions a search from `origin` may hold: itself or jump landings. */
  ghost predicate Candidate(b: Board, origin: Position, q: Position) {
    InRange(q) && EvenOffset(origin, q) && (q == origin || Reachable(b, origin, q))
  }

  /** Jumping from a candidate lands on a candidate. */
  lemma CandidateJump(b: Board, origin: Position, q: Position, k: int)
    requires WellFormed(b)
    requires 0 <= k < 6 && Candidate(b, origin, q) && CanJump(b, q, k)
    ensures Candidate(b, origin, Beyond(q, k))
  {
    var r := Beyond(q, k);
    DirectionParity(origin, q, k);
    assert JumpStep(b, q, r);
    if q == origin {
      var path := [origin, r];
      assert JumpChain(b, path);
    } else {
      var path :| |path| >= 2 && path[0] == origin && path[|path| - 1] == q && JumpChain(b, path);
      var path' := path + [r];
      forall i | 0 <= i < |path'| - 1 ensures JumpStep(b, path'[i], path'[i + 1]) {
        if i < |path| - 1 {
          assert path'[i] == path[i] && path'[i + 1] == path[i + 1];
        }
      }
      assert JumpChain(b, path');
    }
  }

  lemma {:induction false} JumpListFacts(b: Board, p: Position, i: int)
    requires 0 <= i <= 6
    ensures forall q :: q in JumpList(b, p, i) <==> exists k | 0 <= k < i :: CanJump(b, p, k) && q == Beyond(p, k)
  {
    if i > 0 {
      JumpListFacts(b, p, i - 1);
    }
  }

  /** The pushes of one round are exactly the landings of the jumps from
      the visited position, and are candidates when it is one. */
  lemma JumpListLandings(b: Board, origin: Position, p: Position)
    requires WellFormed(b) && Candidate(b, origin, p)
    ensures forall q | q in JumpList(b, p, 6) :: Candidate(b, origin, q)
    ensures forall k | 0 <= k < 6 && CanJump(b, p, k) :: Beyond(p, k) in JumpList(b, p, 6)
  {
    JumpListFacts(b, p, 6);
    forall q | q in JumpList(b, p, 6) ensures Candidate(b, origin, q) {
      var k :| 0 <= k < 6 && CanJump(b, p, k) && q == Beyond(p, k);
      CandidateJump(b, origin, p, k);
    }
  }

  /** Every jump from a position of S lands in S. */
  ghost predicate ClosedUnderJumps(b: Board, s: set<Position>) {
    forall q, k | q in s && 0 <= k < 6 && CanJump(b, q, k) :: Beyond(q, k) in s
  }

  /** A set that holds the origin and is closed under jumps holds everything
      the origin reaches. */
  lemma ClosedHoldsReachable(b: Board, s: set<Position>, p: Position, q: Position)
    requires p in s && ClosedUnderJumps(b, s) && Reachable(b, p, q)
    ensures q in s
  {
    var path :| |path| >= 2 && path[0] == p && path[|path| - 1] == q && JumpChain(b, path);
    for i := 1 to |path|
      invariant path[i - 1] in s
    {
      assert JumpStep(b, path[i - 1], path[i]);
      var k :| 0 <= k < 6 && CanJump(b, path[i - 1], k) && path[i] == Beyond(path[i - 1], k);
    }
  }

  lemma ReachableEndsEmpty(b: Board, p: Position, q: Position)
    requires Reachable(b, p, q)
    ensures IsEmptyField(b, q)
  {
    var path :| |path| >= 2 && path[0] == p && path[|path| - 1] == q && JumpChain(b, path);
    assert JumpStep(b, path[|path| - 2], path[|path| - 1]);
  }

  /** The destinations never include the origin and are all empty fields. */
  lemma DestinationsFacts(b: Board, p: Position)
    ensures p !in Destinations(b, p)
    ensures forall q | q in Destinations(b, p) :: IsEmptyField(b, q)
  {
    forall k | 0 <= k < 6 ensures Neighbour(p, k) != p {
      DirectionParity(p, p, k);
    }
    forall q | q in Jumps(b, p) ensures IsEmptyField(b, q) {
      ReachableEndsEmpty(b, p, q);
    }
  }

  /** A piece with no occupied neighbour can only step. */
  lemma IsolatedPieceOnlySteps(b: Board, p: Position)
    requires forall k | 0 <= k < 6 :: !IsOccupiedField(b, Neighbour(p, k))
    ensures Destinations(b, p) == Steps(b, p)
  {
    forall q | q in Jumps(b, p) ensures exists k | 0 <= k < 6 :: CanJump(b, p, k) {
      var path :| |path| >= 2 && path[0] == p && path[|path| - 1] == q && JumpChain(b, path);
      assert JumpStep(b, path[0], path[1]);
    }
  }

  /** A jump from the origin, or from any jump landing, lands on a
      destination unless it returns to the origin. */
  lemma JumpsContinue(b: Board, p: Position, q: Position, k: int)
    requires 0 <= k < 6
    requires q == p || q in Jumps(b, p)
    requires CanJump(b, q, k) && Beyond(q, k) != p
    ensures Beyond(q, k) in Destinations(b, p)
  {
    var r := Beyond(q, k);
    assert JumpStep(b, q, r);
    if q == p {
      assert JumpChain(b, [p, r]);
    } else {
      var path :| |path| >= 2 && path[0] == p && path[|path| - 1] == q && JumpChain(b, path);
      var path' := path + [r];
      forall i | 0 <= i < |path'| - 1 ensures JumpStep(b, path'[i], path'[i + 1]) {
        if i < |path| - 1 {
          assert path'[i] == path[i] && path'[i + 1] == path[i + 1];
        }
      }
      assert JumpChain(b, path');
    }
  }

  /** The invariant of the searches in calculatePossible, stack or queue:
      everything seen or still to do is a candidate, and every jump from a
      seen position lands on a seen position or one still to do. */
  ghost predicate SearchInvariant(b: Board, origin: Position, seen: set<Position>, todo: seq<Position>) {
    (forall q | q in todo :: Candidate(b, origin, q)) &&
    (forall q | q in seen :: Candidate(b, origin, q)) &&
    (forall q, k | q in seen && 0 <= k < 6 && CanJump(b, q, k) :: Beyond(q, k) in seen || Beyond(q, k) in todo)
  }

  /** Taking a position that was seen already off the work list keeps the invariant. */
  lemma SearchSkip(b: Board, origin: Position, seen: set<Position>, before: seq<Position>, pos: Position, after: seq<Position>)
    requires SearchInvariant(b, origin, seen, before) && pos in seen
    requires forall q | q in before && q != pos :: q in after
    requires forall q | q in after :: q in before
    ensures SearchInvariant(b, origin, seen, after)
  {
  }

  /** Visiting a position taken off the work list, and adding every landing
      of a jump from it, keeps the invariant. */
  lemma SearchVisit(b: Board, origin: Position, seen: set<Position>, before: seq<Position>, pos: Position, after: seq<Position>)
    requires SearchInvariant(b, origin, seen, before) && pos in before
    requires forall q | q in before && q != pos :: q in after
    requires forall q | q in after :: q in before || Candidate(b, origin, q)
    requires forall k | 0 <= k < 6 && CanJump(b, pos, k) :: Beyond(pos, k) in after
    ensures SearchInvariant(b, origin, seen + {pos}, after)
  {
  }

  /** When nothing is left to do, the seen positions other than the origin
      are exactly the jump destinations. */
  lemma SearchComplete(b: Board, origin: Position, seen: set<Position>)
    requires WellFormed(b)
    requires origin in seen && SearchInvariant(b, origin, seen, [])
    ensures forall q :: q in seen && q != origin <==> q in Jumps(b, origin)
  {
    assert ClosedUnderJumps(b, seen);
    forall q | q in Jumps(b, origin) ensures q in seen {
      ClosedHoldsReachable(b, seen, origin, q);
    }
    forall q | q in seen && q != origin ensures q in Jumps(b, origin) {
      ReachableEndsEmpty(b, origin, q);
    }
  }

  /** Every field a jump chain visits is an even offset away from its start. */
  lemma {:induction false} ChainParity(b: Board, path: seq<Position>, i: int)
    requires JumpChain(b, path) && 0 <= i < |path|
    ensures EvenOffset(path[0], path[i])
    decreases i
  {
    if i > 0 {
      ChainParity(b, path, i - 1);
      assert JumpStep(b, path[i - 1], path[i]);
      var k :| 0 <= k < 6 && CanJump(b, path[i - 1], k) && path[i] == Beyond(path[i - 1], k);
      DirectionParity(path[0], path[i - 1], k);
    }
  }

  /** A chain of jumps can be cut at its last visit to its start. */
  lemma {:induction false} CutAtStart(b: Board, path: seq<Position>) returns (cut: seq<Position>)
    requires |path| >= 2 && JumpChain(b, path) && path[|path| - 1] != path[0]
    ensures |cut| >= 2 && cut[0] == path[0] && cut[|cut| - 1] == path[|path| - 1] && JumpChain(b, cut)
    ensures forall i | 1 <= i < |cut| :: cut[i] != cut[0]
    decreases |path|
  {
    if i :| 1 <= i < |path| && path[i] == path[0] {
      var rest := path[i..];
      forall m | 0 <= m < |rest| - 1 ensures JumpStep(b, rest[m], rest[m + 1]) {
        assert rest[m] == path[i + m] && rest[m + 1] == path[i + m + 1];
      }
      cut := CutAtStart(b, rest);
    } else {
      cut := path;
    }
  }

  /** A chain that never returns to its start makes the same jumps on a board
      that differs from b only at the start. */
  lemma ChainTransfer(b: Board, c: Board, path: seq<Position>)
    requires |path| >= 1 && JumpChain(b, path)
    requires b.Keys == c.Keys && forall r | r in b && r != path[0] :: b[r] == c[r]
    requires forall i | 1 <= i < |path| :: path[i] != path[0]
    ensures JumpChain(c, path)
  {
    forall i | 0 <= i < |path| - 1 ensures JumpStep(c, path[i], path[i + 1]) {
      assert JumpStep(b, path[i], path[i + 1]);
      var k :| 0 <= k < 6 && CanJump(b, path[i], k) && path[i + 1] == Beyond(path[i], k);
      ChainParity(b, path, i);
      DirectionParity(path[0], path[i], k);
      assert CanJump(c, path[i], k);
    }
  }

  /** q is reached from p on c if it is on b and the boards differ only at
      p; swapping b and c gives the converse. */
  lemma ReachableOffStart(b: Board, c: Board, p: Position, q: Position)
    requires b.Keys == c.Keys && forall r | r in b && r != p :: b[r] == c[r]
    requires q != p && Reachable(b, p, q)
    ensures Reachable(c, p, q)
  {
    var path :| |path| >= 2 && path[0] == p && path[|path| - 1] == q && JumpChain(b, path);
    var cut := CutAtStart(b, path);
    ChainTransfer(b, c, cut);
  }

  /** The browser client lifts the piece off its field before it searches;
      the destinations are those of the piece still standing there. */
  lemma EmptiedStartSameDestinations(b: Board, p: Position)
    requires p in b
    ensures Destinations(b[p := Field(b[p].kind, Empty)], p) == Destinations(b, p)
  {
    var e := b[p := Field(b[p].kind, Empty)];
    forall k | 0 <= k < 6 ensures IsEmptyField(e, Neighbour(p, k)) == IsEmptyField(b, Neighbour(p, k)) {
      DirectionParity(p, p, k);
    }
    assert Steps(e, p) == Steps(b, p);
    forall q | q in b && q != p ensures Reachable(e, p, q) <==> Reachable(b, p, q) {
      if Reachable(b, p, q) {
        ReachableOffStart(b, e, p, q);
      }
      if Reachable(e, p, q) {
        ReachableOffStart(e, b, p, q);
      }
    }
    assert Jumps(e, p) == Jumps(b, p);
  }
}
