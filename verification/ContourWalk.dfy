/** The boundary walk over grid edges: closed loops out of loose segments. */
module ContourWalk {
  import opened MarchingSquares

  const WALK_GUARD := 10_000_000

  /** Steps are segment indices; doors[i] and doors[i+1] are the two ends of step i. */
  datatype Walk = Walk(steps: seq<nat>, doors: seq<EdgeKey>)

  predicate Joins(s: Segment, a: EdgeKey, b: EdgeKey) {
    (s.ka == a && s.kb == b) || (s.ka == b && s.kb == a)
  }

  predicate Meet(segs: seq<Segment>, i: nat, j: nat, k: nat, e: EdgeKey) {
    && i < |segs| && j < |segs| && k < |segs|
    && Touches(segs[i], e) && Touches(segs[j], e) && Touches(segs[k], e)
  }

  /** No segment is degenerate and no grid edge carries three segments. */
  ghost predicate AtMostTwo(segs: seq<Segment>) {
    && (forall i | 0 <= i < |segs| :: segs[i].ka != segs[i].kb)
    && forall i, j, k, e | Meet(segs, i, j, k, e) :: i == j || j == k || i == k
  }

  ghost predicate OnVertices(segs: seq<Segment>, at: EdgeKey -> Point) {
    forall i | 0 <= i < |segs| :: segs[i].pa == at(segs[i].ka) && segs[i].pb == at(segs[i].kb)
  }

  ghost predicate Distinct(s: seq<nat>) {
    forall i, j | 0 <= i < j < |s| :: s[i] != s[j]
  }

  /** A chain of different segments that has not come back to its first door on the way. */
  ghost predicate Chain(segs: seq<Segment>, w: Walk) {
    && 1 <= |w.steps| && |w.doors| == |w.steps| + 1
    && (forall i | 0 <= i < |w.steps| :: w.steps[i] < |segs|)
    && (forall i | 0 <= i < |w.steps| :: Joins(segs[w.steps[i]], w.doors[i], w.doors[i + 1]))
    && Distinct(w.steps)
    && forall i | 0 < i < |w.steps| :: w.doors[i] != w.doors[0]
  }

  ghost predicate Closed(segs: seq<Segment>, w: Walk) {
    Chain(segs, w) && w.doors[|w.steps|] == w.doors[0]
  }

  function Points(doors: seq<EdgeKey>, at: EdgeKey -> Point): seq<Point> {
    seq(|doors|, i requires 0 <= i < |doors| => at(doors[i]))
  }

  type EdgeMap = map<EdgeKey, seq<nat>>

  ghost predicate Indexes(segs: seq<Segment>, m: EdgeMap, n: nat)
    requires n <= |segs|
  {
    && (forall e | e in m :: forall c | c in m[e] :: c < n && Touches(segs[c], e))
    && (forall i, e | 0 <= i < n && Touches(segs[i], e) :: e in m && i in m[e])
    && forall e | e in m :: Ascending(m[e])
  }

  ghost predicate Ascending(s: seq<nat>) {
    forall i, j | 0 <= i < j < |s| :: s[i] <= s[j]
  }

  function Enter(m: EdgeMap, e: EdgeKey, i: nat): EdgeMap {
    m[e := (if e in m then m[e] else []) + [i]]
  }

  /** Every list ascends, and none of its entries is above i. */
  ghost predicate Steady(m: EdgeMap, i: nat) {
    forall e | e in m :: Ascending(m[e]) && forall c | c in m[e] :: c <= i
  }

  lemma AscendingSnoc(s: seq<nat>, i: nat)
    requires Ascending(s) && forall c | c in s :: c <= i
    ensures Ascending(s + [i]) && forall c | c in s + [i] :: c <= i
  {
    assert forall j | 0 <= j < |s| :: s[j] in s;
  }

  lemma EnterKeepsOrder(m: EdgeMap, k: EdgeKey, i: nat)
    requires Steady(m, i)
    ensures Steady(Enter(m, k, i), i)
  {
    AscendingSnoc(if k in m then m[k] else [], i);
  }

  method BuildEdgeMap(segs: seq<Segment>) returns (m: EdgeMap)
    ensures Indexes(segs, m, |segs|)
  {
    m := map[];
    for i := 0 to |segs|
      invariant Indexes(segs, m, i)
    {
      EnterKeepsOrder(m, segs[i].ka, i);
      EnterKeepsOrder(Enter(m, segs[i].ka, i), segs[i].kb, i);
      m := Enter(Enter(m, segs[i].ka, i), segs[i].kb, i);
    }
  }

  /** The candidates on an edge are its segments, in segment order. */
  ghost predicate CandidatesOf(segs: seq<Segment>, e: EdgeKey, cs: seq<nat>) {
    && Ascending(cs) && (forall c | c in cs :: c < |segs| && Touches(segs[c], e))
    && forall i | 0 <= i < |segs| && Touches(segs[i], e) :: i in cs
  }

  lemma IndexGivesCandidates(segs: seq<Segment>, m: EdgeMap, e: EdgeKey)
    requires Indexes(segs, m, |segs|)
    ensures CandidatesOf(segs, e, if e in m then m[e] else [])
  {}

  lemma EarlierCandidate(cs: seq<nat>, k: nat, i: nat) returns (j: nat)
    requires Ascending(cs) && k < |cs| && i in cs && i < cs[k]
    ensures j < k && cs[j] == i
  {
    j :| j < |cs| && cs[j] == i;
  }

  /** The first segment on the edge, in segment order, that no walk has used yet. */
  method NextUnused(segs: seq<Segment>, m: EdgeMap, used: array<bool>, e: EdgeKey) returns (found: bool, next: nat)
    requires Indexes(segs, m, |segs|) && used.Length == |segs|
    ensures found ==> next < |segs| && Touches(segs[next], e) && !used[next]
    ensures found ==> forall i | 0 <= i < next && Touches(segs[i], e) :: used[i]
    ensures !found ==> forall i | 0 <= i < |segs| && Touches(segs[i], e) :: used[i]
  {
    hide Indexes, Ascending, Touches;
    found, next := false, 0;
    var candidates := if e in m then m[e] else [];
    IndexGivesCandidates(segs, m, e);
    for k := 0 to |candidates|
      invariant forall j | 0 <= j < k :: candidates[j] < |segs| && used[candidates[j]]
    {
      assert candidates[k] in candidates;
      if !used[candidates[k]] {
        forall i | 0 <= i < candidates[k] && Touches(segs[i], e)
          ensures used[i]
        {
          var j := EarlierCandidate(candidates, k, i);
        }
        return true, candidates[k];
      }
    }
  }

  /** Walks from one unused segment until the walk closes, is stuck, or the guard runs out. */
  method WalkFrom(segs: seq<Segment>, m: EdgeMap, used: array<bool>, start: nat, ghost at: EdgeKey -> Point)
    returns (loop: seq<Point>, closed: bool, ghost w: Walk)
    requires Indexes(segs, m, |segs|) && used.Length == |segs|
    requires forall i | 0 <= i < |segs| :: segs[i].ka != segs[i].kb
    requires OnVertices(segs, at)
    requires start < |segs| && !used[start]
    modifies used
    ensures Chain(segs, w) && w.steps[0] == start
    ensures loop == Points(w.doors, at)
    ensures forall i | 0 <= i < |segs| :: used[i] <==> old(used[i]) || i in w.steps
    ensures forall s | s in w.steps :: !old(used[s])
    ensures closed ==> Closed(segs, w) && |w.steps| <= 10_000_000
    ensures !closed && |w.steps| <= 10_000_000 ==>
              && w.doors[|w.steps|] != w.doors[0]
              && forall i | 0 <= i < |segs| && Touches(segs[i], w.doors[|w.steps|]) :: used[i]
  {
    used[start] := true;
    var s := segs[start];
    loop := [s.pa, s.pb];
    var entry := s.kb;
    w := Walk([start], [s.ka, s.kb]);
    var guard := 0;
    closed := false;
    while guard < WALK_GUARD
      invariant !closed
      invariant Chain(segs, w) && w.steps[0] == start && w.doors[0] == s.ka && w.doors[|w.steps|] == entry
      invariant |w.steps| == guard + 1
      invariant loop == Points(w.doors, at)
      invariant forall i | 0 <= i < |segs| :: used[i] <==> old(used[i]) || i in w.steps
      invariant forall i | i in w.steps :: !old(used[i])
    {
      guard := guard + 1;
      if entry == s.ka {
        closed := true;
        break;
      }
      var found, next := NextUnused(segs, m, used, entry);
      if !found {
        break;
      }
      used[next] := true;
      var c := segs[next];
      ghost var w0 := w;
      if c.ka == entry {
        loop := loop + [c.pb];
        entry := c.kb;
      } else {
        loop := loop + [c.pa];
        entry := c.ka;
      }
      w := Walk(w.steps + [next], w.doors + [entry]);
      ChainExtends(segs, w0, next, entry);
    }
  }

  lemma ChainExtends(segs: seq<Segment>, w: Walk, next: nat, door: EdgeKey)
    requires Chain(segs, w) && next < |segs| && next !in w.steps
    requires Joins(segs[next], w.doors[|w.steps|], door) && w.doors[|w.steps|] != w.doors[0]
    ensures Chain(segs, Walk(w.steps + [next], w.doors + [door]))
  {}

  // ---------------------------------------------------------------- cycles

  /** Every end of every member is shared with another member: a union of closed components. */
  ghost predicate Regular(segs: seq<Segment>, S: set<nat>) {
    && (forall s | s in S :: s < |segs|)
    && forall s, e {:trigger Shared(segs, S, s, e)} | s in S && Touches(segs[s], e) :: Shared(segs, S, s, e)
  }

  ghost predicate Shared(segs: seq<Segment>, S: set<nat>, s: nat, e: EdgeKey) {
    exists t :: t in S && t != s && t < |segs| && Touches(segs[t], e)
  }

  ghost predicate OnCycle(segs: seq<Segment>, i: nat) {
    exists S: set<nat> :: i in S && Regular(segs, S)
  }

  ghost function Elements(s: seq<nat>): set<nat> { set x | x in s }

  ghost function StepSet(w: Walk): set<nat> { Elements(w.steps) }

  lemma ThirdMisses(segs: seq<Segment>, i: nat, j: nat, k: nat, e: EdgeKey)
    requires AtMostTwo(segs) && i < |segs| && j < |segs| && k < |segs| && i != j && k != i && k != j
    requires Touches(segs[i], e) && Touches(segs[j], e)
    ensures !Touches(segs[k], e)
  {
    assert !Meet(segs, i, j, k, e);
  }

  /** The other step of a closed walk at a door. */
  lemma ClosedShares(segs: seq<Segment>, w: Walk, i: nat, e: EdgeKey) returns (j: nat)
    requires AtMostTwo(segs) && Closed(segs, w) && i < |w.steps| && Touches(segs[w.steps[i]], e)
    ensures j < |w.steps| && j != i && Touches(segs[w.steps[j]], e)
  {
    var n := |w.steps|;
    if e == w.doors[i] {
      j := if i == 0 then n - 1 else i - 1;
    } else {
      j := if i == n - 1 then 0 else i + 1;
    }
    assert Joins(segs[w.steps[j]], w.doors[j], w.doors[j + 1]);
    assert segs[w.steps[i]].ka != segs[w.steps[i]].kb;
  }

  lemma ClosedIsRegular(segs: seq<Segment>, w: Walk)
    requires AtMostTwo(segs) && Closed(segs, w)
    ensures Regular(segs, StepSet(w))
  {
    forall s, e | s in StepSet(w) && Touches(segs[s], e)
      ensures Shared(segs, StepSet(w), s, e)
    {
      var i :| 0 <= i < |w.steps| && w.steps[i] == s;
      var j := ClosedShares(segs, w, i, e);
      assert w.steps[j] in StepSet(w);
    }
  }

  /** The last door of an open chain meets no earlier step of the chain. */
  lemma LastDoorIsNew(segs: seq<Segment>, w: Walk, j: nat)
    requires AtMostTwo(segs) && Chain(segs, w) && w.doors[|w.steps|] != w.doors[0]
    requires j < |w.steps| - 1
    ensures !Touches(segs[w.steps[j]], w.doors[|w.steps|])
  {
    var n := |w.steps|;
    var e := w.doors[n];
    assert Joins(segs[w.steps[n - 1]], w.doors[n - 1], e);
    if Touches(segs[w.steps[j]], e) {
      assert Joins(segs[w.steps[j]], w.doors[j], w.doors[j + 1]);
      if e == w.doors[j] {
        assert Joins(segs[w.steps[j - 1]], w.doors[j - 1], e);
        assert Meet(segs, w.steps[j - 1], w.steps[j], w.steps[n - 1], e);
      } else if j + 1 < n - 1 {
        assert Joins(segs[w.steps[j + 1]], e, w.doors[j + 2]);
        assert Meet(segs, w.steps[j], w.steps[j + 1], w.steps[n - 1], e);
      }
    }
  }

  /** A regular set that a chain enters also holds the chain's last step. */
  lemma {:induction false} RegularFollowsChain(segs: seq<Segment>, w: Walk, S: set<nat>, i: nat)
    requires AtMostTwo(segs) && Chain(segs, w) && Regular(segs, S)
    requires i < |w.steps| && w.steps[i] in S
    ensures w.steps[|w.steps| - 1] in S
    decreases |w.steps| - i
  {
    if i + 1 < |w.steps| {
      var e := w.doors[i + 1];
      assert Joins(segs[w.steps[i]], w.doors[i], e) && Joins(segs[w.steps[i + 1]], e, w.doors[i + 2]);
      assert Touches(segs[w.steps[i]], e) && Touches(segs[w.steps[i + 1]], e);
      assert Shared(segs, S, w.steps[i], e);
      var t :| t in S && t != w.steps[i] && t < |segs| && Touches(segs[t], e);
      assert Meet(segs, w.steps[i], w.steps[i + 1], t, e);
      RegularFollowsChain(segs, w, S, i + 1);
    }
  }

  ghost predicate InSome(walks: seq<Walk>, s: nat) {
    exists k :: 0 <= k < |walks| && s in walks[k].steps
  }

  ghost predicate AllClosed(segs: seq<Segment>, walks: seq<Walk>) {
    forall k | 0 <= k < |walks| :: Closed(segs, walks[k])
  }

  ghost predicate PairwiseDisjoint(walks: seq<Walk>) {
    forall k, l | 0 <= k < l < |walks| :: StepSet(walks[k]) !! StepSet(walks[l])
  }

  /** A walk that gets stuck lies on no cycle. */
  lemma StuckIsOffCycle(segs: seq<Segment>, walks: seq<Walk>, w: Walk, was: seq<bool>, s: nat)
    requires AtMostTwo(segs) && AllClosed(segs, walks) && |was| == |segs|
    requires forall i | 0 <= i < |segs| :: was[i] && OnCycle(segs, i) ==> InSome(walks, i)
    requires forall i | 0 <= i < |segs| :: InSome(walks, i) ==> was[i]
    requires Chain(segs, w) && w.doors[|w.steps|] != w.doors[0]
    requires forall i | i in w.steps :: !was[i]
    requires forall i | 0 <= i < |segs| && Touches(segs[i], w.doors[|w.steps|]) :: was[i] || i in w.steps
    requires s in w.steps
    ensures !OnCycle(segs, s)
  {
    if OnCycle(segs, s) {
      var S: set<nat> :| s in S && Regular(segs, S);
      var i :| 0 <= i < |w.steps| && w.steps[i] == s;
      RegularFollowsChain(segs, w, S, i);
      var n := |w.steps|;
      var last, e := w.steps[n - 1], w.doors[n];
      assert Joins(segs[last], w.doors[n - 1], e);
      assert Touches(segs[last], e);
      assert Shared(segs, S, last, e);
      var t :| t in S && t != last && t < |segs| && Touches(segs[t], e);
      forall j | 0 <= j < n - 1
        ensures w.steps[j] != t
      {
        LastDoorIsNew(segs, w, j);
      }
      assert was[t] && OnCycle(segs, t);
      LoopsMissLast(segs, walks, was, last, t, e);
    }
  }

  /** A fresh segment and a segment of a finished loop share no grid edge. */
  lemma LoopsMissLast(segs: seq<Segment>, walks: seq<Walk>, was: seq<bool>, last: nat, t: nat, e: EdgeKey)
    requires AtMostTwo(segs) && AllClosed(segs, walks) && |was| == |segs|
    requires forall i | 0 <= i < |segs| :: InSome(walks, i) ==> was[i]
    requires t < |segs| && Touches(segs[t], e) && InSome(walks, t)
    requires last < |segs| && !was[last]
    ensures !Touches(segs[last], e)
  {
    var k :| 0 <= k < |walks| && t in walks[k].steps;
    var a :| 0 <= a < |walks[k].steps| && walks[k].steps[a] == t;
    var b := ClosedShares(segs, walks[k], a, e);
    var u := walks[k].steps[b];
    assert u in walks[k].steps && InSome(walks, u) && was[u];
    assert u != t;
    ThirdMisses(segs, t, u, last, e);
  }

  // ---------------------------------------------------------------- all loops

  /** loops are the vertex lists of the walks; the walks are closed and share no segment; none is
      longer than the step guard of ten million, and below it they pass through exactly the segments that lie on a
       cycle. */
  ghost predicate Decomposition(segs: seq<Segment>, at: EdgeKey -> Point, loops: seq<seq<Point>>, walks: seq<Walk>) {
    && |loops| == |walks|
    && AllClosed(segs, walks) && PairwiseDisjoint(walks)
    && (forall k | 0 <= k < |walks| :: loops[k] == Points(walks[k].doors, at))
    && (forall k | 0 <= k < |walks| :: |walks[k].steps| <= 10_000_000)
    && (|segs| <= 10_000_000 ==> forall i: nat | i < |segs| :: InSome(walks, i) <==> OnCycle(segs, i))
  }

  lemma InSomeExtends(walks: seq<Walk>, w: Walk, s: nat)
    ensures InSome(walks + [w], s) <==> InSome(walks, s) || s in w.steps
  {
    var all := walks + [w];
    if InSome(walks, s) {
      var k :| 0 <= k < |walks| && s in walks[k].steps;
      assert s in all[k].steps;
    }
    if s in w.steps {
      assert all[|walks|] == w;
    }
  }

  lemma StepsFit(segs: seq<Segment>, w: Walk)
    requires Chain(segs, w)
    ensures |w.steps| <= |segs|
  {
    ElementsSize(w.steps);
    SubsetSize(StepSet(w), Range(|segs|));
  }

  ghost function Range(n: nat): (r: set<nat>)
    ensures |r| == n && forall i: nat :: i in r <==> i < n
  {
    if n == 0 then {} else Range(n - 1) + {n - 1}
  }

  lemma {:induction false} ElementsSize(s: seq<nat>)
    requires Distinct(s)
    ensures |Elements(s)| == |s|
  {
    if s != [] {
      ElementsSize(s[1..]);
      assert s[0] !in s[1..];
      assert Elements(s) == Elements(s[1..]) + {s[0]};
    }
  }

  lemma {:induction false} SubsetSize(a: set<nat>, b: set<nat>)
    requires a <= b
    ensures |a| <= |b|
  {
    if a != {} {
      var x :| x in a;
      SubsetSize(a - {x}, b - {x});
    }
  }

  /** A closed walk has at least two steps, hence at least three loop vertices. */
  lemma ClosedIsLong(segs: seq<Segment>, w: Walk)
    requires Closed(segs, w) && forall i | 0 <= i < |segs| :: segs[i].ka != segs[i].kb
    ensures |w.doors| >= 3
  {
    assert Joins(segs[w.steps[0]], w.doors[0], w.doors[1]);
  }

  /** The loops found so far; used marks every segment some walk has consumed. */
  ghost predicate Progress(
      segs: seq<Segment>, at: EdgeKey -> Point, loops: seq<seq<Point>>, walks: seq<Walk>, used: seq<bool>)
    requires |used| == |segs|
  {
    && |loops| == |walks| && AllClosed(segs, walks) && PairwiseDisjoint(walks)
    && (forall k | 0 <= k < |walks| :: loops[k] == Points(walks[k].doors, at))
    && (forall i | 0 <= i < |segs| :: InSome(walks, i) ==> used[i])
    && (forall k | 0 <= k < |walks| :: |walks[k].steps| <= 10_000_000)
    && (|segs| <= 10_000_000 ==> forall i | 0 <= i < |segs| :: used[i] && OnCycle(segs, i) ==> InSome(walks, i))
  }

  lemma AddLoop(segs: seq<Segment>, at: EdgeKey -> Point, loops: seq<seq<Point>>, walks: seq<Walk>,
                was: seq<bool>, now: seq<bool>, w: Walk)
    requires |was| == |now| == |segs|
    requires Progress(segs, at, loops, walks, was) && Closed(segs, w) && |w.steps| <= 10_000_000
    requires forall i | 0 <= i < |segs| :: now[i] <==> was[i] || i in w.steps
    requires forall s | s in w.steps :: s < |segs| && !was[s]
    ensures Progress(segs, at, loops + [Points(w.doors, at)], walks + [w], now)
  {
    hide OnCycle, Points, Closed;
    forall i: nat | i < |segs|
      ensures InSome(walks + [w], i) <==> InSome(walks, i) || i in w.steps
    {
      InSomeExtends(walks, w, i);
    }
    forall k | 0 <= k < |walks|
      ensures StepSet(walks[k]) !! StepSet(w)
    {
      assert forall s | s in w.steps :: s < |segs| && !was[s] && !InSome(walks, s);
      assert forall s | s in walks[k].steps :: InSome(walks, s);
    }
  }

  lemma AddStuck(segs: seq<Segment>, at: EdgeKey -> Point, loops: seq<seq<Point>>, walks: seq<Walk>,
                 was: seq<bool>, now: seq<bool>, w: Walk)
    requires |was| == |now| == |segs| && AtMostTwo(segs) && Progress(segs, at, loops, walks, was)
    requires forall i | 0 <= i < |segs| :: now[i] <==> was[i] || i in w.steps
    requires forall s | s in w.steps :: s < |segs| && !was[s]
    requires Chain(segs, w)
    requires |w.steps| <= 10_000_000 ==>
               && w.doors[|w.steps|] != w.doors[0]
               && forall i | 0 <= i < |segs| && Touches(segs[i], w.doors[|w.steps|]) :: now[i]
    ensures Progress(segs, at, loops, walks, now)
  {
    StepsFit(segs, w);
    if |segs| <= 10_000_000 {
      forall s | s in w.steps
        ensures !OnCycle(segs, s)
      {
        StuckIsOffCycle(segs, walks, w, was, s);
      }
    }
  }

  lemma NoLoopsYet(segs: seq<Segment>, at: EdgeKey -> Point, used: seq<bool>)
    requires |used| == |segs| && forall i | 0 <= i < |segs| :: !used[i]
    ensures Progress(segs, at, [], [], used)
  {
    hide OnCycle, Points, Closed;
  }

  lemma LoopsDone(segs: seq<Segment>, at: EdgeKey -> Point, loops: seq<seq<Point>>, walks: seq<Walk>, used: seq<bool>)
    requires |used| == |segs| && AtMostTwo(segs) && Progress(segs, at, loops, walks, used)
    requires forall i | 0 <= i < |segs| :: used[i]
    ensures Decomposition(segs, at, loops, walks)
  {
    hide Points, OnCycle;
    forall i: nat | i < |segs| && InSome(walks, i)
      ensures OnCycle(segs, i)
    {
      var k :| 0 <= k < |walks| && i in walks[k].steps;
      ClosedIsRegular(segs, walks[k]);
      ClosedIsOnCycle(segs, walks[k], i);
    }
  }

  lemma ClosedIsOnCycle(segs: seq<Segment>, w: Walk, i: nat)
    requires Regular(segs, StepSet(w)) && i in w.steps
    ensures OnCycle(segs, i)
  {
    assert i in StepSet(w);
  }

  method TraceLoops(segs: seq<Segment>, ghost at: EdgeKey -> Point)
    returns (loops: seq<seq<Point>>, ghost walks: seq<Walk>)
    requires AtMostTwo(segs) && OnVertices(segs, at)
    ensures Decomposition(segs, at, loops, walks)
    ensures forall k | 0 <= k < |loops| :: |loops[k]| >= 3 && loops[k][0] == loops[k][|loops[k]| - 1]
  {
    hide Progress, Chain, Decomposition, OnCycle, Indexes;
    var m := BuildEdgeMap(segs);
    var used := new bool[|segs|](_ => false);
    loops, walks := [], [];
    NoLoopsYet(segs, at, used[..]);
    for start := 0 to |segs|
      invariant Progress(segs, at, loops, walks, used[..])
      invariant forall i | 0 <= i < start :: used[i]
      invariant forall k | 0 <= k < |loops| :: |loops[k]| >= 3 && loops[k][0] == loops[k][|loops[k]| - 1]
    {
      if !used[start] {
        ghost var was := used[..];
        var loop, closed;
        ghost var w;
        loop, closed, w := WalkFrom(segs, m, used, start, at);
        FreshSteps(segs, w, was);
        if closed {
          ClosedIsLong(segs, w);
        }
        if closed && |loop| >= 3 {
          AddLoop(segs, at, loops, walks, was, used[..], w);
          loops, walks := loops + [loop], walks + [w];
        } else {
          AddStuck(segs, at, loops, walks, was, used[..], w);
        }
      }
    }
    LoopsDone(segs, at, loops, walks, used[..]);
  }

  lemma FreshSteps(segs: seq<Segment>, w: Walk, was: seq<bool>)
    requires Chain(segs, w) && |was| == |segs|
    requires forall s | s in w.steps && s < |segs| :: !was[s]
    ensures forall s | s in w.steps :: s < |segs| && !was[s]
  {}
}
