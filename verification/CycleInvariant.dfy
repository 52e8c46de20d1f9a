/**
 * The invariant of the iterative Tarjan search in mcp/src/store.ts (`detectCycles`), and the five
 * elementary steps that keep it.
 *
 * The search keeps a stack of vertices not yet assigned to a component and a work stack of
 * half-scanned vertices, its `path`.  The path cuts the vertex stack into segments; the invariant
 * says that a segment lies inside one strongly connected component and that the `lowlink` of the
 * path vertex opening it bounds every scanned edge from the segment back into the stack.
 */
module CycleInvariant {
  import opened Numbers
  import opened Digraph
  import opened SetFacts

  /** A snapshot of the search; `order` lists the numbered vertices, `path` holds the vertices of the work
      stack, `looked` holds the edges followed so far, and `comps` every component completed so far, those of
      one vertex included. */
  datatype Search<V(==)> = Search(
    order: seq<V>,
    indices: map<V, nat>,
    lowlink: map<V, nat>,
    onStack: set<V>,
    stack: seq<V>,
    path: seq<V>,
    looked: set<(V, V)>,
    comps: seq<seq<V>>)

  ghost predicate Numbering<V>(s: Search<V>) {
    && s.indices.Keys == s.lowlink.Keys
    && s.onStack <= s.indices.Keys
    && (forall v :: v in s.indices ==> s.indices[v] < |s.order| && s.order[s.indices[v]] == v)
  }

  /** The stack lists the open vertices in order of discovery. */
  ghost predicate StackOrder<V(!new)>(s: Search<V>) {
    && (forall v :: v in s.onStack <==> v in s.stack)
    && (forall v :: v in s.stack ==> v in s.indices)
    && (forall a, b :: 0 <= a < b < |s.stack| ==> s.indices[s.stack[a]] < s.indices[s.stack[b]])
  }

  /** The path lists some open vertices in order of discovery, each reaching the next. */
  ghost predicate PathOrder<V(!new)>(edges: set<(V, V)>, s: Search<V>)
    requires Numbering(s)
  {
    && (forall k :: 0 <= k < |s.path| ==> s.path[k] in s.onStack)
    && (forall k, m :: 0 <= k < m < |s.path| ==>
          s.indices[s.path[k]] < s.indices[s.path[m]] && Reaches(edges, s.path[k], s.path[m]))
    && (forall x :: x in s.onStack ==> |s.path| > 0 && s.indices[s.path[0]] <= s.indices[x])
  }

  /** Vertices off the path have had all their edges looked at. */
  ghost predicate OffPathLooked<V(!new)>(edges: set<(V, V)>, s: Search<V>) {
    forall x, y :: x in s.indices && x !in s.path && (x, y) in edges ==> (x, y) in s.looked
  }

  /** Every edge looked at leads to a numbered vertex, and from a completed vertex to a completed one. */
  ghost predicate LookedNumbered<V(!new)>(s: Search<V>) {
    forall x, y :: (x, y) in s.looked ==> x in s.indices && y in s.indices && (x !in s.onStack ==> y !in s.onStack)
  }

  /** `x` is on the stack at or above path vertex `k` and below path vertex `k + 1`. */
  ghost predicate InSegment<V>(s: Search<V>, k: nat, x: V)
    requires Numbering(s)
  {
    && k < |s.path| && x in s.onStack && s.path[k] in s.indices
    && s.indices[s.path[k]] <= s.indices[x]
    && (k + 1 < |s.path| ==> s.path[k + 1] in s.indices && s.indices[x] < s.indices[s.path[k + 1]])
  }

  ghost predicate SegmentsConnected<V(!new)>(edges: set<(V, V)>, s: Search<V>)
    requires Numbering(s)
  {
    forall k: nat, x :: InSegment(s, k, x) ==> Mutual(edges, x, s.path[k])
  }

  ghost predicate LowReached<V(!new)>(edges: set<(V, V)>, s: Search<V>, v: V)
    requires Numbering(s) && v in s.indices
  {
    exists x :: x in s.onStack && s.indices[x] == s.lowlink[v] && Reaches(edges, v, x)
  }

  ghost predicate LowSound<V(!new)>(edges: set<(V, V)>, s: Search<V>)
    requires Numbering(s)
  {
    forall k :: 0 <= k < |s.path| && s.path[k] in s.indices ==>
      s.lowlink[s.path[k]] <= s.indices[s.path[k]] && LowReached(edges, s, s.path[k])
  }

  ghost predicate LowComplete<V(!new)>(s: Search<V>)
    requires Numbering(s)
  {
    forall k: nat, x, y :: InSegment(s, k, x) && (x, y) in s.looked && y in s.onStack ==>
      s.lowlink[s.path[k]] <= s.indices[y]
  }

  /** The vertices already assigned to a component. */
  ghost function Done<V>(s: Search<V>): set<V> {
    s.indices.Keys - s.onStack
  }

  /** `comps` lists components without repetition, together making up `done`; none reaches a later one. */
  ghost predicate Completed<V(!new)>(edges: set<(V, V)>, done: set<V>, comps: seq<seq<V>>) {
    && (forall c :: 0 <= c < |comps| ==> IsComponent(edges, comps[c]) && Distinct(comps[c]))
    && (forall c, x :: 0 <= c < |comps| && x in comps[c] ==> x in done)
    && (forall x :: x in done ==> exists c :: 0 <= c < |comps| && x in comps[c])
    && (forall c, d, x, y :: 0 <= c < d < |comps| && x in comps[c] && y in comps[d] ==> !Reaches(edges, x, y))
  }

  ghost predicate Invariant<V(!new)>(edges: set<(V, V)>, s: Search<V>) {
    && Numbering(s)
    && StackOrder(s)
    && PathOrder(edges, s)
    && OffPathLooked(edges, s)
    && LookedNumbered(s)
    && SegmentsConnected(edges, s)
    && LowSound(edges, s)
    && LowComplete(s)
    && Completed(edges, Done(s), s.comps)
  }

  // ----- numbering a new vertex -----

  ghost function Visit<V>(s: Search<V>, w: V): Search<V> {
    s.(order := s.order + [w], indices := s.indices[w := |s.order|], lowlink := s.lowlink[w := |s.order|],
       onStack := s.onStack + {w}, stack := s.stack + [w], path := s.path + [w])
  }

  /** `w` is new, and an edge leads to it from the end of the path, if there is one. */
  ghost predicate CanVisit<V>(edges: set<(V, V)>, s: Search<V>, w: V) {
    w !in s.indices && (s.path != [] ==> (s.path[|s.path| - 1], w) in edges)
  }

  lemma VisitOrder<V(!new)>(edges: set<(V, V)>, s: Search<V>, w: V)
    requires Numbering(s) && StackOrder(s) && w !in s.indices
    ensures Numbering(Visit(s, w)) && StackOrder(Visit(s, w)) && Done(Visit(s, w)) == Done(s)
  {
  }

  lemma VisitPathOrder<V(!new)>(edges: set<(V, V)>, s: Search<V>, w: V)
    requires Numbering(s) && Numbering(Visit(s, w)) && PathOrder(edges, s) && CanVisit(edges, s, w)
    ensures PathOrder(edges, Visit(s, w))
  {
    var t := Visit(s, w);
    forall k | 0 <= k < |s.path|
      ensures Reaches(edges, s.path[k], w)
    {
      var last := s.path[|s.path| - 1];
      EdgeReaches(edges, last, w);
      ReachesSelf(edges, last);
      ReachesTransitive(edges, s.path[k], last, w);
    }
  }

  lemma VisitLooked<V(!new)>(edges: set<(V, V)>, s: Search<V>, w: V)
    requires Numbering(s) && OffPathLooked(edges, s) && LookedNumbered(s) && w !in s.indices
    ensures OffPathLooked(edges, Visit(s, w)) && LookedNumbered(Visit(s, w))
  {
  }

  lemma VisitSegment<V(!new)>(edges: set<(V, V)>, s: Search<V>, w: V, k: nat, x: V)
    requires Numbering(s) && Numbering(Visit(s, w)) && PathOrder(edges, s) && CanVisit(edges, s, w)
    requires InSegment(Visit(s, w), k, x)
    ensures if k == |s.path| then x == w else InSegment(s, k, x)
  {
    var t := Visit(s, w);
    if k < |s.path| {
      assert t.path[k] == s.path[k];
    }
  }

  lemma VisitSegmentsConnected<V(!new)>(edges: set<(V, V)>, s: Search<V>, w: V)
    requires Numbering(s) && Numbering(Visit(s, w)) && PathOrder(edges, s) && CanVisit(edges, s, w)
    requires SegmentsConnected(edges, s)
    ensures SegmentsConnected(edges, Visit(s, w))
  {
    var t := Visit(s, w);
    forall k: nat, x | InSegment(t, k, x)
      ensures Mutual(edges, x, t.path[k])
    {
      VisitSegment(edges, s, w, k, x);
      ReachesSelf(edges, w);
    }
  }

  lemma VisitLowSound<V(!new)>(edges: set<(V, V)>, s: Search<V>, w: V)
    requires Numbering(s) && Numbering(Visit(s, w)) && PathOrder(edges, s) && CanVisit(edges, s, w)
    requires LowSound(edges, s)
    ensures LowSound(edges, Visit(s, w))
  {
    var t := Visit(s, w);
    forall k | 0 <= k < |t.path| && t.path[k] in t.indices
      ensures t.lowlink[t.path[k]] <= t.indices[t.path[k]] && LowReached(edges, t, t.path[k])
    {
      if k < |s.path| {
        assert LowReached(edges, s, s.path[k]);
        var x :| x in s.onStack && s.indices[x] == s.lowlink[s.path[k]] && Reaches(edges, s.path[k], x);
        assert x in t.onStack && t.indices[x] == t.lowlink[s.path[k]];
      } else {
        ReachesSelf(edges, w);
        assert w in t.onStack && t.indices[w] == t.lowlink[w];
      }
    }
  }

  lemma VisitLowAt<V(!new)>(edges: set<(V, V)>, s: Search<V>, w: V, k: nat, x: V, y: V)
    requires Numbering(s) && Numbering(Visit(s, w)) && CanVisit(edges, s, w) && LookedNumbered(s) && LowComplete(s)
    requires if k == |s.path| then x == w else InSegment(s, k, x)
    requires (x, y) in s.looked && y in Visit(s, w).onStack && k < |Visit(s, w).path|
    ensures Visit(s, w).lowlink[Visit(s, w).path[k]] <= Visit(s, w).indices[y]
  {
  }

  lemma VisitLowComplete<V(!new)>(edges: set<(V, V)>, s: Search<V>, w: V)
    requires Numbering(s) && Numbering(Visit(s, w)) && PathOrder(edges, s) && CanVisit(edges, s, w)
    requires LookedNumbered(s) && LowComplete(s)
    ensures LowComplete(Visit(s, w))
  {
    var t := Visit(s, w);
    forall k: nat, x, y | InSegment(t, k, x) && (x, y) in t.looked && y in t.onStack
      ensures t.lowlink[t.path[k]] <= t.indices[y]
    {
      VisitSegment(edges, s, w, k, x);
      VisitLowAt(edges, s, w, k, x, y);
    }
  }

  lemma VisitKeeps<V(!new)>(edges: set<(V, V)>, s: Search<V>, w: V)
    requires Invariant(edges, s) && CanVisit(edges, s, w)
    ensures Invariant(edges, Visit(s, w))
  {
    VisitOrder(edges, s, w);
    VisitPathOrder(edges, s, w);
    VisitLooked(edges, s, w);
    VisitSegmentsConnected(edges, s, w);
    VisitLowSound(edges, s, w);
    VisitLowComplete(edges, s, w);
  }

  // ----- following one edge -----

  ghost function Look<V>(s: Search<V>, x: V, y: V): Search<V> {
    s.(looked := s.looked + {(x, y)})
  }

  lemma LookKeeps<V(!new)>(edges: set<(V, V)>, s: Search<V>, k: nat, y: V)
    requires Invariant(edges, s) && k < |s.path| && y in s.indices
    requires y in s.onStack ==> s.lowlink[s.path[k]] <= s.indices[y]
    ensures Invariant(edges, Look(s, s.path[k], y))
  {
    LookLowComplete(edges, s, k, y);
    LookNumbered(edges, s, k, y);
    var t := Look(s, s.path[k], y);
    assert Done(t) == Done(s);
  }

  lemma LookNumbered<V(!new)>(edges: set<(V, V)>, s: Search<V>, k: nat, y: V)
    requires Numbering(s) && PathOrder(edges, s) && LookedNumbered(s) && OffPathLooked(edges, s)
    requires k < |s.path| && y in s.indices
    ensures LookedNumbered(Look(s, s.path[k], y)) && OffPathLooked(edges, Look(s, s.path[k], y))
  {
  }

  lemma LookLowComplete<V(!new)>(edges: set<(V, V)>, s: Search<V>, k: nat, y: V)
    requires Numbering(s) && PathOrder(edges, s) && LowComplete(s)
    requires k < |s.path| && y in s.indices
    requires y in s.onStack ==> s.lowlink[s.path[k]] <= s.indices[y]
    ensures LowComplete(Look(s, s.path[k], y))
  {
    var t := Look(s, s.path[k], y);
    forall m: nat, x, z | InSegment(t, m, x) && (x, z) in t.looked && z in t.onStack
      ensures t.lowlink[t.path[m]] <= t.indices[z]
    {
      assert InSegment(s, m, x);
      if (x, z) !in s.looked {
        OwnSegment(edges, s, k, m);
      }
    }
  }

  /** A path vertex lies in the segment it opens and in no other. */
  lemma OwnSegment<V(!new)>(edges: set<(V, V)>, s: Search<V>, k: nat, m: nat)
    requires Numbering(s) && PathOrder(edges, s) && k < |s.path| && InSegment(s, m, s.path[k])
    ensures m == k
  {
  }

  // ----- lowering a lowlink -----

  ghost function Lower<V>(s: Search<V>, v: V, low: nat): Search<V> {
    s.(lowlink := s.lowlink[v := low])
  }

  lemma LowerKeeps<V(!new)>(edges: set<(V, V)>, s: Search<V>, k: nat, low: nat, z: V)
    requires Invariant(edges, s) && k < |s.path| && low <= s.lowlink[s.path[k]]
    requires z in s.onStack && s.indices[z] == low && Reaches(edges, s.path[k], z)
    ensures Invariant(edges, Lower(s, s.path[k], low))
  {
    var t := Lower(s, s.path[k], low);
    assert Done(t) == Done(s);
    assert StackOrder(t);
    assert PathOrder(edges, t);
    LowerLowComplete(edges, s, k, low);
    LowerLowSound(edges, s, k, low, z);
  }

  lemma LowerLowComplete<V(!new)>(edges: set<(V, V)>, s: Search<V>, k: nat, low: nat)
    requires Numbering(s) && PathOrder(edges, s) && k < |s.path| && low <= s.lowlink[s.path[k]]
    requires LowComplete(s) && SegmentsConnected(edges, s)
    ensures Numbering(Lower(s, s.path[k], low))
    ensures LowComplete(Lower(s, s.path[k], low)) && SegmentsConnected(edges, Lower(s, s.path[k], low))
  {
    var t := Lower(s, s.path[k], low);
    assert forall m: nat, x :: InSegment(t, m, x) ==> InSegment(s, m, x);
  }

  lemma LowerLowSound<V(!new)>(edges: set<(V, V)>, s: Search<V>, k: nat, low: nat, z: V)
    requires Numbering(s) && PathOrder(edges, s) && k < |s.path| && low <= s.lowlink[s.path[k]]
    requires z in s.onStack && s.indices[z] == low && Reaches(edges, s.path[k], z)
    requires LowSound(edges, s) && Numbering(Lower(s, s.path[k], low))
    ensures LowSound(edges, Lower(s, s.path[k], low))
  {
    var t := Lower(s, s.path[k], low);
    forall m | 0 <= m < |t.path| && t.path[m] in t.indices
      ensures t.lowlink[t.path[m]] <= t.indices[t.path[m]] && LowReached(edges, t, t.path[m])
    {
      assert LowReached(edges, s, s.path[m]);
      var x :| x in s.onStack && s.indices[x] == s.lowlink[s.path[m]] && Reaches(edges, s.path[m], x);
      if s.path[m] == s.path[k] {
        assert t.indices[z] == t.lowlink[t.path[m]];
      } else {
        assert t.indices[x] == t.lowlink[t.path[m]];
      }
    }
  }

  // ----- leaving a vertex that is not the first of its component -----

  ghost function Leave<V>(s: Search<V>): Search<V>
    requires s.path != []
  {
    s.(path := s.path[..|s.path| - 1])
  }

  /** The last path vertex, all of whose edges have been looked at. */
  ghost predicate Exhausted<V(!new)>(edges: set<(V, V)>, s: Search<V>) {
    s.path != [] && forall x, y :: x == s.path[|s.path| - 1] && (x, y) in edges ==> (x, y) in s.looked
  }

  /** Every open vertex lies in a segment. */
  lemma {:induction false} FindSegment<V(!new)>(edges: set<(V, V)>, s: Search<V>, x: V, k: nat) returns (m: nat)
    requires Numbering(s) && PathOrder(edges, s) && x in s.onStack
    requires k < |s.path| && (k + 1 < |s.path| ==> s.indices[x] < s.indices[s.path[k + 1]])
    ensures m <= k && InSegment(s, m, x)
  {
    if s.indices[s.path[k]] <= s.indices[x] {
      m := k;
    } else {
      m := FindSegment(edges, s, x, k - 1);
    }
  }

  lemma PathReaches<V(!new)>(edges: set<(V, V)>, s: Search<V>, j: nat, k: nat)
    requires Numbering(s) && PathOrder(edges, s) && j <= k < |s.path|
    ensures Reaches(edges, s.path[j], s.path[k])
  {
    ReachesSelf(edges, s.path[k]);
  }

  /** A last path vertex whose lowlink points below it shares the component of its parent. */
  lemma JoinsParent<V(!new)>(edges: set<(V, V)>, s: Search<V>)
    requires Numbering(s) && PathOrder(edges, s) && SegmentsConnected(edges, s) && LowSound(edges, s)
    requires |s.path| >= 2 && s.lowlink[s.path[|s.path| - 1]] < s.indices[s.path[|s.path| - 1]]
    ensures Mutual(edges, s.path[|s.path| - 1], s.path[|s.path| - 2])
  {
    var n := |s.path|;
    var v, p := s.path[n - 1], s.path[n - 2];
    assert LowReached(edges, s, v);
    var z :| z in s.onStack && s.indices[z] == s.lowlink[v] && Reaches(edges, v, z);
    var j := FindSegment(edges, s, z, n - 2);
    PathReaches(edges, s, j, n - 2);
    PathReaches(edges, s, n - 2, n - 1);
    ReachesTransitive(edges, v, z, s.path[j]);
    ReachesTransitive(edges, v, s.path[j], p);
  }

  /** Leaving merges the last two segments. */
  lemma LeaveSegment<V(!new)>(edges: set<(V, V)>, s: Search<V>, k: nat, x: V)
    requires Numbering(s) && |s.path| >= 2 && Numbering(Leave(s)) && PathOrder(edges, s)
    requires InSegment(Leave(s), k, x)
    ensures k <= |s.path| - 2
    ensures InSegment(s, k, x) || (k == |s.path| - 2 && InSegment(s, k + 1, x))
  {
  }

  lemma LeaveSegmentsConnected<V(!new)>(edges: set<(V, V)>, s: Search<V>)
    requires Numbering(s) && PathOrder(edges, s) && SegmentsConnected(edges, s)
    requires |s.path| >= 2 && Mutual(edges, s.path[|s.path| - 1], s.path[|s.path| - 2])
    ensures Numbering(Leave(s)) && SegmentsConnected(edges, Leave(s))
  {
    var t := Leave(s);
    forall k: nat, x | InSegment(t, k, x)
      ensures Mutual(edges, x, t.path[k])
    {
      LeaveSegment(edges, s, k, x);
      if !InSegment(s, k, x) {
        MutualTransitive(edges, x, s.path[k + 1], s.path[k]);
      }
    }
  }

  lemma LeaveLowComplete<V(!new)>(edges: set<(V, V)>, s: Search<V>)
    requires Numbering(s) && PathOrder(edges, s) && LowComplete(s)
    requires |s.path| >= 2 && s.lowlink[s.path[|s.path| - 2]] <= s.lowlink[s.path[|s.path| - 1]]
    ensures Numbering(Leave(s)) && LowComplete(Leave(s))
  {
    var t := Leave(s);
    forall k: nat, x, y | InSegment(t, k, x) && (x, y) in t.looked && y in t.onStack
      ensures t.lowlink[t.path[k]] <= t.indices[y]
    {
      LeaveSegment(edges, s, k, x);
      if !InSegment(s, k, x) {
        assert InSegment(s, k + 1, x);
      }
    }
  }

  lemma LeaveOrder<V(!new)>(edges: set<(V, V)>, s: Search<V>)
    requires Numbering(s) && PathOrder(edges, s) && OffPathLooked(edges, s)
    requires |s.path| >= 2 && Exhausted(edges, s)
    ensures Numbering(Leave(s)) && PathOrder(edges, Leave(s))
    ensures OffPathLooked(edges, Leave(s)) && Done(Leave(s)) == Done(s)
  {
    var t := Leave(s);
    assert s.path == t.path + [s.path[|s.path| - 1]];
  }

  lemma LeaveLowSound<V(!new)>(edges: set<(V, V)>, s: Search<V>)
    requires Numbering(s) && LowSound(edges, s) && |s.path| >= 2
    ensures Numbering(Leave(s)) && LowSound(edges, Leave(s))
  {
    var t := Leave(s);
    forall k | 0 <= k < |t.path| && t.path[k] in t.indices
      ensures t.lowlink[t.path[k]] <= t.indices[t.path[k]] && LowReached(edges, t, t.path[k])
    {
      assert LowReached(edges, s, s.path[k]);
      assert t.path[k] == s.path[k];
    }
  }

  lemma LeaveKeeps<V(!new)>(edges: set<(V, V)>, s: Search<V>)
    requires Invariant(edges, s) && |s.path| >= 2 && Exhausted(edges, s)
    requires s.lowlink[s.path[|s.path| - 2]] <= s.lowlink[s.path[|s.path| - 1]] < s.indices[s.path[|s.path| - 1]]
    ensures Invariant(edges, Leave(s))
  {
    JoinsParent(edges, s);
    LeaveOrder(edges, s);
    LeaveLowSound(edges, s);
    LeaveSegmentsConnected(edges, s);
    LeaveLowComplete(edges, s);
  }

  // ----- closing a component -----

  /** Pop the stack down to position `q` and record the popped vertices as `comp`. */
  ghost function Close<V>(s: Search<V>, q: nat, comp: seq<V>): Search<V>
    requires s.path != [] && q <= |s.stack|
  {
    s.(onStack := s.onStack - (set x | x in comp), stack := s.stack[..q],
       path := s.path[..|s.path| - 1], comps := s.comps + [comp])
  }

  /** `comp` lists the open vertices discovered no earlier than the last path vertex. */
  ghost predicate LastSegment<V(!new)>(s: Search<V>, comp: seq<V>)
    requires Numbering(s)
  {
    && s.path != [] && s.path[|s.path| - 1] in s.onStack
    && forall x :: x in comp <==> x in s.onStack && s.indices[s.path[|s.path| - 1]] <= s.indices[x]
  }

  /** From the last segment every edge stays in it or enters a completed component. */
  lemma SegmentClosed<V(!new)>(edges: set<(V, V)>, s: Search<V>, comp: seq<V>)
    requires Numbering(s) && PathOrder(edges, s) && OffPathLooked(edges, s) && LookedNumbered(s) && LowComplete(s)
    requires Exhausted(edges, s) && LastSegment(s, comp)
    requires s.lowlink[s.path[|s.path| - 1]] == s.indices[s.path[|s.path| - 1]]
    ensures Closed(edges, Done(s) + (set x | x in comp)) && Closed(edges, Done(s))
  {
    var n := |s.path|;
    var v := s.path[n - 1];
    forall x, y | x in comp && (x, y) in edges
      ensures y in Done(s) || y in comp
    {
      assert InSegment(s, n - 1, x);
      assert x != v ==> x !in s.path;
      assert (x, y) in s.looked;
    }
    forall x, y | x in Done(s) && (x, y) in edges
      ensures y in Done(s)
    {
      assert x !in s.path;
      assert (x, y) in s.looked;
    }
  }

  /** The last segment of an exhausted vertex whose lowlink is its own index is a component. */
  lemma SegmentIsComponent<V(!new)>(edges: set<(V, V)>, s: Search<V>, comp: seq<V>)
    requires Numbering(s) && SegmentsConnected(edges, s) && LastSegment(s, comp)
    requires Closed(edges, Done(s) + (set x | x in comp)) && Closed(edges, Done(s))
    ensures IsComponent(edges, comp)
  {
    var n := |s.path|;
    var v := s.path[n - 1];
    assert v in comp;
    forall a, b | a in comp
      ensures b in comp <==> Mutual(edges, a, b)
    {
      assert InSegment(s, n - 1, a);
      if b in comp {
        assert InSegment(s, n - 1, b);
        MutualTransitive(edges, a, v, b);
      } else if Mutual(edges, a, b) {
        ReachesStaysInside(edges, Done(s) + (set x | x in comp), a, b);
        ReachesStaysInside(edges, Done(s), b, a);
        assert false;
      }
    }
  }

  /** A component disjoint from a closed region can be appended to the components making it up. */
  lemma CompletedAppend<V(!new)>(edges: set<(V, V)>, done: set<V>, comps: seq<seq<V>>, comp: seq<V>)
    requires Completed(edges, done, comps) && Closed(edges, done)
    requires IsComponent(edges, comp) && Distinct(comp) && forall x :: x in comp ==> x !in done
    ensures Completed(edges, done + (set x | x in comp), comps + [comp])
  {
    forall x, y | x in done && y in comp
      ensures !Reaches(edges, x, y)
    {
      if Reaches(edges, x, y) {
        ReachesStaysInside(edges, done, x, y);
        assert false;
      }
    }
    var all := comps + [comp];
    forall x | x in done || x in comp
      ensures exists c :: 0 <= c < |all| && x in all[c]
    {
      if x in done {
        var c :| 0 <= c < |comps| && x in comps[c];
        assert x in all[c];
      } else {
        assert x in all[|comps|];
      }
    }
  }

  lemma CloseOffPath<V(!new)>(edges: set<(V, V)>, s: Search<V>, q: nat, comp: seq<V>)
    requires OffPathLooked(edges, s) && Exhausted(edges, s) && q <= |s.stack|
    ensures OffPathLooked(edges, Close(s, q, comp))
  {
    var t := Close(s, q, comp);
    assert s.path == t.path + [s.path[|s.path| - 1]];
  }

  lemma CloseOrder<V(!new)>(edges: set<(V, V)>, s: Search<V>, q: nat, comp: seq<V>)
    requires Numbering(s) && PathOrder(edges, s) && LastSegment(s, comp) && q <= |s.stack|
    ensures Numbering(Close(s, q, comp)) && PathOrder(edges, Close(s, q, comp))
  {
    var t := Close(s, q, comp);
    assert s.path == t.path + [s.path[|s.path| - 1]];
  }

  lemma CloseStackOrder<V(!new)>(s: Search<V>, q: nat, comp: seq<V>)
    requires Numbering(s) && StackOrder(s) && LastSegment(s, comp)
    requires q < |s.stack| && s.stack[q] == s.path[|s.path| - 1]
    ensures StackOrder(Close(s, q, comp))
  {
    var t := Close(s, q, comp);
    forall v
      ensures v in t.onStack <==> v in t.stack
    {
      if v in t.onStack {
        var a :| 0 <= a < |s.stack| && s.stack[a] == v;
        assert a < q;
        assert t.stack[a] == v;
      } else if v in t.stack {
        assert false;
      }
    }
  }

  lemma CloseLookedNumbered<V(!new)>(edges: set<(V, V)>, s: Search<V>, q: nat, comp: seq<V>)
    requires Numbering(s) && PathOrder(edges, s) && LookedNumbered(s) && LowComplete(s)
    requires LastSegment(s, comp) && q <= |s.stack|
    requires s.lowlink[s.path[|s.path| - 1]] == s.indices[s.path[|s.path| - 1]]
    ensures LookedNumbered(Close(s, q, comp))
  {
    var t := Close(s, q, comp);
    forall x, y | (x, y) in t.looked
      ensures x in t.indices && y in t.indices && (x !in t.onStack ==> y !in t.onStack)
    {
      if x in comp && y in s.onStack {
        assert InSegment(s, |s.path| - 1, x);
      }
    }
  }

  lemma CloseSegments<V(!new)>(edges: set<(V, V)>, s: Search<V>, q: nat, comp: seq<V>)
    requires Numbering(s) && PathOrder(edges, s) && LastSegment(s, comp) && q <= |s.stack|
    requires SegmentsConnected(edges, s) && LowComplete(s)
    ensures Numbering(Close(s, q, comp))
    ensures SegmentsConnected(edges, Close(s, q, comp)) && LowComplete(Close(s, q, comp))
  {
    var t := Close(s, q, comp);
    forall k: nat, x | InSegment(t, k, x)
      ensures InSegment(s, k, x) && t.path[k] == s.path[k]
    {
    }
  }

  lemma CloseLowSound<V(!new)>(edges: set<(V, V)>, s: Search<V>, q: nat, comp: seq<V>)
    requires Numbering(s) && PathOrder(edges, s) && LowSound(edges, s)
    requires LastSegment(s, comp) && q <= |s.stack|
    ensures Numbering(Close(s, q, comp)) && LowSound(edges, Close(s, q, comp))
  {
    var t := Close(s, q, comp);
    forall k | 0 <= k < |t.path| && t.path[k] in t.indices
      ensures t.lowlink[t.path[k]] <= t.indices[t.path[k]] && LowReached(edges, t, t.path[k])
    {
      assert t.path[k] == s.path[k];
      assert LowReached(edges, s, s.path[k]);
      var x :| x in s.onStack && s.indices[x] == s.lowlink[s.path[k]] && Reaches(edges, s.path[k], x);
      assert s.indices[s.path[k]] < s.indices[s.path[|s.path| - 1]];
      assert x in t.onStack;
    }
  }

  lemma CloseKeeps<V(!new)>(edges: set<(V, V)>, s: Search<V>, q: nat, comp: seq<V>)
    requires Invariant(edges, s) && Exhausted(edges, s) && LastSegment(s, comp) && Distinct(comp)
    requires q < |s.stack| && s.stack[q] == s.path[|s.path| - 1]
    requires s.lowlink[s.path[|s.path| - 1]] == s.indices[s.path[|s.path| - 1]]
    ensures Invariant(edges, Close(s, q, comp))
  {
    SegmentClosed(edges, s, comp);
    SegmentIsComponent(edges, s, comp);
    CompletedAppend(edges, Done(s), s.comps, comp);
    assert Done(Close(s, q, comp)) == Done(s) + (set x | x in comp);
    CloseOrder(edges, s, q, comp);
    CloseOffPath(edges, s, q, comp);
    CloseStackOrder(s, q, comp);
    CloseLookedNumbered(edges, s, q, comp);
    CloseSegments(edges, s, q, comp);
    CloseLowSound(edges, s, q, comp);
  }

  // ----- the steps of the search, composed from the elementary ones -----

  ghost function Last<V>(s: Search<V>): V
    requires s.path != []
  {
    s.path[|s.path| - 1]
  }

  lemma TopOnStack<V(!new)>(edges: set<(V, V)>, s: Search<V>)
    requires Numbering(s) && StackOrder(s) && PathOrder(edges, s) && s.path != []
    ensures Last(s) in s.indices && Last(s) in s.lowlink && Last(s) in s.stack && Last(s) in s.onStack
    ensures |s.path| >= 2 ==> s.path[|s.path| - 2] in s.lowlink
  {
    assert s.path[|s.path| - 1] in s.onStack;
  }

  lemma LowIsEarlier<V(!new)>(edges: set<(V, V)>, s: Search<V>)
    requires Numbering(s) && PathOrder(edges, s) && LowSound(edges, s) && s.path != []
    ensures s.lowlink[Last(s)] <= s.indices[Last(s)] < |s.order|
    ensures |s.path| == 1 ==> s.lowlink[Last(s)] == s.indices[Last(s)]
    ensures |s.path| >= 2 ==>
      s.lowlink[s.path[|s.path| - 2]] <= s.indices[s.path[|s.path| - 2]] < s.indices[Last(s)]
  {
    assert LowReached(edges, s, Last(s));
  }

  /** Following an edge to a new vertex. */
  lemma DiscoverKeeps<V(!new)>(edges: set<(V, V)>, s: Search<V>, w: V)
    requires Invariant(edges, s) && s.path != [] && CanVisit(edges, s, w)
    ensures Invariant(edges, Look(Visit(s, w), Last(s), w))
  {
    VisitKeeps(edges, s, w);
    LowIsEarlier(edges, s);
    LookKeeps(edges, Visit(s, w), |s.path| - 1, w);
  }

  /** Following an edge to an open vertex. */
  lemma RevisitKeeps<V(!new)>(edges: set<(V, V)>, s: Search<V>, w: V)
    requires Invariant(edges, s) && s.path != [] && (Last(s), w) in edges && w in s.onStack
    ensures Last(s) in s.lowlink
    ensures Invariant(edges, Look(Lower(s, Last(s), Min(s.lowlink[Last(s)], s.indices[w])), Last(s), w))
  {
    var v, k := Last(s), |s.path| - 1;
    TopOnStack(edges, s);
    var t := Lower(s, v, Min(s.lowlink[v], s.indices[w]));
    if s.indices[w] < s.lowlink[v] {
      EdgeReaches(edges, v, w);
      LowerKeeps(edges, s, k, s.indices[w], w);
    } else {
      assert s.lowlink[v := s.lowlink[v]] == s.lowlink;
      assert t == s;
    }
    LookKeeps(edges, t, k, w);
  }

  /** The lowlink that a parent has once it took over that of the vertex above it. */
  ghost function Inherited<V>(s: Search<V>): Search<V>
    requires |s.path| >= 2 && Last(s) in s.lowlink && s.path[|s.path| - 2] in s.lowlink
  {
    var p := s.path[|s.path| - 2];
    Lower(s, p, Min(s.lowlink[p], s.lowlink[Last(s)]))
  }

  lemma InheritLower<V(!new)>(edges: set<(V, V)>, s: Search<V>)
    requires Invariant(edges, s) && |s.path| >= 2 && Last(s) in s.lowlink && s.path[|s.path| - 2] in s.lowlink
    requires s.lowlink[Last(s)] < s.lowlink[s.path[|s.path| - 2]]
    ensures Invariant(edges, Inherited(s))
  {
    var k := |s.path| - 2;
    var v, p := Last(s), s.path[k];
    assert LowReached(edges, s, v);
    var z :| z in s.onStack && s.indices[z] == s.lowlink[v] && Reaches(edges, v, z);
    PathReaches(edges, s, k, k + 1);
    ReachesTransitive(edges, p, v, z);
    LowerKeeps(edges, s, k, s.lowlink[v], z);
  }

  lemma InheritSame<V>(s: Search<V>)
    requires |s.path| >= 2 && Last(s) in s.lowlink && s.path[|s.path| - 2] in s.lowlink
    requires s.lowlink[Last(s)] >= s.lowlink[s.path[|s.path| - 2]]
    ensures Inherited(s) == s
  {
    var p := s.path[|s.path| - 2];
    assert s.lowlink[p := s.lowlink[p]] == s.lowlink;
  }

  lemma InheritKeeps<V(!new)>(edges: set<(V, V)>, s: Search<V>)
    requires Invariant(edges, s) && |s.path| >= 2 && Last(s) in s.lowlink && s.path[|s.path| - 2] in s.lowlink
    ensures Invariant(edges, Inherited(s))
  {
    if s.lowlink[Last(s)] < s.lowlink[s.path[|s.path| - 2]] {
      InheritLower(edges, s);
    } else {
      InheritSame(s);
    }
  }

  /** Leaving a vertex whose lowlink points below it. */
  lemma ReturnKeeps<V(!new)>(edges: set<(V, V)>, s: Search<V>)
    requires Invariant(edges, s) && Exhausted(edges, s)
    requires Last(s) in s.lowlink && s.lowlink[Last(s)] != s.indices[Last(s)]
    ensures |s.path| >= 2 && s.path[|s.path| - 2] in s.lowlink
    ensures Invariant(edges, Lower(Leave(s), s.path[|s.path| - 2], Min(s.lowlink[s.path[|s.path| - 2]],
        s.lowlink[Last(s)])))
  {
    LowIsEarlier(edges, s);
    TopOnStack(edges, s);
    InheritKeeps(edges, s);
    LeaveInherited(edges, s);
  }

  lemma LeaveCommutes<V>(s: Search<V>, p: V, low: nat)
    requires s.path != []
    ensures Leave(Lower(s, p, low)) == Lower(Leave(s), p, low)
  {
  }

  lemma LeaveLowered<V(!new)>(edges: set<(V, V)>, s: Search<V>, t: Search<V>, p: V, low: nat)
    requires t == Lower(s, p, low) && Invariant(edges, t) && |t.path| >= 2 && Exhausted(edges, t)
    requires t.lowlink[t.path[|t.path| - 2]] <= t.lowlink[t.path[|t.path| - 1]] < t.indices[t.path[|t.path| - 1]]
    ensures Invariant(edges, Lower(Leave(s), p, low))
  {
    LeaveKeeps(edges, t);
    LeaveCommutes(s, p, low);
  }

  lemma InheritedReady<V(!new)>(edges: set<(V, V)>, s: Search<V>)
    requires |s.path| >= 2 && Last(s) in s.lowlink && s.path[|s.path| - 2] in s.lowlink
    requires s.path[|s.path| - 2] != Last(s) && Last(s) in s.indices && s.lowlink[Last(s)] < s.indices[Last(s)]
    requires Exhausted(edges, s)
    ensures
      var t := Inherited(s);
      Exhausted(edges, t) && Last(t) == Last(s) && t.path == s.path && t.indices == s.indices
      && t.lowlink[s.path[|s.path| - 2]] <= t.lowlink[Last(s)] < t.indices[Last(s)]
  {
  }

  lemma LeaveInherited<V(!new)>(edges: set<(V, V)>, s: Search<V>)
    requires |s.path| >= 2 && Last(s) in s.lowlink && s.path[|s.path| - 2] in s.lowlink
    requires s.path[|s.path| - 2] != Last(s) && Last(s) in s.indices && s.lowlink[Last(s)] < s.indices[Last(s)]
    requires Invariant(edges, Inherited(s)) && Exhausted(edges, s)
    ensures Invariant(edges, Lower(Leave(s), s.path[|s.path| - 2], Min(s.lowlink[s.path[|s.path| - 2]],
        s.lowlink[Last(s)])))
  {
    InheritedReady(edges, s);
    var p := s.path[|s.path| - 2];
    LeaveLowered(edges, s, Inherited(s), p, Min(s.lowlink[p], s.lowlink[Last(s)]));
  }

  /** Popping a whole component leaves the lowlink of the parent as it was. */
  lemma CloseInherits<V(!new)>(edges: set<(V, V)>, s: Search<V>, q: nat, comp: seq<V>)
    requires Numbering(s) && PathOrder(edges, s) && LowSound(edges, s) && |s.path| >= 2 && q <= |s.stack|
    requires s.lowlink[Last(s)] == s.indices[Last(s)]
    ensures s.path[|s.path| - 2] in s.lowlink
    ensures var p := s.path[|s.path| - 2];
      Lower(Close(s, q, comp), p, Min(s.lowlink[p], s.lowlink[Last(s)])) == Close(s, q, comp)
  {
    LowIsEarlier(edges, s);
    var p := s.path[|s.path| - 2];
    assert s.lowlink[p := s.lowlink[p]] == s.lowlink;
  }
}
