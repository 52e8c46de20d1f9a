/**
 * `detectCycles` of mcp/src/store.ts: the adjacency map, the iterative search with its explicit work
 * stack, and the components of two or more vertices it returns.  Vertices are qualified names there;
 * nothing in the search depends on that, so the vertex type stays a parameter.
 */
module CycleDetection {
  import opened Numbers
  import opened Digraph
  import opened SetFacts
  import opened CycleInvariant

  /** One row of the edge table: source and target. */
  datatype Row<V> = Row(s: V, t: V)

  datatype Frame<V> = Frame(v: V, i: nat)

  function Successors<V(==)>(adj: map<V, seq<V>>, v: V): seq<V> {
    if v in adj then adj[v] else []
  }

  ghost function EdgesOf<V>(rows: seq<Row<V>>): set<(V, V)> {
    set r | r in rows :: (r.s, r.t)
  }

  ghost function NodesOf<V>(rows: seq<Row<V>>): set<V> {
    (set r | r in rows :: r.s) + (set r | r in rows :: r.t)
  }

  /** The targets of the rows leaving `v`, in table order. */
  ghost function Targets<V>(rows: seq<Row<V>>, v: V): seq<V> {
    if rows == [] then []
    else
      var r := rows[|rows| - 1];
      Targets(rows[..|rows| - 1], v) + if r.s == v then [r.t] else []
  }

  lemma {:induction false} TargetsAreEdges<V>(rows: seq<Row<V>>, a: V, b: V)
    ensures b in Targets(rows, a) <==> (a, b) in EdgesOf(rows)
  {
    if rows == [] {
    } else {
      var init, r := rows[..|rows| - 1], rows[|rows| - 1];
      TargetsAreEdges(init, a, b);
      assert rows == init + [r];
      if (a, b) in EdgesOf(init) {
        var q :| q in init && (q.s, q.t) == (a, b);
        assert q in rows;
      }
      if r.s == a && r.t == b {
        assert r in rows;
      }
    }
  }

  lemma RowsSnoc<V>(rows: seq<Row<V>>, r: Row<V>)
    ensures NodesOf(rows + [r]) == NodesOf(rows) + {r.s, r.t}
    ensures forall v :: Targets(rows + [r], v) == Targets(rows, v) + if r.s == v then [r.t] else []
  {
    var all := rows + [r];
    assert all[..|all| - 1] == rows && all[|all| - 1] == r;
    assert forall q :: q in all <==> q in rows || q == r;
  }

  /** Insertion into a JavaScript `Set`, which keeps the order of first insertion. */
  function Insert<V(==, !new)>(nodes: seq<V>, v: V): (r: seq<V>)
    ensures Distinct(nodes) ==> Distinct(r)
    ensures forall x :: x in r <==> x in nodes || x == v
  {
    if v in nodes then nodes else nodes + [v]
  }

  /** Builds the adjacency lists and the vertex list, in order of first appearance. */
  method BuildAdjacency<V(==, !new)>(rows: seq<Row<V>>) returns (adj: map<V, seq<V>>, allNodes: seq<V>)
    ensures forall v :: Successors(adj, v) == Targets(rows, v)
    ensures Distinct(allNodes) && forall v :: v in allNodes <==> v in NodesOf(rows)
  {
    adj, allNodes := map[], [];
    for k := 0 to |rows|
      invariant forall v :: Successors(adj, v) == Targets(rows[..k], v)
      invariant Distinct(allNodes) && forall v :: v in allNodes <==> v in NodesOf(rows[..k])
    {
      var r := rows[k];
      assert rows[..k + 1] == rows[..k] + [r];
      RowsSnoc(rows[..k], r);
      adj := adj[r.s := Successors(adj, r.s) + [r.t]];
      allNodes := Insert(Insert(allNodes, r.s), r.t);
    }
    assert rows[..|rows|] == rows;
  }

  // ----- the search and its accounts -----

  /** The graph being searched: adjacency lists, the edges they stand for, and the vertices. */
  datatype Graph<V(==)> = Graph(adj: map<V, seq<V>>, edges: set<(V, V)>, nodes: set<V>)

  /** The adjacency lists hold exactly the edges, all between known vertices. */
  ghost predicate Represents<V(!new)>(g: Graph<V>) {
    && (forall a, b :: (a, b) in g.edges <==> b in Successors(g.adj, a))
    && (forall a, b :: (a, b) in g.edges ==> a in g.nodes && b in g.nodes)
  }

  /** A snapshot of the search with its work stack, the cycles returned so far, the vertices finished
      so far and the number of iterations made. */
  datatype Machine<V(==)> = Machine(
    search: Search<V>,
    work: seq<Frame<V>>,
    out: seq<seq<V>>,
    finished: seq<V>,
    steps: nat)

  /** Frame `f` belongs to `v`, and its counter is the number of edges of `v` looked at. */
  ghost predicate FrameOf<V>(adj: map<V, seq<V>>, looked: set<(V, V)>, f: Frame<V>, v: V) {
    && f.v == v && f.i <= |Successors(adj, v)|
    && forall y :: y in Successors(adj, v)[..f.i] ==> (v, y) in looked
  }

  /** The work stack holds the path. */
  ghost predicate Frames<V>(adj: map<V, seq<V>>, work: seq<Frame<V>>, path: seq<V>, looked: set<(V, V)>) {
    && |work| == |path|
    && forall k :: 0 <= k < |work| ==> FrameOf(adj, looked, work[k], path[k])
  }

  /** Iterations that moved the frames of `work` to their present counters. */
  ghost function Progress<V>(work: seq<Frame<V>>): nat {
    if work == [] then 0 else Progress(work[..|work| - 1]) + work[|work| - 1].i
  }

  /** Iterations spent on finished vertices: one an edge and one to finish. */
  ghost function Spent<V>(adj: map<V, seq<V>>, finished: seq<V>): nat {
    if finished == [] then 0
    else Spent(adj, finished[..|finished| - 1]) + |Successors(adj, finished[|finished| - 1])| + 1
  }

  ghost predicate Accounts<V(!new)>(adj: map<V, seq<V>>, numbered: set<V>, path: seq<V>, work: seq<Frame<V>>,
                                    finished: seq<V>, steps: nat) {
    && Distinct(finished)
    && (forall v :: v in finished <==> v in numbered && v !in path)
    && steps == Spent(adj, finished) + Progress(work)
  }

  /** The components of two or more vertices, in the order they were closed. */
  ghost function Cycles<V>(comps: seq<seq<V>>): seq<seq<V>> {
    if comps == [] then []
    else
      var c := comps[|comps| - 1];
      Cycles(comps[..|comps| - 1]) + if |c| >= 2 then [c] else []
  }

  ghost predicate Books<V(!new)>(g: Graph<V>, m: Machine<V>) {
    && Frames(g.adj, m.work, m.search.path, m.search.looked)
    && Accounts(g.adj, m.search.indices.Keys, m.search.path, m.work, m.finished, m.steps)
    && m.out == Cycles(m.search.comps)
  }

  /** The index counts the numbered vertices. */
  ghost predicate Counted<V>(g: Graph<V>, s: Search<V>) {
    s.indices.Keys <= g.nodes && |s.indices.Keys| == |s.order|
  }

  ghost predicate Good<V(!new)>(g: Graph<V>, m: Machine<V>) {
    Invariant(g.edges, m.search) && Counted(g, m.search) && Books(g, m)
  }

  lemma ProgressPush<V>(work: seq<Frame<V>>, f: Frame<V>)
    ensures Progress(work + [f]) == Progress(work) + f.i
  {
    assert (work + [f])[..|work|] == work;
  }

  lemma SpentPush<V>(adj: map<V, seq<V>>, finished: seq<V>, v: V)
    ensures Spent(adj, finished + [v]) == Spent(adj, finished) + |Successors(adj, v)| + 1
  {
    assert (finished + [v])[..|finished|] == finished;
  }

  lemma CyclesPush<V>(comps: seq<seq<V>>, c: seq<V>)
    ensures Cycles(comps + [c]) == Cycles(comps) + if |c| >= 2 then [c] else []
  {
    assert (comps + [c])[..|comps|] == comps;
  }

  // ----- the moves of the search -----

  /**
   * `Start` opens a root, `Advance` looks at the next successor of the last frame, `Close` finishes a
   * vertex whose lowlink is its index by popping `comp` off the stack down to position `q`, and
   * `Return` finishes any other vertex.
   */
  datatype Move<V> = Start(w: V) | Advance | Close(q: nat, comp: seq<V>) | Return

  ghost function Top<V>(m: Machine<V>): Frame<V>
    requires m.work != []
  {
    m.work[|m.work| - 1]
  }

  /** `comp` is the stack from position `q` up, last vertex first, and `v` occurs at `q` only. */
  ghost predicate Pops<V>(stack: seq<V>, v: V, q: nat, comp: seq<V>) {
    && q < |stack| && stack[q] == v && (forall j :: q < j < |stack| ==> stack[j] != v)
    && |comp| == |stack| - q && (forall j :: 0 <= j < |comp| ==> comp[j] == stack[|stack| - 1 - j])
  }

  /** The vertex of the last frame is numbered and so is its parent; the frame has a stack position. */
  ghost predicate TopKnown<V>(m: Machine<V>) {
    m.work != [] ==>
      var s := m.search;
      && s.path != [] && s.path[|s.path| - 1] == Top(m).v && |s.path| == |m.work|
      && Top(m).v in s.indices && Top(m).v in s.lowlink && Top(m).v in s.stack
      && (|m.work| >= 2 ==> m.work[|m.work| - 2].v == s.path[|s.path| - 2] && s.path[|s.path| - 2] in s.lowlink)
  }

  ghost predicate Enabled<V>(g: Graph<V>, m: Machine<V>, a: Move<V>) {
    && TopKnown(m)
    && match a
       case Start(w) => m.work == [] && w in g.nodes && w !in m.search.indices
       case Advance => m.work != [] && Top(m).i < |Successors(g.adj, Top(m).v)|
       case Close(q, comp) =>
         && m.work != [] && |Successors(g.adj, Top(m).v)| <= Top(m).i
         && m.search.lowlink[Top(m).v] == m.search.indices[Top(m).v]
         && Pops(m.search.stack, Top(m).v, q, comp)
       case Return =>
         && m.work != [] && |Successors(g.adj, Top(m).v)| <= Top(m).i
         && m.search.lowlink[Top(m).v] != m.search.indices[Top(m).v]
  }

  ghost function Initial<V>(): Machine<V> {
    Machine(Search([], map[], map[], {}, [], [], {}, []), [], [], [], 0)
  }

  ghost function Bumped<V>(work: seq<Frame<V>>): seq<Frame<V>>
    requires work != []
  {
    work[..|work| - 1] + [Frame(work[|work| - 1].v, work[|work| - 1].i + 1)]
  }

  /** Looking at successor `w`: number it, or use its index if it is open, or pass over it. */
  ghost function Advanced<V>(m: Machine<V>, w: V): Machine<V>
    requires m.work != [] && TopKnown(m)
  {
    var v, s := Top(m).v, m.search;
    if w !in s.indices then
      m.(search := Look(Visit(s, w), v, w), work := Bumped(m.work) + [Frame(w, 0)], steps := m.steps + 1)
    else if w in s.onStack then
      m.(search := Look(Lower(s, v, Min(s.lowlink[v], s.indices[w])), v, w), work := Bumped(m.work),
          steps := m.steps + 1)
    else
      m.(search := Look(s, v, w), work := Bumped(m.work), steps := m.steps + 1)
  }

  /** The parent of the last frame takes over its lowlink, if smaller. */
  ghost function Inherited<V>(m: Machine<V>, s: Search<V>): Search<V>
    requires m.work != [] && TopKnown(m)
  {
    if |m.work| == 1 then s
    else
      var p := m.work[|m.work| - 2].v;
      Lower(s, p, Min(m.search.lowlink[p], m.search.lowlink[Top(m).v]))
  }

  ghost function Apply<V>(g: Graph<V>, m: Machine<V>, a: Move<V>): Machine<V>
    requires Enabled(g, m, a)
  {
    match a
    case Start(w) => m.(search := Visit(m.search, w), work := m.work + [Frame(w, 0)])
    case Advance => Advanced(m, Successors(g.adj, Top(m).v)[Top(m).i])
    case Close(q, comp) =>
      Machine(Inherited(m, CycleInvariant.Close(m.search, q, comp)), m.work[..|m.work| - 1],
              m.out + if |comp| >= 2 then [comp] else [], m.finished + [Top(m).v], m.steps + 1)
    case Return =>
      m.(search := Inherited(m, Leave(m.search)), work := m.work[..|m.work| - 1],
         finished := m.finished + [Top(m).v], steps := m.steps + 1)
  }

  // ----- every move keeps the invariant -----

  lemma GoodTopKnown<V(!new)>(g: Graph<V>, m: Machine<V>)
    requires Numbering(m.search) && StackOrder(m.search) && PathOrder(g.edges, m.search)
    requires Frames(g.adj, m.work, m.search.path, m.search.looked)
    ensures TopKnown(m)
  {
    if m.work != [] {
      TopOnStack(g.edges, m.search);
    }
  }

  lemma VisitCounted<V(!new)>(g: Graph<V>, s: Search<V>, w: V)
    requires Counted(g, s) && w in g.nodes && w !in s.indices
    ensures Counted(g, Visit(s, w))
  {
    assert Visit(s, w).indices.Keys == s.indices.Keys + {w};
  }

  lemma VisitBooks<V(!new)>(g: Graph<V>, m: Machine<V>, w: V)
    requires Books(g, m) && w !in m.search.indices
    ensures Books(g, m.(search := Visit(m.search, w), work := m.work + [Frame(w, 0)]))
  {
    ProgressPush(m.work, Frame(w, 0));
    assert Visit(m.search, w).indices.Keys == m.search.indices.Keys + {w};
  }

  lemma StartGood<V(!new)>(g: Graph<V>, m: Machine<V>, w: V)
    requires Good(g, m) && Enabled(g, m, Start(w))
    ensures Good(g, Apply(g, m, Start(w)))
  {
    VisitKeeps(g.edges, m.search, w);
    VisitCounted(g, m.search, w);
    VisitBooks(g, m, w);
  }

  /** The edge the last frame looks at next. */
  lemma NextEdge<V(!new)>(g: Graph<V>, m: Machine<V>)
    requires Represents(g) && Enabled(g, m, Advance)
    ensures var w := Successors(g.adj, Top(m).v)[Top(m).i]; (Top(m).v, w) in g.edges && w in g.nodes
  {
  }

  lemma FrameBump<V>(adj: map<V, seq<V>>, looked: set<(V, V)>, f: Frame<V>, v: V)
    requires FrameOf(adj, looked, f, v) && f.i < |Successors(adj, v)|
    ensures FrameOf(adj, looked + {(v, Successors(adj, v)[f.i])}, Frame(v, f.i + 1), v)
  {
    assert Successors(adj, v)[..f.i + 1] == Successors(adj, v)[..f.i] + [Successors(adj, v)[f.i]];
  }

  lemma BumpFrames<V(!new)>(adj: map<V, seq<V>>, work: seq<Frame<V>>, path: seq<V>, looked: set<(V, V)>)
    requires Frames(adj, work, path, looked)
    requires work != [] && work[|work| - 1].i < |Successors(adj, work[|work| - 1].v)|
    ensures
      var f := work[|work| - 1];
      Frames(adj, Bumped(work), path, looked + {(f.v, Successors(adj, f.v)[f.i])})
    ensures Progress(Bumped(work)) == Progress(work) + 1
  {
    var n := |work| - 1;
    var f, v := work[n], work[n].v;
    var more := looked + {(v, Successors(adj, v)[f.i])};
    FrameBump(adj, looked, f, v);
    forall k | 0 <= k < |work|
      ensures FrameOf(adj, more, Bumped(work)[k], path[k])
    {
      assert FrameOf(adj, looked, work[k], path[k]);
    }
    ProgressPush(work[..n], f);
    ProgressPush(work[..n], Frame(v, f.i + 1));
    assert work == work[..n] + [f];
  }

  lemma AdvancedBooks<V(!new)>(g: Graph<V>, m: Machine<V>, w: V)
    requires Books(g, m) && Enabled(g, m, Advance)
    requires w == Successors(g.adj, Top(m).v)[Top(m).i]
    ensures Books(g, Advanced(m, w))
  {
    var s, v := m.search, Top(m).v;
    BumpBooks(g, m, w);
    if w !in s.indices {
      VisitBooks(g, Looked(m, w), w);
      assert Look(Visit(s, w), v, w) == Visit(Look(s, v, w), w);
    }
  }

  /** The machine after its last frame moved past `w`, before anything else is done about it. */
  ghost function Looked<V>(m: Machine<V>, w: V): Machine<V>
    requires m.work != []
  {
    m.(search := Look(m.search, Top(m).v, w), work := Bumped(m.work), steps := m.steps + 1)
  }

  lemma BumpBooks<V(!new)>(g: Graph<V>, m: Machine<V>, w: V)
    requires Books(g, m) && Enabled(g, m, Advance)
    requires w == Successors(g.adj, Top(m).v)[Top(m).i]
    ensures Books(g, Looked(m, w))
  {
    BumpFrames(g.adj, m.work, m.search.path, m.search.looked);
  }

  lemma AdvanceGood<V(!new)>(g: Graph<V>, m: Machine<V>)
    requires Represents(g) && Good(g, m) && Enabled(g, m, Advance)
    ensures Good(g, Apply(g, m, Advance))
  {
    NextEdge(g, m);
    var w := Successors(g.adj, Top(m).v)[Top(m).i];
    AdvancedBooks(g, m, w);
    AdvancedInvariant(g, m, w);
    AdvancedCounted(g, m, w);
  }

  lemma AdvancedCounted<V(!new)>(g: Graph<V>, m: Machine<V>, w: V)
    requires Counted(g, m.search) && m.work != [] && TopKnown(m) && w in g.nodes
    ensures Counted(g, Advanced(m, w).search)
  {
    if w !in m.search.indices {
      VisitCounted(g, m.search, w);
    }
  }

  lemma AdvancedInvariant<V(!new)>(g: Graph<V>, m: Machine<V>, w: V)
    requires Invariant(g.edges, m.search) && m.work != [] && TopKnown(m) && (Top(m).v, w) in g.edges
    ensures Invariant(g.edges, Advanced(m, w).search)
  {
    var s := m.search;
    if w !in s.indices {
      DiscoverKeeps(g.edges, s, w);
    } else if w in s.onStack {
      RevisitKeeps(g.edges, s, w);
    } else {
      LookKeeps(g.edges, s, |s.path| - 1, w);
    }
  }

  lemma FrameExhausted<V(!new)>(g: Graph<V>, m: Machine<V>)
    requires Represents(g) && Frames(g.adj, m.work, m.search.path, m.search.looked)
    requires m.work != [] && |Successors(g.adj, Top(m).v)| <= Top(m).i
    ensures Exhausted(g.edges, m.search)
  {
    var n := |m.work| - 1;
    assert FrameOf(g.adj, m.search.looked, m.work[n], m.search.path[n]);
    assert Successors(g.adj, Top(m).v)[..Top(m).i] == Successors(g.adj, Top(m).v);
  }

  lemma AccountsPop<V(!new)>(adj: map<V, seq<V>>, numbered: set<V>, path: seq<V>, work: seq<Frame<V>>,
                             finished: seq<V>, steps: nat, f: Frame<V>)
    requires Accounts(adj, numbered, path + [f.v], work + [f], finished, steps)
    requires f.i == |Successors(adj, f.v)| && f.v in numbered && f.v !in path
    ensures Accounts(adj, numbered, path, work, finished + [f.v], steps + 1)
  {
    SpentPush(adj, finished, f.v);
    ProgressPush(work, f);
  }

  lemma FramesPop<V(!new)>(adj: map<V, seq<V>>, work: seq<Frame<V>>, path: seq<V>, looked: set<(V, V)>)
    requires Frames(adj, work, path, looked) && work != []
    ensures Frames(adj, work[..|work| - 1], path[..|path| - 1], looked)
    ensures path == path[..|path| - 1] + [work[|work| - 1].v] && work == work[..|work| - 1] + [work[|work| - 1]]
    ensures work[|work| - 1].i <= |Successors(adj, work[|work| - 1].v)|
  {
    assert FrameOf(adj, looked, work[|work| - 1], path[|path| - 1]);
  }

  lemma PopBooks<V(!new)>(g: Graph<V>, m: Machine<V>)
    requires Books(g, m) && m.work != [] && |Successors(g.adj, Top(m).v)| <= Top(m).i
    requires Top(m).v in m.search.indices && Top(m).v !in m.search.path[..|m.search.path| - 1]
    ensures Books(g, m.(search := Leave(m.search), work := m.work[..|m.work| - 1],
                        finished := m.finished + [Top(m).v], steps := m.steps + 1))
  {
    var s := m.search;
    FramesPop(g.adj, m.work, s.path, s.looked);
    AccountsPop(g.adj, s.indices.Keys, s.path[..|s.path| - 1], m.work[..|m.work| - 1], m.finished, m.steps, Top(m));
  }

  lemma PathDistinct<V(!new)>(edges: set<(V, V)>, s: Search<V>)
    requires Numbering(s) && PathOrder(edges, s) && s.path != []
    ensures Last(s) !in s.path[..|s.path| - 1]
  {
  }

  lemma ReturnInvariant<V(!new)>(g: Graph<V>, m: Machine<V>)
    requires Invariant(g.edges, m.search) && Exhausted(g.edges, m.search) && Enabled(g, m, Return)
    ensures Invariant(g.edges, Apply(g, m, Return).search)
  {
    ReturnKeeps(g.edges, m.search);
  }

  lemma ReturnGood<V(!new)>(g: Graph<V>, m: Machine<V>)
    requires Represents(g) && Good(g, m) && Enabled(g, m, Return)
    ensures Good(g, Apply(g, m, Return))
  {
    FrameExhausted(g, m);
    ReturnInvariant(g, m);
    PathDistinct(g.edges, m.search);
    PopBooks(g, m);
  }

  lemma PopsSuffix<V>(stack: seq<V>, v: V, q: nat, comp: seq<V>, x: V)
    requires Pops(stack, v, q, comp)
    ensures x in comp <==> x in stack[q..]
  {
    var n := |stack| - 1;
    assert x in comp ==> exists j :: 0 <= j < |comp| && comp[j] == x && stack[q..][n - q - j] == x;
    if x in stack[q..] {
      var a :| 0 <= a < |stack| - q && stack[q..][a] == x;
      assert comp[n - q - a] == x;
    }
  }

  lemma SuffixSegment<V(!new)>(s: Search<V>, q: nat, x: V)
    requires Numbering(s) && StackOrder(s) && q < |s.stack|
    ensures s.stack[q] in s.indices
    ensures x in s.stack[q..] <==> x in s.onStack && s.indices[s.stack[q]] <= s.indices[x]
  {
    assert s.stack[q] in s.stack;
    if x in s.stack[q..] {
      var a :| q <= a < |s.stack| && s.stack[a] == x;
      assert q < a ==> s.indices[s.stack[q]] < s.indices[s.stack[a]];
    } else if x in s.onStack {
      var a :| 0 <= a < |s.stack| && s.stack[a] == x;
      assert q > a;
      assert s.indices[s.stack[a]] < s.indices[s.stack[q]];
    }
  }

  lemma PoppedSegment<V(!new)>(s: Search<V>, q: nat, comp: seq<V>)
    requires Numbering(s) && StackOrder(s) && s.path != [] && Last(s) in s.onStack
    requires Pops(s.stack, Last(s), q, comp)
    ensures LastSegment(s, comp)
  {
    forall x
      ensures x in comp <==> x in s.onStack && s.indices[Last(s)] <= s.indices[x]
    {
      PopsSuffix(s.stack, Last(s), q, comp, x);
      SuffixSegment(s, q, x);
    }
  }

  lemma PoppedDistinct<V(!new)>(s: Search<V>, v: V, q: nat, comp: seq<V>)
    requires StackOrder(s) && Pops(s.stack, v, q, comp)
    ensures Distinct(comp)
  {
    var n := |s.stack| - 1;
    forall i, j | 0 <= i < j < |comp|
      ensures comp[i] != comp[j]
    {
      assert s.indices[s.stack[n - j]] < s.indices[s.stack[n - i]];
    }
  }

  lemma PoppedCloses<V(!new)>(edges: set<(V, V)>, s: Search<V>, q: nat, comp: seq<V>)
    requires Invariant(edges, s) && Exhausted(edges, s) && Last(s) in s.lowlink
    requires s.lowlink[Last(s)] == s.indices[Last(s)] && Pops(s.stack, Last(s), q, comp)
    ensures Invariant(edges, CycleInvariant.Close(s, q, comp))
  {
    TopOnStack(edges, s);
    PoppedSegment(s, q, comp);
    PoppedDistinct(s, Last(s), q, comp);
    CloseKeeps(edges, s, q, comp);
  }

  lemma CloseSearch<V(!new)>(g: Graph<V>, m: Machine<V>, q: nat, comp: seq<V>)
    requires Numbering(m.search) && PathOrder(g.edges, m.search) && LowSound(g.edges, m.search)
    requires Enabled(g, m, Move.Close(q, comp))
    ensures Apply(g, m, Move.Close(q, comp)).search == CycleInvariant.Close(m.search, q, comp)
  {
    if |m.work| >= 2 {
      CloseInherits(g.edges, m.search, q, comp);
    }
  }

  lemma CloseBooks<V(!new)>(g: Graph<V>, m: Machine<V>, q: nat, comp: seq<V>)
    requires Books(g, m) && Enabled(g, m, Move.Close(q, comp))
    requires Top(m).v !in m.search.path[..|m.search.path| - 1]
    requires Apply(g, m, Move.Close(q, comp)).search == CycleInvariant.Close(m.search, q, comp)
    ensures Books(g, Apply(g, m, Move.Close(q, comp)))
  {
    PopBooks(g, m);
    CyclesPush(m.search.comps, comp);
  }

  lemma CloseGood<V(!new)>(g: Graph<V>, m: Machine<V>, q: nat, comp: seq<V>)
    requires Represents(g) && Good(g, m) && Enabled(g, m, Move.Close(q, comp))
    ensures Good(g, Apply(g, m, Move.Close(q, comp)))
  {
    FrameExhausted(g, m);
    PoppedCloses(g.edges, m.search, q, comp);
    CloseSearch(g, m, q, comp);
    PathDistinct(g.edges, m.search);
    CloseBooks(g, m, q, comp);
  }

  // ----- runs -----

  /** The adjacency lists fit the graph, and each move is enabled in the state the moves before it lead to. */
  ghost predicate Legal<V(!new)>(g: Graph<V>, moves: seq<Move<V>>)
    decreases |moves|, 0
  {
    if moves == [] then Represents(g)
    else Legal(g, moves[..|moves| - 1]) && Enabled(g, Replay(g, moves[..|moves| - 1]), moves[|moves| - 1])
  }

  ghost function Replay<V(!new)>(g: Graph<V>, moves: seq<Move<V>>): Machine<V>
    requires Legal(g, moves)
    decreases |moves|, 1
  {
    if moves == [] then Initial()
    else Apply(g, Replay(g, moves[..|moves| - 1]), moves[|moves| - 1])
  }

  ghost predicate Reached<V(!new)>(g: Graph<V>, m: Machine<V>) {
    exists moves :: Legal(g, moves) && Replay(g, moves) == m
  }

  lemma InitialGood<V(!new)>(g: Graph<V>)
    ensures Good(g, Initial<V>())
  {
  }

  lemma MoveGood<V(!new)>(g: Graph<V>, m: Machine<V>, a: Move<V>)
    requires Represents(g) && Good(g, m) && Enabled(g, m, a)
    ensures Good(g, Apply(g, m, a))
  {
    match a
    case Start(w) => StartGood(g, m, w);
    case Advance => AdvanceGood(g, m);
    case Close(q, comp) => CloseGood(g, m, q, comp);
    case Return => ReturnGood(g, m);
  }

  /** The invariant holds in every state of every run. */
  lemma {:induction false} RunsAreGood<V(!new)>(g: Graph<V>, moves: seq<Move<V>>)
    requires Legal(g, moves)
    ensures Represents(g) && Good(g, Replay(g, moves))
    decreases |moves|
  {
    if moves == [] {
      InitialGood(g);
    } else {
      RunsAreGood(g, moves[..|moves| - 1]);
      MoveGood(g, Replay(g, moves[..|moves| - 1]), moves[|moves| - 1]);
    }
  }

  lemma StartReached<V(!new)>(g: Graph<V>)
    requires Represents(g)
    ensures Reached(g, Initial<V>())
  {
    assert Legal(g, []) && Replay(g, []) == Initial<V>();
  }

  lemma MoveReached<V(!new)>(g: Graph<V>, m: Machine<V>, a: Move<V>)
    requires Reached(g, m) && Enabled(g, m, a)
    ensures Reached(g, Apply(g, m, a))
  {
    var moves :| Legal(g, moves) && Replay(g, moves) == m;
    var more := moves + [a];
    assert more[..|more| - 1] == moves;
    assert Legal(g, more) && Replay(g, more) == Apply(g, m, a);
  }

  lemma ReachedGood<V(!new)>(g: Graph<V>, m: Machine<V>)
    requires Reached(g, m)
    ensures Represents(g) && Good(g, m)
  {
    var moves :| Legal(g, moves) && Replay(g, moves) == m;
    RunsAreGood(g, moves);
  }

  /** What an iteration of the search relies on. */
  lemma ReachedTop<V(!new)>(g: Graph<V>, m: Machine<V>)
    requires Reached(g, m)
    ensures TopKnown(m) && (m.work != [] ==> Top(m).i <= |Successors(g.adj, Top(m).v)|)
  {
    ReachedGood(g, m);
    GoodTopKnown(g, m);
    if m.work != [] {
      assert FrameOf(g.adj, m.search.looked, m.work[|m.work| - 1], m.search.path[|m.work| - 1]);
    }
  }

  lemma ReachedCount<V(!new)>(g: Graph<V>, m: Machine<V>)
    requires Reached(g, m)
    ensures |m.search.order| <= |g.nodes|
  {
    ReachedGood(g, m);
    SubsetCount(m.search.indices.Keys, g.nodes);
  }

  // ----- the program -----

  /** Pops the stack down to and including `v`. */
  method PopComponent<V(==)>(stack0: seq<V>, onStack0: set<V>, v: V)
    returns (stack: seq<V>, onStack: set<V>, comp: seq<V>, ghost q: nat)
    requires v in stack0
    ensures Pops(stack0, v, q, comp)
    ensures stack == stack0[..q] && onStack == onStack0 - (set x | x in comp)
  {
    stack, onStack, comp := stack0, onStack0, [];
    while true
      invariant |stack| + |comp| == |stack0| && stack == stack0[..|stack|]
      invariant forall j :: 0 <= j < |comp| ==> comp[j] == stack0[|stack0| - 1 - j] && comp[j] != v
      invariant onStack == onStack0 - (set x | x in comp)
      invariant v in stack
      decreases |stack|
    {
      var w := stack[|stack| - 1];
      assert forall j :: |stack| <= j < |stack0| ==> stack0[j] == comp[|stack0| - 1 - j];
      stack := stack[..|stack| - 1];
      onStack := onStack - {w};
      comp := comp + [w];
      if w == v {
        break;
      }
    }
    q := |stack|;
  }

  /** The program variables hold the fields of the snapshot. */
  ghost predicate Mirrors<V>(m: Machine<V>, index: nat, indices: map<V, nat>, lowlink: map<V, nat>, onStack: set<V>,
                             stack: seq<V>, work: seq<Frame<V>>, out: seq<seq<V>>) {
    && |m.search.order| == index && m.search.indices == indices && m.search.lowlink == lowlink
    && m.search.onStack == onStack && m.search.stack == stack && m.work == work && m.out == out
  }

  /** Iterations still to be made on behalf of the frames of `work`. */
  ghost function Remaining<V>(adj: map<V, seq<V>>, work: seq<Frame<V>>): nat {
    if work == [] then 0
    else
      var f := work[|work| - 1];
      Remaining(adj, work[..|work| - 1]) +
      if f.i <= |Successors(adj, f.v)| then |Successors(adj, f.v)| - f.i + 1 else 0
  }

  lemma RemainingBumped<V>(adj: map<V, seq<V>>, work: seq<Frame<V>>)
    requires work != [] && work[|work| - 1].i < |Successors(adj, work[|work| - 1].v)|
    ensures Remaining(adj, Bumped(work)) < Remaining(adj, work)
  {
    assert Bumped(work)[..|work| - 1] == work[..|work| - 1];
  }

  /** Looks at the next successor of the last frame. */
  method ScanNext<V(==, !new)>(
    adj: map<V, seq<V>>, index0: nat, indices0: map<V, nat>, lowlink0: map<V, nat>, onStack0: set<V>,
    stack0: seq<V>, work0: seq<Frame<V>>, out: seq<seq<V>>, ghost g: Graph<V>, ghost m: Machine<V>)
    returns (index: nat, indices: map<V, nat>, lowlink: map<V, nat>, onStack: set<V>, stack: seq<V>,
             work: seq<Frame<V>>)
    requires Mirrors(m, index0, indices0, lowlink0, onStack0, stack0, work0, out)
    requires g.adj == adj && Enabled(g, m, Advance)
    ensures Mirrors(Apply(g, m, Advance), index, indices, lowlink, onStack, stack, work, out)
    ensures forall v :: v in indices0 ==> v in indices
    ensures index0 < index || (index == index0 && work == Bumped(work0))
  {
    index, indices, lowlink, onStack, stack := index0, indices0, lowlink0, onStack0, stack0;
    var frame := work0[|work0| - 1];
    var w := Successors(adj, frame.v)[frame.i];
    work := work0[..|work0| - 1] + [Frame(frame.v, frame.i + 1)];
    if w !in indices {
      indices := indices[w := index];
      lowlink := lowlink[w := index];
      index := index + 1;
      stack := stack + [w];
      onStack := onStack + {w};
      work := work + [Frame(w, 0)];
    } else if w in onStack {
      lowlink := lowlink[frame.v := Min(lowlink[frame.v], indices[w])];
    }
  }

  /** Closes the component of `v` if `v` is the first of it. */
  method EmitComponent<V(==, !new)>(v: V, indices: map<V, nat>, lowlink: map<V, nat>, onStack0: set<V>, stack0: seq<V>,
                                    out0: seq<seq<V>>, ghost g: Graph<V>, ghost m: Machine<V>)
    returns (onStack: set<V>, stack: seq<V>, out: seq<seq<V>>, ghost a: Move<V>)
    requires m.work != [] && TopKnown(m) && Top(m).v == v && |Successors(g.adj, v)| <= Top(m).i
    requires Mirrors(m, |m.search.order|, indices, lowlink, onStack0, stack0, m.work, out0)
    ensures Enabled(g, m, a) && (a.Close? || a.Return?)
    ensures Apply(g, m, a).search.onStack == onStack && Apply(g, m, a).search.stack == stack
            && Apply(g, m, a).out == out
  {
    onStack, stack, out, a := onStack0, stack0, out0, Return;
    if lowlink[v] == indices[v] {
      var comp;
      ghost var q;
      stack, onStack, comp, q := PopComponent(stack, onStack, v);
      a := Move.Close(q, comp);
      if |comp| >= 2 {
        out := out + [comp];
      }
    }
  }

  /** Finishes the vertex of the last frame and hands its lowlink to its parent. */
  method FinishVertex<V(==, !new)>(
    adj: map<V, seq<V>>, index: nat, indices: map<V, nat>, lowlink0: map<V, nat>, onStack0: set<V>,
    stack0: seq<V>, work0: seq<Frame<V>>, out0: seq<seq<V>>, ghost g: Graph<V>, ghost m: Machine<V>)
    returns (lowlink: map<V, nat>, onStack: set<V>, stack: seq<V>, work: seq<Frame<V>>, out: seq<seq<V>>,
             ghost a: Move<V>)
    requires Mirrors(m, index, indices, lowlink0, onStack0, stack0, work0, out0)
    requires g.adj == adj && TopKnown(m) && work0 != []
    requires |Successors(adj, work0[|work0| - 1].v)| == work0[|work0| - 1].i
    ensures Enabled(g, m, a) && Mirrors(Apply(g, m, a), index, indices, lowlink, onStack, stack, work, out)
    ensures Remaining(adj, work) < Remaining(adj, work0)
  {
    lowlink := lowlink0;
    var frame := work0[|work0| - 1];
    onStack, stack, out, a := EmitComponent(frame.v, indices, lowlink, onStack0, stack0, out0, g, m);
    work := work0[..|work0| - 1];
    if |work| > 0 {
      var parent := work[|work| - 1];
      lowlink := lowlink[parent.v := Min(lowlink[parent.v], lowlink[frame.v])];
    }
  }

  /** A move other than a start is one step to a reached state. */
  lemma Moved<V(!new)>(g: Graph<V>, m0: Machine<V>, a: Move<V>) returns (m: Machine<V>)
    requires Reached(g, m0) && Enabled(g, m0, a) && !a.Start?
    ensures m == Apply(g, m0, a) && Reached(g, m) && m.steps == m0.steps + 1 && |m.search.order| <= |g.nodes|
  {
    m := Apply(g, m0, a);
    MoveReached(g, m0, a);
    ReachedCount(g, m);
  }

  /** One turn of the work loop: the next successor of the last frame, or its end. */
  method Turn<V(==, !new)>(
    adj: map<V, seq<V>>, index0: nat, indices0: map<V, nat>, lowlink0: map<V, nat>, onStack0: set<V>,
    stack0: seq<V>, work0: seq<Frame<V>>, out0: seq<seq<V>>, ghost g: Graph<V>, ghost m0: Machine<V>)
    returns (index: nat, indices: map<V, nat>, lowlink: map<V, nat>, onStack: set<V>, stack: seq<V>,
             work: seq<Frame<V>>, out: seq<seq<V>>, ghost m: Machine<V>)
    requires g.adj == adj && work0 != []
    requires Reached(g, m0) && Mirrors(m0, index0, indices0, lowlink0, onStack0, stack0, work0, out0)
    ensures Reached(g, m) && Mirrors(m, index, indices, lowlink, onStack, stack, work, out) && m.steps == m0.steps + 1
    ensures forall v :: v in indices0 ==> v in indices
    ensures index0 < index <= |g.nodes| || (index == index0 && Remaining(adj, work) < Remaining(adj, work0))
  {
    index, indices, out := index0, indices0, out0;
    ReachedTop(g, m0);
    var frame := work0[|work0| - 1];
    ghost var a := Advance;
    if frame.i < |Successors(adj, frame.v)| {
      RemainingBumped(adj, work0);
      index, indices, lowlink, onStack, stack, work :=
        ScanNext(adj, index0, indices0, lowlink0, onStack0, stack0, work0, out0, g, m0);
    } else {
      lowlink, onStack, stack, work, out, a :=
        FinishVertex(adj, index0, indices0, lowlink0, onStack0, stack0, work0, out0, g, m0);
    }
    m := Moved(g, m0, a);
  }

  /** One search from the root `v0`; the variables of the closure are passed in and handed back. */
  method StrongConnect<V(==, !new)>(
    adj: map<V, seq<V>>, v0: V, index0: nat, indices0: map<V, nat>, lowlink0: map<V, nat>, onStack0: set<V>,
    stack0: seq<V>, out0: seq<seq<V>>, iterations0: nat, ghost g: Graph<V>, ghost m0: Machine<V>)
    returns (index: nat, indices: map<V, nat>, lowlink: map<V, nat>, onStack: set<V>,
             stack: seq<V>, out: seq<seq<V>>, iterations: nat, ghost m: Machine<V>)
    requires g.adj == adj && v0 in g.nodes && v0 !in indices0 && iterations0 == m0.steps
    requires Reached(g, m0) && Mirrors(m0, index0, indices0, lowlink0, onStack0, stack0, [], out0)
    ensures Reached(g, m) && Mirrors(m, index, indices, lowlink, onStack, stack, [], out)
    ensures v0 in indices && (forall v :: v in indices0 ==> v in indices) && iterations == m.steps
  {
    ReachedTop(g, m0);
    MoveReached(g, m0, Start(v0));
    m := Apply(g, m0, Start(v0));
    out, iterations := out0, iterations0;
    var work := [Frame(v0, 0)];
    indices := indices0[v0 := index0];
    lowlink := lowlink0[v0 := index0];
    index := index0 + 1;
    stack := stack0 + [v0];
    onStack := onStack0 + {v0};
    while |work| > 0
      invariant Reached(g, m) && Mirrors(m, index, indices, lowlink, onStack, stack, work, out)
      invariant v0 in indices && (forall v :: v in indices0 ==> v in indices) && iterations == m.steps
      decreases |g.nodes| - index, Remaining(adj, work)
    {
      index, indices, lowlink, onStack, stack, work, out, m :=
        Turn(adj, index, indices, lowlink, onStack, stack, work, out, g, m);
      iterations := iterations + 1;
    }
  }

  // ----- what the search returns -----

  /** No vertex of a list reaches a vertex of a later one. */
  ghost predicate NoneForward<V(!new)>(edges: set<(V, V)>, comps: seq<seq<V>>) {
    forall c, d, x, y :: 0 <= c < d < |comps| && x in comps[c] && y in comps[d] ==> !Reaches(edges, x, y)
  }

  lemma {:induction false} CyclesKeep<V(!new)>(edges: set<(V, V)>, comps: seq<seq<V>>)
    requires NoneForward(edges, comps)
    ensures NoneForward(edges, Cycles(comps))
    ensures forall c :: c in Cycles(comps) <==> c in comps && |c| >= 2
  {
    if comps != [] {
      var init, last := comps[..|comps| - 1], comps[|comps| - 1];
      assert comps == init + [last];
      CyclesKeep(edges, init);
      assert forall c, x :: 0 <= c < |init| && x in init[c] ==> x in comps[c];
    }
  }

  /** Summed length of the target lists of the vertices of `f`. */
  ghost function OutTotal<V>(rows: seq<Row<V>>, f: seq<V>): nat {
    if f == [] then 0 else OutTotal(rows, f[..|f| - 1]) + |Targets(rows, f[|f| - 1])|
  }

  lemma {:induction false} OutTotalSnoc<V(!new)>(rows: seq<Row<V>>, r: Row<V>, f: seq<V>)
    requires Distinct(f)
    ensures OutTotal(rows + [r], f) == OutTotal(rows, f) + if r.s in f then 1 else 0
  {
    RowsSnoc(rows, r);
    if f != [] {
      var init, v := f[..|f| - 1], f[|f| - 1];
      assert f == init + [v];
      OutTotalSnoc(rows, r, init);
    }
  }

  lemma {:induction false} OutTotalEmpty<V(!new)>(f: seq<V>)
    ensures OutTotal([], f) == 0
  {
    if f != [] {
      OutTotalEmpty(f[..|f| - 1]);
    }
  }

  /** Distinct vertices including every source account for every row once. */
  lemma {:induction false} OutTotalAll<V(!new)>(rows: seq<Row<V>>, f: seq<V>)
    requires Distinct(f) && forall r :: r in rows ==> r.s in f
    ensures OutTotal(rows, f) == |rows|
  {
    if rows == [] {
      OutTotalEmpty(f);
    } else {
      var init, r := rows[..|rows| - 1], rows[|rows| - 1];
      assert rows == init + [r];
      OutTotalAll(init, f);
      OutTotalSnoc(init, r, f);
    }
  }

  lemma {:induction false} SpentIs<V(!new)>(adj: map<V, seq<V>>, rows: seq<Row<V>>, f: seq<V>)
    requires forall v :: Successors(adj, v) == Targets(rows, v)
    ensures Spent(adj, f) == |f| + OutTotal(rows, f)
  {
    if f != [] {
      SpentIs(adj, rows, f[..|f| - 1]);
    }
  }

  /** A finished search has numbered, completed and finished every vertex. */
  lemma FinishedSearch<V(!new)>(g: Graph<V>, m: Machine<V>)
    requires Reached(g, m) && m.work == [] && forall v :: v in g.nodes ==> v in m.search.indices
    ensures Completed(g.edges, g.nodes, m.search.comps) && m.out == Cycles(m.search.comps)
    ensures Distinct(m.finished) && (set v | v in m.finished) == g.nodes
    ensures m.steps == Spent(g.adj, m.finished)
  {
    ReachedGood(g, m);
    assert m.search.path == [];
    NothingOpen(g.edges, m.search);
    assert Done(m.search) == g.nodes;
  }

  lemma NothingOpen<V(!new)>(edges: set<(V, V)>, s: Search<V>)
    requires Numbering(s) && PathOrder(edges, s) && s.path == []
    ensures s.onStack == {} && Done(s) == s.indices.Keys
  {
    assert forall x :: x in s.onStack ==> |s.path| > 0;
  }

  /** The search makes one iteration a vertex and one a row. */
  lemma StepCount<V(!new)>(rows: seq<Row<V>>, adj: map<V, seq<V>>, finished: seq<V>)
    requires forall v :: Successors(adj, v) == Targets(rows, v)
    requires Distinct(finished) && (set v | v in finished) == NodesOf(rows)
    ensures Spent(adj, finished) == |NodesOf(rows)| + |rows|
  {
    forall r | r in rows
      ensures r.s in finished
    {
      assert r.s in NodesOf(rows);
      assert r.s in (set v | v in finished);
    }
    SpentIs(adj, rows, finished);
    OutTotalAll(rows, finished);
    DistinctCount(finished);
  }

  lemma RowsRepresented<V(!new)>(rows: seq<Row<V>>, adj: map<V, seq<V>>)
    requires forall v :: Successors(adj, v) == Targets(rows, v)
    ensures Represents(Graph(adj, EdgesOf(rows), NodesOf(rows)))
  {
    forall a, b
      ensures (a, b) in EdgesOf(rows) <==> b in Successors(adj, a)
    {
      TargetsAreEdges(rows, a, b);
    }
  }

  /** Two distinct vertices that reach each other lie in a listed cycle. */
  lemma CycleListed<V(!new)>(g: Graph<V>, comps: seq<seq<V>>, a: V, b: V)
    requires Represents(g) && Completed(g.edges, g.nodes, comps)
    requires a != b && Mutual(g.edges, a, b)
    ensures exists c :: c in Cycles(comps) && a in c && b in c
  {
    var via :| Walk(g.edges, a, via, b);
    assert (a, via[0]) in g.edges;
    assert a in g.nodes;
    var i :| 0 <= i < |comps| && a in comps[i];
    var c := comps[i];
    assert IsComponent(g.edges, c);
    assert b in c;
    TwoMembers(c, a, b);
    CyclesKeep(g.edges, comps);
  }

  lemma TwoMembers<V>(c: seq<V>, a: V, b: V)
    requires a in c && b in c && a != b
    ensures |c| >= 2
  {
  }

  lemma CyclesSound<V(!new)>(edges: set<(V, V)>, done: set<V>, comps: seq<seq<V>>)
    requires Completed(edges, done, comps)
    ensures forall c :: c in Cycles(comps) ==> |c| >= 2 && Distinct(c) && IsComponent(edges, c)
    ensures NoneForward(edges, Cycles(comps))
  {
    CyclesKeep(edges, comps);
    forall c | c in Cycles(comps)
      ensures |c| >= 2 && Distinct(c) && IsComponent(edges, c)
    {
      var i :| 0 <= i < |comps| && comps[i] == c;
    }
  }

  /** Searches from every vertex not reached before. */
  method SearchAll<V(==, !new)>(adj: map<V, seq<V>>, allNodes: seq<V>, ghost g: Graph<V>)
    returns (out: seq<seq<V>>, iterations: nat, ghost m: Machine<V>)
    requires Represents(g) && g.adj == adj && forall v :: v in allNodes <==> v in g.nodes
    ensures Reached(g, m) && m.work == [] && m.out == out && m.steps == iterations
    ensures forall v :: v in g.nodes ==> v in m.search.indices
  {
    var index: nat, indices: map<V, nat>, lowlink: map<V, nat> := 0, map[], map[];
    var onStack: set<V>, stack: seq<V> := {}, [];
    out, iterations := [], 0;
    m := Initial<V>();
    StartReached(g);
    for k := 0 to |allNodes|
      invariant Reached(g, m) && Mirrors(m, index, indices, lowlink, onStack, stack, [], out)
      invariant (forall j :: 0 <= j < k ==> allNodes[j] in indices) && iterations == m.steps
    {
      var v := allNodes[k];
      if v !in indices {
        index, indices, lowlink, onStack, stack, out, iterations, m :=
          StrongConnect(adj, v, index, indices, lowlink, onStack, stack, out, iterations, g, m);
      }
    }
  }

  lemma CyclesComplete<V(!new)>(g: Graph<V>, m: Machine<V>)
    requires Reached(g, m) && m.work == [] && forall v :: v in g.nodes ==> v in m.search.indices
    ensures forall a, b :: a != b && Mutual(g.edges, a, b) ==> exists c :: c in m.out && a in c && b in c
  {
    FinishedSearch(g, m);
    ReachedGood(g, m);
    forall a, b | a != b && Mutual(g.edges, a, b)
      ensures exists c :: c in m.out && a in c && b in c
    {
      CycleListed(g, m.search.comps, a, b);
    }
  }

  /** No vertex is in two components, since none reaches a later one and every vertex reaches itself. */
  lemma ListedApart<V(!new)>(edges: set<(V, V)>, comps: seq<seq<V>>)
    requires NoneForward(edges, comps)
    ensures forall c, d, x :: 0 <= c < d < |comps| && x in comps[c] ==> x !in comps[d]
  {
    forall c, d, x | 0 <= c < d < |comps| && x in comps[c]
      ensures x !in comps[d]
    {
      assert Walk(edges, x, [], x);
      assert Reaches(edges, x, x);
    }
  }

  /**
   * The strongly connected components of two or more vertices of the edge table, each once and without
   * repetition, none reaching a later one; `iterations` counts the turns of the work loop over all roots.
   */
  method DetectCycles<V(==, !new)>(rows: seq<Row<V>>) returns (out: seq<seq<V>>, iterations: nat)
    ensures forall c :: c in out ==> |c| >= 2 && Distinct(c) && IsComponent(EdgesOf(rows), c)
    ensures forall a, b :: a != b && Mutual(EdgesOf(rows), a, b) ==> exists c :: c in out && a in c && b in c
    ensures NoneForward(EdgesOf(rows), out)
    ensures forall c, d, x :: 0 <= c < d < |out| && x in out[c] ==> x !in out[d]
    ensures iterations == |NodesOf(rows)| + |rows|
  {
    var adj, allNodes := BuildAdjacency(rows);
    ghost var g := Graph(adj, EdgesOf(rows), NodesOf(rows));
    RowsRepresented(rows, adj);
    ghost var m;
    out, iterations, m := SearchAll(adj, allNodes, g);
    FinishedSearch(g, m);
    StepCount(rows, adj, m.finished);
    CyclesSound(g.edges, g.nodes, m.search.comps);
    CyclesComplete(g, m);
    ListedApart(g.edges, out);
  }
}
