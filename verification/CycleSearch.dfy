/**
 detectCycles: the depth-first search that reports one cycle for each edge back into its own stack.

 `Visit`, `Follow` and `Scan` are the search as functions from state to state; the class below
 does the same in place. What the search promises is proved of the functions: every report is a
 simple cycle, and the nodes finish in an order in which exactly the reported closing edges do
 not lead to an earlier node. So every closed walk of the graph, listed or not, runs over the
 closing edge of some report.
 */
module CycleSearch {
  import opened Utf16
  import opened Topology

  type Adjacency = map<Text, seq<GraphEdge>>

  datatype Cycle = Cycle(path: seq<Text>, edges: seq<GraphEdge>)

  /** Edges are listed under their source and lead to nodes. */
  ghost predicate Walkable(out: Adjacency) {
    forall n, e :: n in out && e in out[n] ==> e.sourceId == n && e.targetId in out
  }

  ghost predicate Has(out: Adjacency, e: GraphEdge) {
    e.sourceId in out && e in out[e.sourceId]
  }

  /** Each edge starts where the one before it ends, and the first where the last ends. */
  ghost predicate ClosedWalk(out: Adjacency, es: seq<GraphEdge>) {
    && es != []
    && (forall e :: e in es ==> Has(out, e))
    && (forall i :: 0 < i < |es| ==> es[i].sourceId == es[i - 1].targetId)
    && es[0].sourceId == es[|es| - 1].targetId
  }

  ghost predicate Acyclic(out: Adjacency) {
    forall es :: !ClosedWalk(out, es)
  }

  /** The i-th edge joins path[i] to path[i + 1]; the path returns to its start and repeats nothing else. */
  ghost predicate SimpleCycle(out: Adjacency, c: Cycle) {
    && |c.edges| > 0 && |c.path| == |c.edges| + 1
    && (forall i :: 0 <= i < |c.edges| ==>
          Has(out, c.edges[i]) && c.edges[i].sourceId == c.path[i] && c.edges[i].targetId == c.path[i + 1])
    && c.path[|c.edges|] == c.path[0]
    && Distinct(c.path[..|c.edges|])
  }

  /** Some report ends with this edge. */
  ghost predicate Closes(reports: seq<Cycle>, e: GraphEdge) {
    exists c :: c in reports && c.edges != [] && c.edges[|c.edges| - 1] == e
  }

  function IndexOf(s: seq<Text>, x: Text): (i: int)
    ensures -1 <= i < |s| && (i >= 0 ==> s[i] == x) && (i < 0 ==> x !in s)
  {
    if s == [] then -1
    else
      var i := IndexOf(s[..|s| - 1], x);
      if i >= 0 then i else if s[|s| - 1] == x then |s| - 1 else -1
  }

  // ---------- the search ----------

  /** `finished` lists the nodes whose visit has ended, in the order in which they ended. */
  datatype Search = Search(
    visited: set<Text>, stack: seq<Text>, edgeStack: seq<GraphEdge>, detected: seq<Cycle>, finished: seq<Text>)

  /** Array.slice from an index that may be past the end. */
  function From<T>(s: seq<T>, i: nat): seq<T> {
    if i <= |s| then s[i..] else []
  }

  /** The cycle that closes when the last edge pushed leads back to a node of the stack. */
  function Report(s: Search, next: Text): Search {
    var startIndex := IndexOf(s.stack, next);
    if startIndex != -1 then
      s.(detected := s.detected + [Cycle(From(s.stack, startIndex) + [next], From(s.edgeStack, startIndex))])
    else s
  }

  ghost function Visit(out: Adjacency, n: Text, s: Search): (t: Search)
    requires Walkable(out) && n in out && n !in s.visited
    ensures s.visited + {n} <= t.visited && t.stack == s.stack && t.edgeStack == s.edgeStack
    decreases out.Keys - s.visited, 0
  {
    var t := Scan(out, out[n], s.(visited := s.visited + {n}, stack := s.stack + [n]));
    t.(stack := t.stack[..|t.stack| - 1], finished := t.finished + [n])
  }

  ghost function Follow(out: Adjacency, e: GraphEdge, s: Search): (t: Search)
    requires Walkable(out) && e.targetId in out
    ensures s.visited <= t.visited && t.stack == s.stack && t.edgeStack == s.edgeStack
    decreases out.Keys - s.visited, 1
  {
    var pushed := s.(edgeStack := s.edgeStack + [e]);
    var t := if e.targetId in s.stack then Report(pushed, e.targetId)
             else if e.targetId !in s.visited then Visit(out, e.targetId, pushed)
             else pushed;
    t.(edgeStack := t.edgeStack[..|t.edgeStack| - 1])
  }

  ghost function Scan(out: Adjacency, edges: seq<GraphEdge>, s: Search): (t: Search)
    requires Walkable(out) && forall e :: e in edges ==> e.targetId in out
    ensures s.visited <= t.visited && t.stack == s.stack && t.edgeStack == s.edgeStack
    decreases out.Keys - s.visited, 2 + |edges|
  {
    if edges == [] then s else Scan(out, edges[1..], Follow(out, edges[0], s))
  }

  lemma {:induction false} ScanFirst(out: Adjacency, edges: seq<GraphEdge>, i: nat, s: Search)
    requires Walkable(out) && i < |edges| && forall e :: e in edges ==> e.targetId in out
    ensures Scan(out, edges[i..], s) == Scan(out, edges[i + 1..], Follow(out, edges[i], s))
  {
    assert edges[i..][1..] == edges[i + 1..];
  }

  ghost function Roots(out: Adjacency, order: seq<Text>, s: Search): Search
    requires Walkable(out) && forall n :: n in order ==> n in out
  {
    if order == [] then s
    else Roots(out, order[1..], if order[0] in s.visited then s else Visit(out, order[0], s))
  }

  const START: Search := Search({}, [], [], [], [])

  // ---------- what holds between calls ----------

  /** The nodes on the stack are joined by the edges beside them. */
  ghost predicate Linked(out: Adjacency, stack: seq<Text>, edgeStack: seq<GraphEdge>) {
    forall i :: 0 <= i < |edgeStack| && i < |stack| ==>
      && Has(out, edgeStack[i]) && edgeStack[i].sourceId == stack[i]
      && (i + 1 < |stack| ==> edgeStack[i].targetId == stack[i + 1])
  }

  /** Every visited node is on the stack or finished, and never both. */
  ghost predicate Sorted(s: Search) {
    && Distinct(s.stack) && Distinct(s.finished)
    && (forall n :: n in s.visited <==> n in s.stack || n in s.finished)
    && (forall n :: n in s.stack ==> n !in s.finished)
  }

  ghost predicate Sound(out: Adjacency, s: Search) {
    forall c :: c in s.detected ==> SimpleCycle(out, c) && c.edges[|c.edges| - 1].sourceId in s.visited
  }

  /** An edge out of the k-th node to finish is reported exactly when it does not lead to an earlier one. */
  ghost predicate Settled(out: Adjacency, s: Search, k: nat)
    requires k < |s.finished|
  {
    s.finished[k] in out
    && forall e :: e in out[s.finished[k]] ==> (Closes(s.detected, e) <==> e.targetId !in s.finished[..k])
  }

  ghost predicate Invariant(out: Adjacency, s: Search) {
    && Sorted(s) && Sound(out, s) && Linked(out, s.stack, s.edgeStack)
    && forall k :: 0 <= k < |s.finished| ==> Settled(out, s, k)
  }

  /** What a step from `s` to `t` may add while it works below `n`. */
  ghost predicate Grows(s: Search, t: Search, n: Text) {
    && s.finished <= t.finished && s.detected <= t.detected
    && forall c :: c in t.detected && c !in s.detected ==>
         c.edges != []
         && (c.edges[|c.edges| - 1].sourceId == n || c.edges[|c.edges| - 1].sourceId !in s.visited)
  }

  /** How far the edges out of the top node have been handled. */
  ghost predicate Handled(s: Search, e: GraphEdge) {
    e.targetId in s.visited && (e.targetId in s.stack ==> Closes(s.detected, e))
  }

  /** The top node is `n`, and none of its edges was reported for another reason. */
  ghost predicate At(out: Adjacency, s: Search, n: Text) {
    && Invariant(out, s) && n in out && |s.stack| == |s.edgeStack| + 1 && s.stack[|s.stack| - 1] == n
    && forall e :: e in out[n] && Closes(s.detected, e) ==> e.targetId in s.stack
  }

  // ---------- reporting ----------

  lemma {:induction false} ReportIsSimple(out: Adjacency, s: Search, e: GraphEdge, n: Text)
    requires Walkable(out) && At(out, s, n) && e in out[n] && e.targetId in s.stack
    ensures var t := Report(s.(edgeStack := s.edgeStack + [e]), e.targetId);
            && |t.detected| == |s.detected| + 1 && t.detected[..|s.detected|] == s.detected
            && SimpleCycle(out, t.detected[|s.detected|])
            && var c := t.detected[|s.detected|]; c.edges[|c.edges| - 1] == e
  {
    var start := IndexOf(s.stack, e.targetId);
    var edges := s.edgeStack + [e];
    var c := Cycle(s.stack[start..] + [e.targetId], edges[start..]);
    forall i | 0 <= i < |c.edges|
      ensures Has(out, c.edges[i]) && c.edges[i].sourceId == c.path[i] && c.edges[i].targetId == c.path[i + 1]
    {
      assert c.edges[i] == edges[start + i] && c.path[i] == s.stack[start + i];
    }
    assert c.path[..|c.edges|] == s.stack[start..];
  }

  lemma {:induction false} ClosesPush(reports: seq<Cycle>, c: Cycle, e: GraphEdge)
    requires c.edges != []
    ensures Closes(reports + [c], e) <==> Closes(reports, e) || c.edges[|c.edges| - 1] == e
  {
    assert c in reports + [c];
    assert forall d :: d in reports ==> d in reports + [c];
  }

  /** Reports made below `n` do not change what is known of edges out of other visited nodes. */
  lemma {:induction false} ClosesKept(s: Search, t: Search, n: Text, e: GraphEdge)
    requires Grows(s, t, n) && e.sourceId in s.visited && e.sourceId != n
    ensures Closes(t.detected, e) <==> Closes(s.detected, e)
  {
    assert forall c :: c in s.detected ==> c in t.detected;
  }

  lemma {:induction false} FollowBack(out: Adjacency, e: GraphEdge, s: Search, n: Text)
    requires Walkable(out) && At(out, s, n) && e in out[n] && e.targetId in s.stack
    ensures var t := Follow(out, e, s);
            At(out, t, n) && Handled(t, e) && Grows(s, t, n)
  {
    var t := Follow(out, e, s);
    ReportIsSimple(out, s, e, n);
    var c := t.detected[|s.detected|];
    assert t.detected == s.detected + [c];
    assert n in s.stack && n in s.visited;
    forall f ensures Closes(t.detected, f) <==> Closes(s.detected, f) || f == e {
      ClosesPush(s.detected, c, f);
    }
    forall k | 0 <= k < |t.finished| ensures Settled(out, t, k) {
      assert Settled(out, s, k);
      assert s.finished[k] in s.finished;
    }
  }

  // ---------- the search keeps its invariant ----------

  lemma {:induction false} GrowsOn(s: Search, t: Search, u: Search, n: Text)
    requires Grows(s, t, n) && Grows(t, u, n) && s.visited <= t.visited
    ensures Grows(s, u, n)
  {
  }

  lemma {:induction false} HandledKept(s: Search, t: Search, e: GraphEdge)
    requires Handled(s, e) && s.visited <= t.visited && s.stack == t.stack && s.detected <= t.detected
    ensures Handled(t, e)
  {
    assert forall c :: c in s.detected ==> c in t.detected;
  }

  /** The search may visit `n` next. */
  ghost predicate Entry(out: Adjacency, s: Search, n: Text) {
    && Invariant(out, s) && n in out && n !in s.visited && |s.stack| == |s.edgeStack|
    && (s.edgeStack != [] ==> s.edgeStack[|s.edgeStack| - 1].targetId == n)
  }

  lemma {:induction false} Enter(out: Adjacency, s: Search, n: Text)
    requires Walkable(out) && Entry(out, s, n)
    ensures At(out, s.(visited := s.visited + {n}, stack := s.stack + [n]), n)
  {
    var t := s.(visited := s.visited + {n}, stack := s.stack + [n]);
    forall k | 0 <= k < |t.finished| ensures Settled(out, t, k) {
      assert Settled(out, s, k);
    }
    forall e | e in out[n] ensures !Closes(s.detected, e) {
      assert e.sourceId == n;
    }
  }

  /** A node whose edges have all been handled may finish. */
  lemma {:induction false} Leave(out: Adjacency, s: Search, n: Text)
    requires Walkable(out) && At(out, s, n) && forall e :: e in out[n] ==> Handled(s, e)
    ensures Invariant(out, s.(stack := s.stack[..|s.stack| - 1], finished := s.finished + [n]))
  {
    var t := s.(stack := s.stack[..|s.stack| - 1], finished := s.finished + [n]);
    assert s.stack == t.stack + [n];
    assert n in s.stack && n !in t.stack;
    assert Sorted(t);
    assert Linked(out, t.stack, t.edgeStack);
    forall k | 0 <= k < |t.finished| ensures Settled(out, t, k) {
      if k < |s.finished| {
        assert Settled(out, s, k);
        assert t.finished[..k] == s.finished[..k];
      } else {
        assert t.finished[..k] == s.finished;
      }
    }
  }

  lemma {:induction false} VisitKeeps(out: Adjacency, n: Text, s: Search)
    requires Walkable(out) && Entry(out, s, n)
    ensures var t := Visit(out, n, s);
            Invariant(out, t) && Grows(s, t, n) && n in t.finished
    decreases out.Keys - s.visited, 0
  {
    var entered := s.(visited := s.visited + {n}, stack := s.stack + [n]);
    Enter(out, s, n);
    ScanKeeps(out, out[n], entered, n);
    Leave(out, Scan(out, out[n], entered), n);
  }

  lemma {:induction false} FollowNew(out: Adjacency, e: GraphEdge, s: Search, n: Text)
    requires Walkable(out) && At(out, s, n) && e in out[n] && e.targetId !in s.visited
    ensures var t := Follow(out, e, s);
            At(out, t, n) && Handled(t, e) && Grows(s, t, n)
    decreases out.Keys - s.visited, 1, 0
  {
    var pushed := s.(edgeStack := s.edgeStack + [e]);
    var t, u := Follow(out, e, s), Visit(out, e.targetId, pushed);
    forall k | 0 <= k < |s.finished| ensures Settled(out, pushed, k) {
      assert Settled(out, s, k);
    }
    VisitKeeps(out, e.targetId, pushed);
    forall k | 0 <= k < |t.finished| ensures Settled(out, t, k) {
      assert Settled(out, u, k);
    }
    assert n in s.stack && n in s.visited;
    forall f | f in out[n] ensures Closes(t.detected, f) <==> Closes(s.detected, f) {
      ClosesKept(pushed, u, e.targetId, f);
    }
  }

  lemma {:induction false} FollowKeeps(out: Adjacency, e: GraphEdge, s: Search, n: Text)
    requires Walkable(out) && At(out, s, n) && e in out[n]
    ensures var t := Follow(out, e, s);
            At(out, t, n) && Handled(t, e) && Grows(s, t, n)
    decreases out.Keys - s.visited, 1, 1
  {
    if e.targetId in s.stack {
      FollowBack(out, e, s, n);
    } else if e.targetId !in s.visited {
      FollowNew(out, e, s, n);
    } else {
      assert Follow(out, e, s) == s;
    }
  }

  lemma {:induction false} ScanKeeps(out: Adjacency, edges: seq<GraphEdge>, s: Search, n: Text)
    requires Walkable(out) && At(out, s, n) && forall e :: e in edges ==> e in out[n]
    ensures var t := Scan(out, edges, s);
            At(out, t, n) && Grows(s, t, n) && forall e :: e in edges ==> Handled(t, e)
    decreases out.Keys - s.visited, 2 + |edges|
  {
    if edges != [] {
      var next := Follow(out, edges[0], s);
      FollowKeeps(out, edges[0], s, n);
      ScanKeeps(out, edges[1..], next, n);
      var t := Scan(out, edges[1..], next);
      GrowsOn(s, next, t, n);
      HandledKept(next, t, edges[0]);
    }
  }

  lemma {:induction false} RootsKeep(out: Adjacency, order: seq<Text>, s: Search)
    requires Walkable(out) && Invariant(out, s) && s.stack == [] && s.edgeStack == []
    requires forall n :: n in order ==> n in out
    ensures var t := Roots(out, order, s);
            Invariant(out, t) && t.stack == [] && s.finished <= t.finished && forall n :: n in order ==> n in t.finished
  {
    if order != [] {
      var n := order[0];
      if n !in s.visited {
        VisitKeeps(out, n, s);
      }
      RootsKeep(out, order[1..], if n in s.visited then s else Visit(out, n, s));
    }
  }

  // ---------- what the reports mean ----------

  ghost function Cycles(out: Adjacency, order: seq<Text>): seq<Cycle>
    requires Walkable(out) && forall n :: n in order ==> n in out
  {
    Roots(out, order, START).detected
  }

  /** Every report is a simple cycle. */
  lemma {:induction false} CyclesAreSimple(out: Adjacency, order: seq<Text>, c: Cycle)
    requires Walkable(out) && forall n :: n in order ==> n in out
    requires c in Cycles(out, order)
    ensures SimpleCycle(out, c)
  {
    RootsKeep(out, order, START);
  }

  /** `order` lists every node once. */
  ghost predicate Lists(out: Adjacency, order: seq<Text>) {
    Distinct(order) && forall n :: n in order <==> n in out
  }

  /** The nodes can be put in an order in which exactly the reported closing edges fail to lead to an earlier node. */
  lemma {:induction false} CyclesAreBackEdges(out: Adjacency, order: seq<Text>) returns (finish: seq<Text>)
    requires Walkable(out) && Lists(out, order)
    ensures Lists(out, finish)
    ensures forall e :: Has(out, e) ==>
              (Closes(Cycles(out, order), e) <==> !(IndexOf(finish, e.targetId) < IndexOf(finish, e.sourceId)))
  {
    RootsKeep(out, order, START);
    var t := Roots(out, order, START);
    finish := t.finished;
    forall n | n in finish ensures n in out {
      var k :| 0 <= k < |finish| && finish[k] == n;
      assert Settled(out, t, k);
    }
    forall e | Has(out, e)
      ensures Closes(t.detected, e) <==> !(IndexOf(finish, e.targetId) < IndexOf(finish, e.sourceId))
    {
      var k := IndexOf(finish, e.sourceId);
      var m := IndexOf(finish, e.targetId);
      assert e.targetId in out;
      assert Settled(out, t, k);
      assert m < k ==> finish[..k][m] == e.targetId;
      if e.targetId in finish[..k] {
        var j :| 0 <= j < k && finish[..k][j] == e.targetId;
        assert finish[j] == finish[m];
      }
    }
  }

  /** A rank that falls along every edge of a walk cannot come back to where it was. */
  lemma {:induction false} Descends(rank: Text -> int, es: seq<GraphEdge>, i: nat)
    requires i < |es| && forall j :: 0 < j < |es| ==> es[j].sourceId == es[j - 1].targetId
    requires forall e :: e in es ==> rank(e.targetId) < rank(e.sourceId)
    ensures rank(es[i].targetId) < rank(es[0].sourceId)
  {
    assert es[i] in es;
    if i > 0 {
      Descends(rank, es, i - 1);
    }
  }

  lemma {:induction false} RankedIsAcyclic(out: Adjacency, rank: Text -> int)
    requires forall e :: Has(out, e) ==> rank(e.targetId) < rank(e.sourceId)
    ensures Acyclic(out)
  {
    forall es ensures !ClosedWalk(out, es) {
      if ClosedWalk(out, es) {
        Descends(rank, es, |es| - 1);
      }
    }
  }

  /** Not every cycle is listed, but every closed walk runs over the closing edge of a report. */
  lemma {:induction false} ClosedWalkIsCaught(out: Adjacency, order: seq<Text>, es: seq<GraphEdge>)
    requires Walkable(out) && Lists(out, order) && ClosedWalk(out, es)
    ensures exists c :: c in Cycles(out, order) && SimpleCycle(out, c) && c.edges[|c.edges| - 1] in es
  {
    var finish := CyclesAreBackEdges(out, order);
    if forall e :: e in es ==> !Closes(Cycles(out, order), e) {
      forall e | e in es ensures IndexOf(finish, e.targetId) < IndexOf(finish, e.sourceId) {
        assert Has(out, e);
      }
      Descends(n => IndexOf(finish, n), es, |es| - 1);
      assert false;
    }
    var e :| e in es && Closes(Cycles(out, order), e);
    var c :| c in Cycles(out, order) && c.edges != [] && c.edges[|c.edges| - 1] == e;
    CyclesAreSimple(out, order, c);
  }

  lemma {:induction false} SimpleCycleIsClosedWalk(out: Adjacency, c: Cycle)
    requires SimpleCycle(out, c)
    ensures ClosedWalk(out, c.edges)
  {
    forall e | e in c.edges ensures Has(out, e) {
      var i :| 0 <= i < |c.edges| && c.edges[i] == e;
    }
  }

  /** Nothing is reported exactly when there is nothing to report. */
  lemma {:induction false} NoCyclesIffAcyclic(out: Adjacency, order: seq<Text>)
    requires Walkable(out) && Lists(out, order)
    ensures Cycles(out, order) == [] <==> Acyclic(out)
  {
    if Cycles(out, order) == [] {
      forall es ensures !ClosedWalk(out, es) {
        if ClosedWalk(out, es) { ClosedWalkIsCaught(out, order, es); }
      }
    } else {
      var c := Cycles(out, order)[0];
      CyclesAreSimple(out, order, c);
      SimpleCycleIsClosedWalk(out, c);
    }
  }

  // ---------- the search in place ----------

  /** The five collections that detectCycles shares with its inner function. */
  class CycleDetector {
    const outgoing: Adjacency
    var visited: set<Text>
    var inStack: set<Text>
    var stack: seq<Text>
    var edgeStack: seq<GraphEdge>
    var detectedCycles: seq<Cycle>
    ghost var finished: seq<Text>

    ghost function State(): Search
      reads this
    {
      Search(visited, stack, edgeStack, detectedCycles, finished)
    }

    ghost predicate Valid()
      reads this
    {
      && Walkable(outgoing)
      && (forall n :: n in inStack <==> n in stack)
      && (forall n :: n in stack ==> n in visited)
    }

    constructor (outgoing: Adjacency)
      requires Walkable(outgoing)
      ensures Valid() && State() == START && this.outgoing == outgoing
    {
      this.outgoing := outgoing;
      visited, inStack, stack, edgeStack, detectedCycles, finished := {}, {}, [], [], [], [];
    }

    method Dfs(curr: Text)
      requires Valid() && curr in outgoing && curr !in visited
      modifies this
      ensures Valid() && State() == Visit(outgoing, curr, old(State()))
      decreases outgoing.Keys - visited, 0
    {
      ghost var before := State();
      visited := visited + {curr};
      inStack := inStack + {curr};
      stack := stack + [curr];
      ghost var whole := Scan(outgoing, outgoing[curr], State());
      var edges := outgoing[curr];
      for i := 0 to |edges|
        invariant Valid() && before.visited + {curr} <= visited && stack == before.stack + [curr]
        invariant whole == Scan(outgoing, edges[i..], State())
      {
        assert edges[i] in edges;
        ScanFirst(outgoing, edges, i, State());
        Explore(edges[i]);
      }
      stack := stack[..|stack| - 1];
      inStack := inStack - {curr};
      finished := finished + [curr];
    }

    /** The body of the loop over outgoing edges. */
    method Explore(edge: GraphEdge)
      requires Valid() && edge.targetId in outgoing
      modifies this
      ensures Valid() && State() == Follow(outgoing, edge, old(State()))
      decreases outgoing.Keys - visited, 1
    {
      var next := edge.targetId;
      edgeStack := edgeStack + [edge];
      if next in inStack {
        var startIndex := IndexOf(stack, next);
        if startIndex != -1 {
          var cyclePath := From(stack, startIndex) + [next];
          var cycleEdges := From(edgeStack, startIndex);
          detectedCycles := detectedCycles + [Cycle(cyclePath, cycleEdges)];
        }
      } else if next !in visited {
        Dfs(next);
      }
      edgeStack := edgeStack[..|edgeStack| - 1];
    }
  }

  /** What the search needs of a graph. Every graph that addNode and addEdge build has it. */
  ghost predicate Searchable(g: Graph) {
    g.outgoing.Keys == g.nodes.Keys && Walkable(g.outgoing) && Lists(g.outgoing, g.nodeOrder)
  }

  lemma {:induction false} EmptySearchable()
    ensures Searchable(EmptyGraph)
  {
  }

  lemma {:induction false} AddNodeSearchable(g: Graph, node: GraphNode)
    requires Searchable(g)
    ensures Searchable(g.AddNode(node))
  {
    var h := g.AddNode(node);
    assert Distinct(h.nodeOrder);
    forall n, e | n in h.outgoing && e in h.outgoing[n] ensures e.sourceId == n && e.targetId in h.outgoing {
      assert n in g.outgoing && e in g.outgoing[n];
    }
  }

  /** Also when the edge's id is known already. */
  lemma {:induction false} AddEdgeSearchable(g: Graph, e: GraphEdge)
    requires Searchable(g) && e.sourceId in g.nodes && e.targetId in g.nodes
    ensures Searchable(g.AddEdge(e))
  {
    var h := g.AddEdge(e);
    assert h.outgoing.Keys == g.outgoing.Keys;
    forall n, f | n in h.outgoing && f in h.outgoing[n] ensures f.sourceId == n && f.targetId in h.outgoing {
      assert f == e || f in g.outgoing[n];
    }
  }

  lemma {:induction false} AgreesSearchable(g: Graph)
    requires g.Agrees()
    ensures Searchable(g)
  {
    forall n, e | n in g.outgoing && e in g.outgoing[n] ensures e.sourceId == n && e.targetId in g.outgoing {
      LeavingMeans(g.EdgeList(), n, e);
      HasEdgeMeans(g, e);
    }
  }

  method DetectCycles(graph: TopologyGraph) returns (detected: seq<Cycle>)
    requires Searchable(graph.State())
    ensures detected == Cycles(graph.outgoing, graph.nodeOrder)
  {
    var nodes, out := graph.nodeOrder, graph.outgoing;
    ghost var whole := Cycles(out, nodes);
    var detector := new CycleDetector(out);
    for i := 0 to |nodes|
      invariant detector.Valid() && detector.stack == [] && detector.edgeStack == []
      invariant Roots(out, nodes[i..], detector.State()).detected == whole
    {
      assert nodes[i..][1..] == nodes[i + 1..];
      assert nodes[i] in nodes;
      if nodes[i] !in detector.visited {
        detector.Dfs(nodes[i]);
      }
    }
    detected := detector.detectedCycles;
  }
}
