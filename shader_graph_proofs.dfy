/**
  What `fetchCode` guarantees about the traversal of an acyclic shader graph.

  Acyclicity is stated by a rank: a map giving every node a natural number
  larger than the rank of each of its children. Under it the trace of the
  traversal from a root enters and leaves every proper descendant of the
  root exactly once, never the root itself, and leaves every node only after
  all of its children (its instance code follows theirs); each visit
  brackets exactly the not-yet-visited descendants of the visited node
  between its static and its instance fragment.
*/
module ShaderGraphProofs {
  import opened Wrappers
  import opened ShaderGraph

  /** Every child slot of a node holds a node of smaller rank. */
  predicate Ranked(g: Graph, rank: map<Uuid, nat>) {
    && g.Keys <= rank.Keys
    && forall u, k :: u in g && 0 <= k < |g[u].children| && g[u].children[k].Some? ==>
         g[u].children[k].value in rank && rank[g[u].children[k].value] < rank[u]
  }

  /** A set of nodes that holds the children of each of its nodes. */
  predicate Closed(g: Graph, d: set<Uuid>) {
    forall x, k :: x in d && x in g && 0 <= k < |g[x].children| && g[x].children[k].Some? ==>
      g[x].children[k].value in d
  }

  /** Each node is left only once all its children are in `d` or were left
      earlier in the trace. */
  predicate Topo(g: Graph, t: seq<Event>, d: set<Uuid>) {
    forall j, k ::
      (0 <= j < |t| && t[j].Leave? && t[j].id in g && 0 <= k < |g[t[j].id].children| && g[t[j].id].children[k].Some?)
      ==> g[t[j].id].children[k].value in d + Left(t[..j])
  }

  /** No event occurs twice in a trace. */
  predicate NoRepeat(t: seq<Event>) {
    forall i, j :: 0 <= i < j < |t| ==> t[i] != t[j]
  }

  /** `p` follows child edges of the graph. */
  predicate IsPath(g: Graph, p: seq<Uuid>) {
    forall n :: 0 <= n < |p| - 1 ==> p[n] in g && p[n + 1] in ChildIds(g, p[n])
  }

  /** `x` is reachable from `u` along one or more child edges. */
  ghost predicate Descendant(g: Graph, u: Uuid, x: Uuid) {
    exists p :: |p| >= 2 && p[0] == u && p[|p| - 1] == x && IsPath(g, p)
  }

  // ---------------------------------------------------------------------------
  // Exactly once

  lemma {:induction false} IdsEnteredOrLeft(t: seq<Event>)
    ensures forall i :: 0 <= i < |t| ==> t[i].id in Entered(t) + Left(t)
    decreases |t|
  {
    if t != [] {
      var p := t[..|t| - 1];
      IdsEnteredOrLeft(p);
      assert forall i :: 0 <= i < |p| ==> t[i] == p[i];
    }
  }

  lemma NoRepeatAppend(a: seq<Event>, b: seq<Event>)
    requires NoRepeat(a) && NoRepeat(b)
    requires forall i :: 0 <= i < |a| ==> a[i] !in b
    ensures NoRepeat(a + b)
  {
    forall i, j | 0 <= i < j < |a + b|
      ensures (a + b)[i] != (a + b)[j]
    {
      if j < |a| {
      } else if i >= |a| {
        assert (a + b)[i] == b[i - |a|] && (a + b)[j] == b[j - |a|];
      } else {
        assert (a + b)[i] == a[i] && (a + b)[j] == b[j - |a|];
      }
    }
  }

  /** Traces over disjoint sets of nodes share no event. */
  lemma DisjointEvents(a: seq<Event>, b: seq<Event>)
    requires (Entered(a) + Left(a)) !! (Entered(b) + Left(b))
    ensures forall i :: 0 <= i < |a| ==> a[i] !in b
  {
    IdsEnteredOrLeft(a);
    IdsEnteredOrLeft(b);
  }

  /** Bracketing a trace that does not mention `u` by entering and leaving
      `u` repeats no event. */
  lemma NoRepeatBracket(u: Uuid, inner: seq<Event>)
    requires NoRepeat(inner) && forall i :: 0 <= i < |inner| ==> inner[i].id != u
    ensures NoRepeat([Enter(u)] + inner + [Leave(u)])
  {
    NoRepeatAppend([Enter(u)], inner);
    var front := [Enter(u)] + inner;
    forall i | 0 <= i < |front|
      ensures front[i] !in [Leave(u)]
    {
      if i > 0 {
        assert front[i] == inner[i - 1];
      }
    }
    NoRepeatAppend(front, [Leave(u)]);
  }

  /** A walk never repeats an event: a node is entered at most once and left
      at most once. */
  lemma {:induction false} WalkNoRepeat(g: Graph, slot: Option<Uuid>, visited: set<Uuid>)
    requires WellFormed(g) && Refers(g, slot)
    ensures NoRepeat(Walk(g, slot, visited))
    decreases |g.Keys - visited|, 0, 0
  {
    if slot.Some? && slot.value !in visited {
      var u := slot.value;
      OneFewerUnvisited(g.Keys, visited, u);
      var inner := WalkChildren(g, u, 0, visited + {u});
      WalkChildrenNoRepeat(g, u, 0, visited + {u});
      IdsEnteredOrLeft(inner);
      assert Walk(g, Some(u), visited) == [Enter(u)] + WalkChildren(g, u, 0, visited + {u}) + [Leave(u)];
      NoRepeatBracket(u, inner);
    }
  }

  lemma {:induction false} WalkChildrenNoRepeat(g: Graph, u: Uuid, i: nat, visited: set<Uuid>)
    requires WellFormed(g) && u in g && i <= |g[u].children|
    ensures NoRepeat(WalkChildren(g, u, i, visited))
    decreases |g.Keys - visited|, 1, |g[u].children| - i
  {
    if i < |g[u].children| {
      var head := Walk(g, g[u].children[i], visited);
      FewerUnvisited(g.Keys, visited, visited + Entered(head));
      WalkNoRepeat(g, g[u].children[i], visited);
      WalkChildrenNoRepeat(g, u, i + 1, visited + Entered(head));
      DisjointEvents(head, WalkChildren(g, u, i + 1, visited + Entered(head)));
      NoRepeatAppend(head, WalkChildren(g, u, i + 1, visited + Entered(head)));
    }
  }

  // ---------------------------------------------------------------------------
  // Descendants

  lemma DescendantStep(g: Graph, u: Uuid, k: nat, x: Uuid)
    requires u in g && k < |g[u].children| && g[u].children[k].Some?
    requires var c := g[u].children[k].value; x == c || Descendant(g, c, x)
    ensures Descendant(g, u, x)
  {
    var c := g[u].children[k].value;
    assert c in ChildIds(g, u);
    if x == c {
      assert IsPath(g, [u, c]);
    } else {
      var p :| |p| >= 2 && p[0] == c && p[|p| - 1] == x && IsPath(g, p);
      var q := [u] + p;
      assert forall n :: 1 <= n < |q| ==> q[n] == p[n - 1];
      assert IsPath(g, q);
    }
  }

  /** Everything a walk enters is the walked node or one of its descendants. */
  lemma {:induction false} WalkDescends(g: Graph, slot: Option<Uuid>, visited: set<Uuid>)
    requires WellFormed(g) && Refers(g, slot)
    ensures forall x :: x in Entered(Walk(g, slot, visited)) ==> x == slot.value || Descendant(g, slot.value, x)
    decreases |g.Keys - visited|, 0, 0
  {
    if slot.Some? && slot.value !in visited {
      var u := slot.value;
      OneFewerUnvisited(g.Keys, visited, u);
      assert Walk(g, Some(u), visited) == [Enter(u)] + WalkChildren(g, u, 0, visited + {u}) + [Leave(u)];
      EnteredOfVisit(u, WalkChildren(g, u, 0, visited + {u}));
      WalkChildrenDescend(g, u, 0, visited + {u});
    }
  }

  lemma {:induction false} WalkChildrenDescend(g: Graph, u: Uuid, i: nat, visited: set<Uuid>)
    requires WellFormed(g) && u in g && i <= |g[u].children|
    ensures forall x :: x in Entered(WalkChildren(g, u, i, visited)) ==> Descendant(g, u, x)
    decreases |g.Keys - visited|, 1, |g[u].children| - i
  {
    if i < |g[u].children| {
      var slot := g[u].children[i];
      var head := Walk(g, slot, visited);
      FewerUnvisited(g.Keys, visited, visited + Entered(head));
      var rest := WalkChildren(g, u, i + 1, visited + Entered(head));
      assert WalkChildren(g, u, i, visited) == head + rest;
      EnteredLeftAppend(head, rest);
      WalkDescends(g, slot, visited);
      WalkChildrenDescend(g, u, i + 1, visited + Entered(head));
      forall x | x in Entered(head)
        ensures Descendant(g, u, x)
      {
        DescendantStep(g, u, i, x);
      }
    }
  }

  lemma {:induction false} PathStaysIn(g: Graph, d: set<Uuid>, p: seq<Uuid>)
    requires Closed(g, d) && IsPath(g, p) && |p| >= 1 && p[0] in d
    ensures p[|p| - 1] in d
    decreases |p|
  {
    if |p| > 1 {
      var q := p[..|p| - 1];
      assert IsPath(g, q);
      PathStaysIn(g, d, q);
      var n := |p| - 2;
      assert p[n + 1] in ChildIds(g, p[n]);
      var k :| 0 <= k < |g[p[n]].children| && g[p[n]].children[k].Some? && g[p[n]].children[k].value == p[n + 1];
    }
  }

  /** A closed set holding the children of `u` holds all its descendants. */
  lemma ClosedHoldsDescendants(g: Graph, d: set<Uuid>, u: Uuid, x: Uuid)
    requires Closed(g, d) && u in g && Descendant(g, u, x)
    requires forall k :: 0 <= k < |g[u].children| && g[u].children[k].Some? ==> g[u].children[k].value in d
    ensures x in d
  {
    var p :| |p| >= 2 && p[0] == u && p[|p| - 1] == x && IsPath(g, p);
    assert p[1] in ChildIds(g, u);
    var q := p[1..];
    assert forall n :: 0 <= n < |q| ==> q[n] == p[n + 1];
    assert IsPath(g, q);
    PathStaysIn(g, d, q);
  }

  lemma {:induction false} PathRankFalls(g: Graph, rank: map<Uuid, nat>, p: seq<Uuid>)
    requires Ranked(g, rank) && IsPath(g, p) && |p| >= 2
    ensures p[0] in rank && p[|p| - 1] in rank && rank[p[|p| - 1]] < rank[p[0]]
    decreases |p|
  {
    var n := |p| - 2;
    assert p[n + 1] in ChildIds(g, p[n]);
    var k :| 0 <= k < |g[p[n]].children| && g[p[n]].children[k].Some? && g[p[n]].children[k].value == p[n + 1];
    if |p| > 2 {
      var q := p[..|p| - 1];
      assert IsPath(g, q);
      PathRankFalls(g, rank, q);
    }
  }

  /** Under a rank, a descendant ranks strictly lower: no node descends from
      itself. */
  lemma DescendantRanksLower(g: Graph, rank: map<Uuid, nat>, u: Uuid, x: Uuid)
    requires Ranked(g, rank) && Descendant(g, u, x)
    ensures u in rank && x in rank && rank[x] < rank[u]
  {
    var p :| |p| >= 2 && p[0] == u && p[|p| - 1] == x && IsPath(g, p);
    PathRankFalls(g, rank, p);
  }

  // ---------------------------------------------------------------------------
  // Dependency order

  lemma TopoAppend(g: Graph, a: seq<Event>, b: seq<Event>, d: set<Uuid>)
    requires Topo(g, a, d) && Topo(g, b, d + Left(a))
    ensures Topo(g, a + b, d)
  {
    forall j, k | 0 <= j < |a + b| && (a + b)[j].Leave? && (a + b)[j].id in g
      && 0 <= k < |g[(a + b)[j].id].children| && g[(a + b)[j].id].children[k].Some?
      ensures g[(a + b)[j].id].children[k].value in d + Left((a + b)[..j])
    {
      if j < |a| {
        assert (a + b)[j] == a[j] && (a + b)[..j] == a[..j];
      } else {
        var j' := j - |a|;
        assert (a + b)[j] == b[j'] && (a + b)[..j] == a + b[..j'];
        EnteredLeftAppend(a, b[..j']);
      }
    }
  }

  /** Entering a node, walking a trace that leaves all its children, and
      leaving it keeps the dependency order. */
  lemma TopoBracket(g: Graph, u: Uuid, inner: seq<Event>, d: set<Uuid>)
    requires u in g && Topo(g, inner, d)
    requires forall k :: 0 <= k < |g[u].children| && g[u].children[k].Some? ==> g[u].children[k].value in d + Left(inner)
    ensures Topo(g, [Enter(u)] + inner + [Leave(u)], d)
  {
    assert Left([Enter(u)]) == {} && d + {} == d;
    assert Topo(g, [Enter(u)], d);
    TopoAppend(g, [Enter(u)], inner, d);
    EnteredLeftAppend([Enter(u)], inner);
    var front := [Enter(u)] + inner;
    assert [Leave(u)][..0] == [] && Left([]) == {};
    assert Topo(g, [Leave(u)], d + Left(front));
    TopoAppend(g, front, [Leave(u)], d);
  }

  /** Adding a node whose children are all in a closed set keeps it closed. */
  lemma ClosedBracket(g: Graph, u: Uuid, d: set<Uuid>)
    requires u in g && Closed(g, d)
    requires forall k :: 0 <= k < |g[u].children| && g[u].children[k].Some? ==> g[u].children[k].value in d
    ensures Closed(g, d + {u})
  {
  }

  /** Entering `u`, walking its children and leaving it: what the children's
      walk guarantees extends to the whole visit. */
  lemma VisitStep(g: Graph, u: Uuid, d: set<Uuid>, inner: seq<Event>)
    requires u in g && Topo(g, inner, d) && Closed(g, d + Left(inner))
    requires forall k :: 0 <= k < |g[u].children| && g[u].children[k].Some? ==> g[u].children[k].value in d + Left(inner)
    ensures var t := [Enter(u)] + inner + [Leave(u)];
      Closed(g, d + Left(t)) && Topo(g, t, d) && u in d + Left(t)
  {
    EnteredOfVisit(u, inner);
    TopoBracket(g, u, inner, d);
    ClosedBracket(g, u, d + Left(inner));
    assert d + Left([Enter(u)] + inner + [Leave(u)]) == (d + Left(inner)) + {u};
  }

  /** Walking slot `i` and then the later siblings: what each part
      guarantees combines to a guarantee for the whole. */
  lemma SiblingsStep(g: Graph, u: Uuid, i: nat, d: set<Uuid>, head: seq<Event>, rest: seq<Event>)
    requires u in g && i < |g[u].children|
    requires Topo(g, head, d) && Topo(g, rest, d + Left(head))
    requires Closed(g, d + Left(head) + Left(rest))
    requires g[u].children[i].Some? ==> g[u].children[i].value in d + Left(head)
    requires forall k :: i + 1 <= k < |g[u].children| && g[u].children[k].Some? ==>
      g[u].children[k].value in d + Left(head) + Left(rest)
    ensures Closed(g, d + Left(head + rest)) && Topo(g, head + rest, d)
    ensures forall k :: i <= k < |g[u].children| && g[u].children[k].Some? ==> g[u].children[k].value in d + Left(head + rest)
  {
    TopoAppend(g, head, rest, d);
    EnteredLeftAppend(head, rest);
    assert d + Left(head + rest) == d + Left(head) + Left(rest);
  }

  /**
    A walk from a context where `d` holds the finished nodes (closed under
    children) and every other visited node ranks above the walked slot:
    the walk finishes the slot's node, keeps the finished set closed and
    leaves every node after its children.
  */
  lemma {:induction false} WalkOrder(g: Graph, rank: map<Uuid, nat>, slot: Option<Uuid>, visited: set<Uuid>, d: set<Uuid>)
    requires WellFormed(g) && Refers(g, slot) && Ranked(g, rank)
    requires d <= visited && Closed(g, d)
    requires slot.Some? ==> forall x :: x in visited - d ==> x in rank && rank[x] > rank[slot.value]
    ensures var t := Walk(g, slot, visited);
      && Closed(g, d + Left(t)) && Topo(g, t, d)
      && (slot.Some? ==> slot.value in d + Left(t))
    decreases |g.Keys - visited|, 0, 0
  {
    if slot.None? || slot.value in visited {
      assert Walk(g, slot, visited) == [] && d + {} == d;
    } else {
      var u := slot.value;
      OneFewerUnvisited(g.Keys, visited, u);
      var inner := WalkChildren(g, u, 0, visited + {u});
      assert Walk(g, Some(u), visited) == [Enter(u)] + WalkChildren(g, u, 0, visited + {u}) + [Leave(u)];
      WalkChildrenOrder(g, rank, u, 0, visited + {u}, d);
      VisitStep(g, u, d, inner);
    }
  }

  lemma {:induction false} WalkChildrenOrder(g: Graph, rank: map<Uuid, nat>, u: Uuid, i: nat, visited: set<Uuid>, d: set<Uuid>)
    requires WellFormed(g) && Ranked(g, rank) && u in g && i <= |g[u].children|
    requires d <= visited && Closed(g, d)
    requires forall x :: x in visited - d ==> x in rank && rank[x] >= rank[u]
    ensures var t := WalkChildren(g, u, i, visited);
      && Closed(g, d + Left(t)) && Topo(g, t, d)
      && forall k :: i <= k < |g[u].children| && g[u].children[k].Some? ==> g[u].children[k].value in d + Left(t)
    decreases |g.Keys - visited|, 1, |g[u].children| - i
  {
    if i == |g[u].children| {
      assert WalkChildren(g, u, i, visited) == [] && d + {} == d;
    } else {
      var slot := g[u].children[i];
      var head := Walk(g, slot, visited);
      var visited', d' := visited + Entered(head), d + Left(head);
      FewerUnvisited(g.Keys, visited, visited');
      var rest := WalkChildren(g, u, i + 1, visited');
      assert WalkChildren(g, u, i, visited) == head + rest;
      WalkOrder(g, rank, slot, visited, d);
      assert visited' - d' <= visited - d;
      WalkChildrenOrder(g, rank, u, i + 1, visited', d');
      SiblingsStep(g, u, i, d, head, rest);
    }
  }

  // ---------------------------------------------------------------------------
  // What `fetchCode` guarantees

  /**
    The traversal from a root of an acyclic graph enters and leaves each
    proper descendant of the root exactly once and nothing else (so every
    descendant's static and instance fragments are each emitted once, and
    the root's only by the framing), and leaves each node only after all of
    its children.
  */
  lemma RootTraceCorrect(g: Graph, rank: map<Uuid, nat>, root: Uuid)
    requires WellFormed(g) && Ranked(g, rank) && root in g
    ensures var t := RootTrace(g, root);
      && NoRepeat(t)
      && Left(t) == Entered(t)
      && (forall x :: x in Entered(t) <==> Descendant(g, root, x))
      && root !in Entered(t)
      && Topo(g, t, {})
  {
    var t := RootTrace(g, root);
    WalkChildrenNoRepeat(g, root, 0, {});
    WalkChildrenOrder(g, rank, root, 0, {}, {});
    WalkChildrenDescend(g, root, 0, {});
    assert {} + Left(t) == Left(t);
    forall x | Descendant(g, root, x)
      ensures x in Entered(t)
    {
      ClosedHoldsDescendants(g, Left(t), root, x);
    }
    if root in Entered(t) {
      DescendantRanksLower(g, rank, root, root);
    }
  }

  /**
    One visit in context (the finished nodes `d` are closed and every other
    visited node is an ancestor, of higher rank): the node's static fragment
    comes first, its instance fragment last, and what lies between is
    exactly the walk of its descendants that were not yet visited. The
    context holds at every visit `RootTrace` makes: there `d` is the set of
    nodes already left (closed, by `WalkOrder`) and the other visited nodes
    are the ancestors still being walked, which rank higher
    (`DescendantRanksLower`); `WalkChildrenOrder` carries exactly this
    invariant through the child loop.
  */
  lemma VisitBrackets(g: Graph, rank: map<Uuid, nat>, u: Uuid, visited: set<Uuid>, d: set<Uuid>)
    requires WellFormed(g) && Ranked(g, rank) && u in g && u !in visited
    requires d <= visited && Closed(g, d)
    requires forall x :: x in visited - d ==> x in rank && rank[x] > rank[u]
    ensures var inner := WalkChildren(g, u, 0, visited + {u});
      && Walk(g, Some(u), visited) == [Enter(u)] + inner + [Leave(u)]
      && forall x :: x in Entered(inner) <==> Descendant(g, u, x) && x !in visited
  {
    var inner := WalkChildren(g, u, 0, visited + {u});
    var t := Walk(g, Some(u), visited);
    assert Walk(g, Some(u), visited) == [Enter(u)] + WalkChildren(g, u, 0, visited + {u}) + [Leave(u)];
    EnteredOfVisit(u, inner);
    WalkOrder(g, rank, Some(u), visited, d);
    WalkChildrenDescend(g, u, 0, visited + {u});
    forall x | Descendant(g, u, x) && x !in visited
      ensures x in Entered(inner)
    {
      ClosedHoldsDescendants(g, d + Left(t), u, x);
      if x == u {
        DescendantRanksLower(g, rank, u, u);
      }
    }
  }
}
