/**
  The shader-node graph and the source generator `fetchCode`.

  A graph maps node UUIDs to nodes; every node carries a static
  (declaration) fragment, an instance (statement) fragment and an ordered
  list of child slots, each of which may be empty. The generator walks the
  graph depth first from a root, marking nodes in a visited set so that a
  node shared by several parents is emitted once: a node's static fragment is
  appended on the way down and its instance fragment on the way back up.

  `Walk` and `WalkChildren` specify that traversal as a trace of `Enter` and
  `Leave` events; `Visit`, `TraverseChildren` and `FetchCode` are the
  imperative traversal, proved to produce exactly the text of that trace.
*/
module ShaderGraph {
  import opened Wrappers

  type Uuid = string

  datatype ShaderNode = ShaderNode(staticCode: string, instanceCode: string, children: seq<Option<Uuid>>)

  type Graph = map<Uuid, ShaderNode>

  /** A child slot is empty or names a node of the graph. */
  predicate Refers(g: Graph, slot: Option<Uuid>) {
    slot.None? || slot.value in g
  }

  /** Every child slot of every node is empty or names a node of the graph. */
  predicate WellFormed(g: Graph) {
    forall u, i :: u in g && 0 <= i < |g[u].children| ==> Refers(g, g[u].children[i])
  }

  /** The nodes a node's non-empty child slots name. */
  function ChildIds(g: Graph, u: Uuid): set<Uuid>
    requires u in g
  {
    set k | 0 <= k < |g[u].children| && g[u].children[k].Some? :: g[u].children[k].value
  }

  /** One step of the traversal: a node is entered (static fragment appended)
      or left (instance fragment appended). */
  datatype Event = Enter(id: Uuid) | Leave(id: Uuid)

  /** The nodes entered in a trace. */
  function Entered(t: seq<Event>): set<Uuid>
    decreases |t|
  {
    if t == [] then {} else Entered(t[..|t| - 1]) + (if t[|t| - 1].Enter? then {t[|t| - 1].id} else {})
  }

  /** The nodes left in a trace. */
  function Left(t: seq<Event>): set<Uuid>
    decreases |t|
  {
    if t == [] then {} else Left(t[..|t| - 1]) + (if t[|t| - 1].Leave? then {t[|t| - 1].id} else {})
  }

  lemma {:induction false} EnteredLeftAppend(a: seq<Event>, b: seq<Event>)
    ensures Entered(a + b) == Entered(a) + Entered(b)
    ensures Left(a + b) == Left(a) + Left(b)
    decreases |b|
  {
    if b == [] {
      assert a + b == a;
    } else {
      assert (a + b)[..|a + b| - 1] == a + b[..|b| - 1];
      EnteredLeftAppend(a, b[..|b| - 1]);
    }
  }

  lemma EnteredOfVisit(u: Uuid, inner: seq<Event>)
    ensures Entered([Enter(u)] + inner + [Leave(u)]) == {u} + Entered(inner)
    ensures Left([Enter(u)] + inner + [Leave(u)]) == {u} + Left(inner)
  {
    EnteredLeftAppend([Enter(u)], inner);
    EnteredLeftAppend([Enter(u)] + inner, [Leave(u)]);
    assert Entered([Leave(u)]) == {} && Left([Enter(u)]) == {};
  }

  lemma FewerUnvisited(keys: set<Uuid>, visited: set<Uuid>, more: set<Uuid>)
    requires visited <= more
    ensures |keys - more| <= |keys - visited|
  {
    var big, small := keys - visited, keys - more;
    assert small <= big;
    assert big == small + (big - small);
    assert small * (big - small) == {};
  }

  lemma OneFewerUnvisited(keys: set<Uuid>, visited: set<Uuid>, u: Uuid)
    requires u in keys && u !in visited
    ensures |keys - (visited + {u})| < |keys - visited|
  {
    assert keys - (visited + {u}) == (keys - visited) - {u};
  }

  /** The trace of visiting one child slot with the given nodes already
      visited: nothing for an empty slot or a visited node, otherwise the
      node is entered, its children walked in order, and the node left. */
  function Walk(g: Graph, slot: Option<Uuid>, visited: set<Uuid>): (t: seq<Event>)
    requires WellFormed(g) && Refers(g, slot)
    ensures Entered(t) <= g.Keys && Entered(t) !! visited
    ensures Left(t) == Entered(t)
    ensures slot.Some? && slot.value !in visited ==> slot.value in Entered(t)
    decreases |g.Keys - visited|, 0, 0
  {
    if slot.None? || slot.value in visited then []
    else
      var u := slot.value;
      OneFewerUnvisited(g.Keys, visited, u);
      var inner := WalkChildren(g, u, 0, visited + {u});
      EnteredOfVisit(u, inner);
      [Enter(u)] + inner + [Leave(u)]
  }

  /** The trace of walking the child slots of `u` from index `i` on, each
      slot seeing the nodes visited by the slots before it. */
  function WalkChildren(g: Graph, u: Uuid, i: nat, visited: set<Uuid>): (t: seq<Event>)
    requires WellFormed(g) && u in g && i <= |g[u].children|
    ensures Entered(t) <= g.Keys && Entered(t) !! visited
    ensures Left(t) == Entered(t)
    decreases |g.Keys - visited|, 1, |g[u].children| - i
  {
    if i == |g[u].children| then []
    else
      var head := Walk(g, g[u].children[i], visited);
      FewerUnvisited(g.Keys, visited, visited + Entered(head));
      var rest := WalkChildren(g, u, i + 1, visited + Entered(head));
      EnteredLeftAppend(head, rest);
      head + rest
  }

  /** The traversal `fetchCode` performs from a root: the root's children,
      with nothing visited yet. The root itself is never marked. */
  function RootTrace(g: Graph, root: Uuid): seq<Event>
    requires WellFormed(g) && root in g
  {
    WalkChildren(g, root, 0, {})
  }

  /** The two text buffers `fetchCode` grows. */
  datatype Buffer = StaticBuffer | MainBuffer

  /** What one event appends to the given buffer. */
  function Fragment(g: Graph, b: Buffer, e: Event): string {
    if e.id !in g then ""
    else match b
      case StaticBuffer => if e.Enter? then g[e.id].staticCode else ""
      case MainBuffer => if e.Leave? then g[e.id].instanceCode else ""
  }

  /** What a whole trace appends to the given buffer, in trace order. */
  function Text(g: Graph, b: Buffer, t: seq<Event>): string
    decreases |t|
  {
    if t == [] then "" else Text(g, b, t[..|t| - 1]) + Fragment(g, b, t[|t| - 1])
  }

  lemma {:induction false} TextAppend(g: Graph, b: Buffer, s: seq<Event>, t: seq<Event>)
    ensures Text(g, b, s + t) == Text(g, b, s) + Text(g, b, t)
    decreases |t|
  {
    if t == [] {
      assert s + t == s;
    } else {
      var t' := t[..|t| - 1];
      assert (s + t)[..|s + t| - 1] == s + t';
      TextAppend(g, b, s, t');
    }
  }

  /** Regrouping a concatenation of three strings. Kept as a lemma so that
      the proofs using it see the one equation and not the sequence axioms
      it takes. */
  lemma ConcatAssoc(a: string, b: string, c: string)
    ensures a + b + c == a + (b + c)
  {
  }

  lemma TextSingle(g: Graph, b: Buffer, e: Event)
    ensures Text(g, b, [e]) == Fragment(g, b, e)
  {
    assert [e][..0] == [];
  }

  /** What visiting an unvisited node appends: its static fragment before
      its children's, its instance fragment after theirs. */
  lemma TextOfVisit(g: Graph, u: Uuid, inner: seq<Event>)
    requires u in g
    ensures Text(g, StaticBuffer, [Enter(u)] + inner + [Leave(u)]) == g[u].staticCode + Text(g, StaticBuffer, inner)
    ensures Text(g, MainBuffer, [Enter(u)] + inner + [Leave(u)]) == Text(g, MainBuffer, inner) + g[u].instanceCode
  {
    forall b: Buffer
      ensures Text(g, b, [Enter(u)] + inner + [Leave(u)])
              == Fragment(g, b, Enter(u)) + Text(g, b, inner) + Fragment(g, b, Leave(u))
    {
      TextAppend(g, b, [Enter(u)], inner);
      TextAppend(g, b, [Enter(u)] + inner, [Leave(u)]);
      TextSingle(g, b, Enter(u));
      TextSingle(g, b, Leave(u));
    }
    assert Fragment(g, StaticBuffer, Leave(u)) == "" && Fragment(g, MainBuffer, Enter(u)) == "";
    assert g[u].staticCode + Text(g, StaticBuffer, inner) + "" == g[u].staticCode + Text(g, StaticBuffer, inner);
    assert "" + Text(g, MainBuffer, inner) + g[u].instanceCode == Text(g, MainBuffer, inner) + g[u].instanceCode;
  }

  const StaticHeader := "//THIS IS GENERATED CODE!!!\n\n"
  const MainHeader := "//This is generated code, do not try to directly modify!\n\nvoid main(){\n"
  const Footer := "\n}\n//This is generated code, do not try to directly modify!\n"

  /** The source `fetchCode` returns for a root: the header comment, the
      root's static fragment and the static fragments in traversal order,
      then `main` holding the instance fragments in traversal order, the
      root's own instance fragment last, and the footer. So all the static
      text comes before `void main(){` and every instance fragment after it. */
  function Generated(g: Graph, root: Uuid): (code: string)
    requires WellFormed(g) && root in g
    ensures var head, tail := StaticHeader + g[root].staticCode, g[root].instanceCode + Footer;
      var decls := head + Text(g, StaticBuffer, RootTrace(g, root));
      && |decls| + |MainHeader| + |tail| <= |code|
      && code[..|head|] == head
      && code[..|decls|] == decls
      && code[|decls|..|decls| + |MainHeader|] == MainHeader
      && code[|code| - |tail|..] == tail
  {
    var t := RootTrace(g, root);
    var head, tail := StaticHeader + g[root].staticCode, g[root].instanceCode + Footer;
    var s, m := Text(g, StaticBuffer, t), Text(g, MainBuffer, t);
    Framed(head, s, MainHeader, m, tail);
    (head + s) + (MainHeader + m + tail)
  }

  /** Where the parts of a generated source sit in it. */
  lemma Framed(head: string, s: string, mh: string, m: string, tail: string)
    ensures var code, decls := (head + s) + (mh + m + tail), head + s;
      && |decls| + |mh| + |tail| <= |code|
      && code[..|head|] == head
      && code[..|decls|] == decls
      && code[|decls|..|decls| + |mh|] == mh
      && code[|code| - |tail|..] == tail
  {
    var code, decls := (head + s) + (mh + m + tail), head + s;
    assert code == head + (s + (mh + m + tail));
    assert code[|decls|..] == mh + (m + tail);
    assert code == (decls + mh + m) + tail;
  }

  /** Visiting an unvisited node enters it, walks its children and leaves
      it: its static fragment goes before its children's and its instance
      fragment after theirs, whatever the buffers already hold. */
  lemma WalkUnvisited(g: Graph, u: Uuid, visited: set<Uuid>, staticCode: string, mainCode: string)
    requires WellFormed(g) && u in g && u !in visited
    ensures var t, inner := Walk(g, Some(u), visited), WalkChildren(g, u, 0, visited + {u});
      && visited + Entered(t) == visited + {u} + Entered(inner)
      && staticCode + Text(g, StaticBuffer, t) == staticCode + g[u].staticCode + Text(g, StaticBuffer, inner)
      && mainCode + Text(g, MainBuffer, t) == mainCode + Text(g, MainBuffer, inner) + g[u].instanceCode
  {
    var inner := WalkChildren(g, u, 0, visited + {u});
    assert Walk(g, Some(u), visited) == [Enter(u)] + inner + [Leave(u)];
    EnteredOfVisit(u, inner);
    TextOfVisit(g, u, inner);
    ConcatAssoc(staticCode, g[u].staticCode, Text(g, StaticBuffer, inner));
    ConcatAssoc(mainCode, Text(g, MainBuffer, inner), g[u].instanceCode);
  }

  /** An empty slot or a visited node adds nothing. */
  lemma WalkSkipped(g: Graph, slot: Option<Uuid>, visited: set<Uuid>, staticCode: string, mainCode: string)
    requires WellFormed(g) && Refers(g, slot) && (slot.None? || slot.value in visited)
    ensures var t := Walk(g, slot, visited);
      && visited + Entered(t) == visited
      && staticCode + Text(g, StaticBuffer, t) == staticCode
      && mainCode + Text(g, MainBuffer, t) == mainCode
  {
    assert Walk(g, slot, visited) == [];
    assert staticCode + "" == staticCode && mainCode + "" == mainCode;
  }

  /** One iteration of the child loop: the walk of slot `i` extends the
      trace walked so far, and the rest of the siblings follow it. */
  lemma ChildStep(g: Graph, u: Uuid, i: nat, visited: set<Uuid>, now: set<Uuid>, done: seq<Event>, staticCode: string, mainCode: string)
    requires WellFormed(g) && u in g && i < |g[u].children|
    requires now == visited + Entered(done)
    requires WalkChildren(g, u, 0, visited) == done + WalkChildren(g, u, i, now)
    ensures var step := Walk(g, g[u].children[i], now);
      && WalkChildren(g, u, 0, visited) == (done + step) + WalkChildren(g, u, i + 1, now + Entered(step))
      && now + Entered(step) == visited + Entered(done + step)
      && staticCode + Text(g, StaticBuffer, done) + Text(g, StaticBuffer, step) == staticCode + Text(g, StaticBuffer, done + step)
      && mainCode + Text(g, MainBuffer, done) + Text(g, MainBuffer, step) == mainCode + Text(g, MainBuffer, done + step)
  {
    var step := Walk(g, g[u].children[i], now);
    var rest := WalkChildren(g, u, i + 1, now + Entered(step));
    assert WalkChildren(g, u, i, now) == step + rest;
    assert done + (step + rest) == (done + step) + rest;
    EnteredLeftAppend(done, step);
    TextAppend(g, StaticBuffer, done, step);
    TextAppend(g, MainBuffer, done, step);
    ConcatAssoc(staticCode, Text(g, StaticBuffer, done), Text(g, StaticBuffer, step));
    ConcatAssoc(mainCode, Text(g, MainBuffer, done), Text(g, MainBuffer, step));
  }

  /** The traversal lambda of `fetchCode` applied to one child slot. */
  method Visit(g: Graph, slot: Option<Uuid>, visited: set<Uuid>, staticCode: string, mainCode: string)
    returns (visited': set<Uuid>, staticCode': string, mainCode': string)
    requires WellFormed(g) && Refers(g, slot)
    ensures var t := Walk(g, slot, visited);
      && visited' == visited + Entered(t)
      && staticCode' == staticCode + Text(g, StaticBuffer, t)
      && mainCode' == mainCode + Text(g, MainBuffer, t)
    ensures visited <= visited'
    ensures slot.None? || slot.value in visited ==> visited' == visited && staticCode' == staticCode && mainCode' == mainCode
    ensures slot.Some? ==> slot.value in visited'
    decreases |g.Keys - visited|, 0
  {
    if slot.None? || slot.value in visited {
      WalkSkipped(g, slot, visited, staticCode, mainCode);
      visited', staticCode', mainCode' := visited, staticCode, mainCode;
    } else {
      var u := slot.value;
      OneFewerUnvisited(g.Keys, visited, u);
      visited', staticCode', mainCode' := TraverseChildren(g, u, visited + {u}, staticCode + g[u].staticCode, mainCode);
      mainCode' := mainCode' + g[u].instanceCode;
      WalkUnvisited(g, u, visited, staticCode, mainCode);
    }
  }

  /** `traverseChildren`: the traversal lambda applied to each child slot of
      `u` in declared order, threading the visited set and both buffers. */
  method TraverseChildren(g: Graph, u: Uuid, visited: set<Uuid>, staticCode: string, mainCode: string)
    returns (visited': set<Uuid>, staticCode': string, mainCode': string)
    requires WellFormed(g) && u in g
    ensures var t := WalkChildren(g, u, 0, visited);
      && visited' == visited + Entered(t)
      && staticCode' == staticCode + Text(g, StaticBuffer, t)
      && mainCode' == mainCode + Text(g, MainBuffer, t)
    decreases |g.Keys - visited|, 1
  {
    visited', staticCode', mainCode' := visited, staticCode, mainCode;
    var children := g[u].children;
    ghost var done: seq<Event> := [];
    for i := 0 to |children|
      invariant visited' == visited + Entered(done)
      invariant staticCode' == staticCode + Text(g, StaticBuffer, done)
      invariant mainCode' == mainCode + Text(g, MainBuffer, done)
      invariant WalkChildren(g, u, 0, visited) == done + WalkChildren(g, u, i, visited')
    {
      ghost var step := Walk(g, children[i], visited');
      FewerUnvisited(g.Keys, visited, visited');
      ChildStep(g, u, i, visited, visited', done, staticCode, mainCode);
      visited', staticCode', mainCode' := Visit(g, children[i], visited', staticCode', mainCode');
      done := done + step;
    }
    assert done + [] == done;
  }

  /** `fetchCode`: the generated source for one root. */
  method FetchCode(g: Graph, root: Uuid) returns (code: string)
    requires WellFormed(g) && root in g
    ensures code == Generated(g, root)
  {
    var staticCode := StaticHeader + g[root].staticCode;
    var mainCode := MainHeader;
    var visited: set<Uuid> := {};
    visited, staticCode, mainCode := TraverseChildren(g, root, visited, staticCode, mainCode);
    mainCode := mainCode + g[root].instanceCode;
    mainCode := mainCode + Footer;
    code := staticCode + mainCode;
  }
}
