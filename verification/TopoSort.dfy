/** Foreign-key ordering (internal/connector/fk.go topoSort): Kahn's algorithm with a fallback for cycles. */
module TopoSort {
  import opened Base

  // Table child references table parent.
  datatype FK = FK(child: string, parent: string)

  // ---------- what an order must respect ----------

  predicate Relevant(tables: seq<string>, c: FK) {
    c.child in tables && c.parent in tables
  }

  predicate References(tables: seq<string>, fks: seq<FK>, child: string, parent: string) {
    FK(child, parent) in fks && Relevant(tables, FK(child, parent))
  }

  // A chain of tables, each referenced by the next.
  predicate Chain(tables: seq<string>, fks: seq<FK>, p: seq<string>) {
    p != [] && (forall i :: 0 <= i < |p| ==> p[i] in tables) &&
    forall i :: 0 <= i < |p| - 1 ==> References(tables, fks, p[i + 1], p[i])
  }

  ghost predicate Ancestor(tables: seq<string>, fks: seq<FK>, a: string, t: string) {
    exists p :: Chain(tables, fks, p) && p[0] == a && p[|p| - 1] == t
  }

  ghost predicate OnCycle(tables: seq<string>, fks: seq<FK>, t: string) {
    exists p :: Chain(tables, fks, p) && |p| > 1 && p[0] == t && p[|p| - 1] == t
  }

  // No ancestor of t, t included, lies on a cycle.
  ghost predicate Sortable(tables: seq<string>, fks: seq<FK>, t: string) {
    t in tables && forall a :: Ancestor(tables, fks, a, t) ==> !OnCycle(tables, fks, a)
  }

  // Every table of the order comes after all the tables it references.
  ghost predicate Ordered(tables: seq<string>, fks: seq<FK>, order: seq<string>) {
    forall k, parent :: 0 <= k < |order| && References(tables, fks, order[k], parent) ==> parent in order[..k]
  }

  // ---------- in-degrees ----------

  // The references of t to tables outside done, counted with repetition.
  function Pending(tables: seq<string>, fks: seq<FK>, done: set<string>, t: string): nat {
    if fks == [] then 0
    else
      var c := fks[|fks| - 1];
      Pending(tables, fks[..|fks| - 1], done, t)
      + (if Relevant(tables, c) && c.child == t && c.parent !in done then 1 else 0)
  }

  function Elements(order: seq<string>): set<string> {
    set t | t in order
  }

  // Every table left out still waits for a table left out.
  ghost predicate Stuck(tables: seq<string>, fks: seq<FK>, order: seq<string>) {
    forall t :: t in tables && t !in order ==> Pending(tables, fks, Elements(order), t) > 0
  }

  function ChildrenOf(tables: seq<string>, fks: seq<FK>, parent: string): seq<string> {
    if fks == [] then []
    else
      var c := fks[|fks| - 1];
      ChildrenOf(tables, fks[..|fks| - 1], parent)
      + (if Relevant(tables, c) && c.parent == parent then [c.child] else [])
  }

  lemma {:induction false} PendingAfter(tables: seq<string>, fks: seq<FK>, done: set<string>, node: string, t: string)
    requires node !in done
    ensures Pending(tables, fks, done, t)
      == Pending(tables, fks, done + {node}, t) + multiset(ChildrenOf(tables, fks, node))[t]
  {
    if fks != [] { PendingAfter(tables, fks[..|fks| - 1], done, node, t); }
  }

  lemma {:induction false} NothingPending(tables: seq<string>, fks: seq<FK>, done: set<string>, t: string)
    ensures Pending(tables, fks, done, t) == 0 <==>
      forall parent :: References(tables, fks, t, parent) ==> parent in done
  {
    if fks != [] {
      var init, c := fks[..|fks| - 1], fks[|fks| - 1];
      NothingPending(tables, init, done, t);
      assert forall d :: d in fks <==> d in init || d == c;
      assert forall parent :: References(tables, fks, t, parent) <==>
        References(tables, init, t, parent) || (c == FK(t, parent) && Relevant(tables, c));
    }
  }

  lemma {:induction false} ChildrenKnown(tables: seq<string>, fks: seq<FK>, parent: string)
    ensures forall x :: x in ChildrenOf(tables, fks, parent) ==> x in tables
  {
    if fks != [] { ChildrenKnown(tables, fks[..|fks| - 1], parent); }
  }

  // ---------- the sort ----------

  // The tables that reference none of the others, in their original order.
  function Roots(tables: seq<string>, fks: seq<FK>, among: seq<string>): seq<string> {
    if among == [] then []
    else
      var t := among[|among| - 1];
      Roots(tables, fks, among[..|among| - 1]) + (if Pending(tables, fks, {}, t) == 0 then [t] else [])
  }

  // The tables missing from an order, in their original order.
  function Leftover(tables: seq<string>, order: seq<string>): seq<string> {
    if tables == [] then []
    else
      var t := tables[|tables| - 1];
      Leftover(tables[..|tables| - 1], order) + (if t !in order then [t] else [])
  }

  function Get(children: map<string, seq<string>>, t: string): seq<string> {
    if t in children then children[t] else []
  }

  method ZeroDegrees(tables: seq<string>) returns (inDegree: map<string, int>)
    ensures forall t :: t in inDegree <==> t in tables
    ensures forall t :: t in tables ==> inDegree[t] == 0
  {
    inDegree := map[];
    for i := 0 to |tables|
      invariant forall t :: t in inDegree <==> t in tables[..i]
      invariant forall t :: t in inDegree ==> inDegree[t] == 0
    {
      inDegree := inDegree[tables[i] := 0];
    }
  }

  // In-degrees and children as the references of fks make them.
  ghost predicate Graph(tables: seq<string>, fks: seq<FK>, inDegree: map<string, int>, children: map<string, seq<string>>) {
    (forall t :: t in inDegree <==> t in tables)
    && (forall t :: t in tables ==> inDegree[t] == Pending(tables, fks, {}, t))
    && (forall t :: Get(children, t) == ChildrenOf(tables, fks, t))
  }

  lemma OneMore(tables: seq<string>, fks: seq<FK>, c: FK, t: string)
    ensures Pending(tables, fks + [c], {}, t) == Pending(tables, fks, {}, t) + (if Relevant(tables, c) && c.child == t then 1 else 0)
    ensures ChildrenOf(tables, fks + [c], t)
      == ChildrenOf(tables, fks, t) + (if Relevant(tables, c) && c.parent == t then [c.child] else [])
  {
    var all := fks + [c];
    assert all[..|all| - 1] == fks && all[|all| - 1] == c;
  }

  lemma GraphSkip(tables: seq<string>, fks: seq<FK>, c: FK, inDegree: map<string, int>, children: map<string, seq<string>>)
    requires Graph(tables, fks, inDegree, children) && !Relevant(tables, c)
    ensures Graph(tables, fks + [c], inDegree, children)
  {
    forall t ensures Pending(tables, fks + [c], {}, t) == Pending(tables, fks, {}, t)
      && ChildrenOf(tables, fks + [c], t) == ChildrenOf(tables, fks, t)
    {
      OneMore(tables, fks, c, t);
      assert ChildrenOf(tables, fks, t) + [] == ChildrenOf(tables, fks, t);
    }
  }

  lemma GraphAdd(tables: seq<string>, fks: seq<FK>, c: FK, inDegree: map<string, int>, children: map<string, seq<string>>)
    requires Graph(tables, fks, inDegree, children) && Relevant(tables, c)
    ensures Graph(tables, fks + [c],
      inDegree[c.child := inDegree[c.child] + 1], children[c.parent := Get(children, c.parent) + [c.child]])
  {
    var inDegree' := inDegree[c.child := inDegree[c.child] + 1];
    var children' := children[c.parent := Get(children, c.parent) + [c.child]];
    forall t | t in tables ensures inDegree'[t] == Pending(tables, fks + [c], {}, t) {
      OneMore(tables, fks, c, t);
    }
    forall t ensures Get(children', t) == ChildrenOf(tables, fks + [c], t) {
      OneMore(tables, fks, c, t);
      assert Get(children, t) + [] == Get(children, t);
    }
  }

  // Takes one reference into account; those to or from tables not listed are passed over.
  method AddEdge(ghost tables: seq<string>, ghost fks: seq<FK>, c: FK, inDegree0: map<string, int>, children0: map<string, seq<string>>)
    returns (inDegree: map<string, int>, children: map<string, seq<string>>)
    requires Graph(tables, fks, inDegree0, children0)
    ensures Graph(tables, fks + [c], inDegree, children)
  {
    inDegree, children := inDegree0, children0;
    if c.parent !in inDegree || c.child !in inDegree {
      GraphSkip(tables, fks, c, inDegree, children);
      return;
    }
    GraphAdd(tables, fks, c, inDegree, children);
    children := children[c.parent := Get(children, c.parent) + [c.child]];
    inDegree := inDegree[c.child := inDegree[c.child] + 1];
  }

  method BuildGraph(tables: seq<string>, fks: seq<FK>) returns (inDegree: map<string, int>, children: map<string, seq<string>>)
    ensures Graph(tables, fks, inDegree, children)
  {
    inDegree := ZeroDegrees(tables);
    children := map[];
    for i := 0 to |fks|
      invariant Graph(tables, fks[..i], inDegree, children)
    {
      assert fks[..i + 1] == fks[..i] + [fks[i]];
      inDegree, children := AddEdge(tables, fks[..i], fks[i], inDegree, children);
    }
    assert fks[..|fks|] == fks;
  }

  // The bookkeeping between two rounds: the tables reached so far are those with no open reference.
  ghost predicate Balanced(tables: seq<string>, inDegree: map<string, int>, reached: seq<string>) {
    && (forall t :: t in inDegree <==> t in tables)
    && Distinct(reached)
    && (forall t :: t in tables ==> (inDegree[t] == 0 <==> t in reached))
    && (forall t :: t in reached ==> t in tables)
  }

  lemma KidCount(kids: seq<string>, j: nat)
    requires j < |kids|
    ensures kids[j] in kids && multiset(kids)[kids[j]] >= multiset(kids[..j])[kids[j]] + 1
    ensures multiset(kids[..j + 1]) == multiset(kids[..j]) + multiset{kids[j]}
  {
    assert kids[..j + 1] == kids[..j] + [kids[j]];
    assert kids == kids[..j] + [kids[j]] + kids[j + 1..];
  }

  // The first j children have been taken off the in-degrees.
  ghost predicate Lowered(tables: seq<string>, before: map<string, int>, after: map<string, int>, kids: seq<string>, j: nat)
    requires j <= |kids|
  {
    (forall t :: t in before <==> t in tables) && (forall t :: t in after <==> t in tables) &&
    forall t :: t in tables ==> after[t] == before[t] - multiset(kids[..j])[t]
  }

  // The state of a release after j children: those queued so far are added.
  ghost predicate Released(tables: seq<string>, before: map<string, int>, after: map<string, int>, reached: seq<string>,
      queue0: seq<string>, queue: seq<string>, kids: seq<string>, j: nat)
    requires j <= |kids|
  {
    queue0 <= queue && Balanced(tables, after, reached + queue[|queue0|..]) && Lowered(tables, before, after, kids, j)
  }

  lemma ReleaseStep(tables: seq<string>, before: map<string, int>, inDegree: map<string, int>, reached: seq<string>,
      queue0: seq<string>, queue: seq<string>, kids: seq<string>, j: nat)
    requires j < |kids| && kids[j] in tables && Released(tables, before, inDegree, reached, queue0, queue, kids, j)
    requires before[kids[j]] >= multiset(kids)[kids[j]]
    ensures kids[j] in inDegree
    ensures var lowered := inDegree[kids[j] := inDegree[kids[j]] - 1];
      Released(tables, before, lowered, reached, queue0, if lowered[kids[j]] == 0 then queue + [kids[j]] else queue, kids, j + 1)
  {
    KidCount(kids, j);
    var now := reached + queue[|queue0|..];
    assert kids[j] !in now;
    assert reached + (queue + [kids[j]])[|queue0|..] == now + [kids[j]];
  }

  // Takes one reference off child j, queueing it when none is left.
  method ReleaseOne(ghost tables: seq<string>, ghost before: map<string, int>, inDegree0: map<string, int>, ghost reached: seq<string>,
      ghost queue0: seq<string>, queue1: seq<string>, kids: seq<string>, j: nat)
    returns (inDegree: map<string, int>, queue: seq<string>)
    requires j < |kids| && kids[j] in tables && Released(tables, before, inDegree0, reached, queue0, queue1, kids, j)
    requires before[kids[j]] >= multiset(kids)[kids[j]]
    ensures Released(tables, before, inDegree, reached, queue0, queue, kids, j + 1)
  {
    ReleaseStep(tables, before, inDegree0, reached, queue0, queue1, kids, j);
    var child := kids[j];
    inDegree, queue := inDegree0[child := inDegree0[child] - 1], queue1;
    if inDegree[child] == 0 {
      queue := queue + [child];
    }
  }

  // Lowers the in-degree of node's children, queueing those that reach zero.
  method Release(ghost tables: seq<string>, inDegree0: map<string, int>, queue0: seq<string>, kids: seq<string>, ghost reached: seq<string>)
    returns (inDegree: map<string, int>, queue: seq<string>)
    requires Balanced(tables, inDegree0, reached)
    requires forall k :: 0 <= k < |kids| ==> kids[k] in tables && inDegree0[kids[k]] >= multiset(kids)[kids[k]]
    ensures Released(tables, inDegree0, inDegree, reached, queue0, queue, kids, |kids|)
  {
    inDegree, queue := inDegree0, queue0;
    assert reached + queue[|queue0|..] == reached;
    for j := 0 to |kids|
      invariant Released(tables, inDegree0, inDegree, reached, queue0, queue, kids, j)
    {
      inDegree, queue := ReleaseOne(tables, inDegree0, inDegree, reached, queue0, queue, kids, j);
    }
  }

  method InitialQueue(tables: seq<string>, fks: seq<FK>, inDegree: map<string, int>) returns (queue: seq<string>)
    requires Distinct(tables)
    requires forall t :: t in inDegree <==> t in tables
    requires forall t :: t in tables ==> inDegree[t] == Pending(tables, fks, {}, t)
    ensures queue == Roots(tables, fks, tables)
    ensures Balanced(tables, inDegree, queue)
  {
    queue := [];
    for i := 0 to |tables|
      invariant queue == Roots(tables, fks, tables[..i])
      invariant Distinct(queue)
      invariant forall t :: t in queue <==> t in tables[..i] && inDegree[t] == 0
    {
      assert tables[..i + 1][..i] == tables[..i];
      assert tables[i] !in tables[..i];
      if inDegree[tables[i]] == 0 {
        queue := queue + [tables[i]];
      }
    }
    assert tables[..|tables|] == tables;
  }

  lemma QueueHead(ordered: seq<string>, queue: seq<string>)
    requires Distinct(ordered + queue) && queue != []
    ensures queue[0] in ordered + queue && queue[0] !in ordered
    ensures ordered + queue == (ordered + [queue[0]]) + queue[1..]
  {
    assert (ordered + queue)[|ordered|] == queue[0];
    assert forall k :: 0 <= k < |ordered| ==> (ordered + queue)[k] == ordered[k];
  }

  lemma DistinctAppend(a: seq<string>, b: seq<string>)
    requires Distinct(a) && Distinct(b) && forall x :: x in a ==> x !in b
    ensures Distinct(a + b)
  {
    forall i, j | 0 <= i < j < |a + b| ensures (a + b)[i] != (a + b)[j] {
      if i < |a| <= j { assert a[i] in a && b[j - |a|] in b; }
    }
  }

  lemma OrderedAppend(tables: seq<string>, fks: seq<FK>, ordered: seq<string>, node: string)
    requires Ordered(tables, fks, ordered)
    requires forall parent :: References(tables, fks, node, parent) ==> parent in ordered
    ensures Ordered(tables, fks, ordered + [node])
  {
    assert (ordered + [node])[..|ordered|] == ordered;
    assert forall k :: 0 <= k < |ordered| ==> (ordered + [node])[..k] == ordered[..k];
  }

  // What holds between two rounds.
  ghost predicate Round(tables: seq<string>, fks: seq<FK>, inDegree: map<string, int>, queue: seq<string>, ordered: seq<string>) {
    && Balanced(tables, inDegree, ordered + queue)
    && (forall t :: t in tables ==> inDegree[t] == Pending(tables, fks, Elements(ordered), t))
    && Ordered(tables, fks, ordered)
  }

  lemma TakeHead(tables: seq<string>, fks: seq<FK>, inDegree: map<string, int>, queue: seq<string>, ordered: seq<string>)
    requires Round(tables, fks, inDegree, queue, ordered) && queue != []
    ensures var node, kids := queue[0], ChildrenOf(tables, fks, queue[0]);
      var ordered' := ordered + [node];
      Balanced(tables, inDegree, ordered' + queue[1..]) && Ordered(tables, fks, ordered')
      && (forall t :: t in tables ==> inDegree[t] == Pending(tables, fks, Elements(ordered'), t) + multiset(kids)[t])
      && (forall x :: x in kids ==> x in tables)
      && Elements(ordered') == Elements(ordered) + {node} && node in tables && node !in ordered
      && ordered + queue == ordered' + queue[1..]
  {
    var node := queue[0];
    QueueHead(ordered, queue);
    NothingPending(tables, fks, Elements(ordered), node);
    OrderedAppend(tables, fks, ordered, node);
    ChildrenKnown(tables, fks, node);
    assert Elements(ordered + [node]) == Elements(ordered) + {node};
    forall t ensures Pending(tables, fks, Elements(ordered), t)
      == Pending(tables, fks, Elements(ordered) + {node}, t) + multiset(ChildrenOf(tables, fks, node))[t] {
      PendingAfter(tables, fks, Elements(ordered), node, t);
    }
  }

  lemma RoundAfter(tables: seq<string>, fks: seq<FK>, before: map<string, int>, after: map<string, int>,
      rest: seq<string>, queue: seq<string>, ordered: seq<string>, kids: seq<string>)
    requires forall t :: t in tables ==> t in before && before[t] == Pending(tables, fks, Elements(ordered), t) + multiset(kids)[t]
    requires Released(tables, before, after, ordered + rest, rest, queue, kids, |kids|)
    requires Ordered(tables, fks, ordered)
    ensures Round(tables, fks, after, queue, ordered)
    ensures ordered + rest <= ordered + queue
  {
    assert kids[..|kids|] == kids;
    assert (ordered + rest) + queue[|rest|..] == ordered + queue;
  }

  // One round: the head of the queue is put out and its children released.
  method KahnRound(ghost tables: seq<string>, ghost fks: seq<FK>, inDegree0: map<string, int>, children: map<string, seq<string>>,
      queue0: seq<string>, ordered0: seq<string>)
    returns (inDegree: map<string, int>, queue: seq<string>, ordered: seq<string>)
    requires Round(tables, fks, inDegree0, queue0, ordered0) && queue0 != []
    requires Get(children, queue0[0]) == ChildrenOf(tables, fks, queue0[0])
    ensures Round(tables, fks, inDegree, queue, ordered)
    ensures ordered0 + queue0 <= ordered + queue
    ensures Elements(tables) - Elements(ordered) < Elements(tables) - Elements(ordered0)
  {
    TakeHead(tables, fks, inDegree0, queue0, ordered0);
    var node, rest := queue0[0], queue0[1..];
    ordered := ordered0 + [node];
    inDegree, queue := Release(tables, inDegree0, rest, Get(children, node), ordered + rest);
    RoundAfter(tables, fks, inDegree0, inDegree, rest, queue, ordered, Get(children, node));
    assert node in Elements(tables) - Elements(ordered0);
  }

  // Kahn's rounds: the returned order holds exactly the tables that could be released.
  method Kahn(tables: seq<string>, fks: seq<FK>) returns (ordered: seq<string>)
    requires Distinct(tables)
    ensures Distinct(ordered) && forall t :: t in ordered ==> t in tables
    ensures Ordered(tables, fks, ordered) && Stuck(tables, fks, ordered)
    ensures Roots(tables, fks, tables) <= ordered
  {
    var inDegree, children := BuildGraph(tables, fks);
    var queue := InitialQueue(tables, fks, inDegree);
    ordered := [];
    assert ordered + queue == queue;
    assert Elements([]) == {};
    while |queue| > 0
      invariant Round(tables, fks, inDegree, queue, ordered)
      invariant Roots(tables, fks, tables) <= ordered + queue
      decreases Elements(tables) - Elements(ordered)
    {
      inDegree, queue, ordered := KahnRound(tables, fks, inDegree, children, queue, ordered);
    }
    assert ordered + queue == ordered;
  }

  // The first n tables are exactly the sortable ones; the rest follow in their original order.
  ghost predicate SplitsAt(tables: seq<string>, fks: seq<FK>, order: seq<string>, n: nat)
    requires n <= |order|
  {
    (forall k :: 0 <= k < |order| ==> (k < n <==> Sortable(tables, fks, order[k]))) &&
    order[n..] == Leftover(tables, order[..n])
  }

  method TopoSort(tables: seq<string>, fks: seq<FK>) returns (order: seq<string>)
    requires Distinct(tables)
    ensures multiset(order) == multiset(tables)
    ensures forall k, parent :: 0 <= k < |order| && Sortable(tables, fks, order[k]) && References(tables, fks, order[k], parent) ==>
      parent in order[..k]
    ensures Roots(tables, fks, tables) <= order
    ensures exists n :: 0 <= n <= |order| && SplitsAt(tables, fks, order, n)
  {
    if |tables| == 0 {
      order := [];
      assert SplitsAt(tables, fks, order, 0);
      return;
    }
    var ordered := Kahn(tables, fks);
    order := ordered;
    for i := 0 to |tables|
      invariant order == ordered + Leftover(tables[..i], ordered)
    {
      assert tables[..i + 1][..i] == tables[..i];
      if tables[i] !in ordered {
        order := order + [tables[i]];
      }
    }
    assert tables[..|tables|] == tables;
    FinishOrder(tables, fks, ordered);
  }

  lemma FinishOrder(tables: seq<string>, fks: seq<FK>, ordered: seq<string>)
    requires Distinct(tables) && Distinct(ordered) && forall t :: t in ordered ==> t in tables
    requires Ordered(tables, fks, ordered) && Stuck(tables, fks, ordered)
    ensures var order := ordered + Leftover(tables, ordered);
      multiset(order) == multiset(tables) && SplitsAt(tables, fks, order, |ordered|)
      && forall k, parent :: 0 <= k < |order| && Sortable(tables, fks, order[k]) && References(tables, fks, order[k], parent) ==>
        parent in order[..k]
  {
    var rest := Leftover(tables, ordered);
    var order := ordered + rest;
    LeftoverElements(tables, ordered);
    assert forall x :: x in order <==> x in tables;
    DistinctAppend(ordered, rest);
    SamePermutation(order, tables);
    assert order[..|ordered|] == ordered && order[|ordered|..] == rest;
    forall k | 0 <= k < |order| ensures k < |ordered| <==> Sortable(tables, fks, order[k]) {
      assert order[k] in order;
      KahnCoversSortable(tables, fks, ordered, order[k]);
      if k >= |ordered| { assert order[k] == rest[k - |ordered|] && order[k] in rest; }
    }
    assert forall k :: 0 <= k < |ordered| ==> order[..k] == ordered[..k];
  }

  lemma {:induction false} LeftoverElements(tables: seq<string>, order: seq<string>)
    requires Distinct(tables)
    ensures forall t :: t in Leftover(tables, order) <==> t in tables && t !in order
    ensures Distinct(Leftover(tables, order))
  {
    if tables != [] {
      var init, last := tables[..|tables| - 1], tables[|tables| - 1];
      LeftoverElements(init, order);
      assert tables == init + [last];
    }
  }

  lemma {:induction false} DistinctCount(s: seq<string>, x: string)
    requires Distinct(s)
    ensures multiset(s)[x] == if x in s then 1 else 0
  {
    if s != [] {
      DistinctCount(s[1..], x);
      assert s == [s[0]] + s[1..];
    }
  }

  lemma SamePermutation(a: seq<string>, b: seq<string>)
    requires Distinct(a) && Distinct(b) && forall x :: x in a <==> x in b
    ensures multiset(a) == multiset(b)
  {
    forall x ensures multiset(a)[x] == multiset(b)[x] {
      DistinctCount(a, x);
      DistinctCount(b, x);
    }
  }

  // ---------- exactly the sortable tables are released ----------

  lemma {:induction false} ChainClimbs(tables: seq<string>, fks: seq<FK>, order: seq<string>, p: seq<string>, k: nat)
    requires Chain(tables, fks, p) && Ordered(tables, fks, order)
    requires k < |order| && p[|p| - 1] == order[k]
    ensures |p| - 1 <= k && p[0] in order[..k + 1 - (|p| - 1)]
  {
    if |p| > 1 {
      var q := p[..|p| - 1];
      assert References(tables, fks, order[k], q[|q| - 1]);
      var j :| 0 <= j < k && order[j] == q[|q| - 1];
      ChainClimbs(tables, fks, order, q, j);
      assert order[..j + 1 - (|q| - 1)] <= order[..k + 1 - (|p| - 1)];
    }
  }

  lemma ReleasedIsSortable(tables: seq<string>, fks: seq<FK>, order: seq<string>, t: string)
    requires Ordered(tables, fks, order) && t in order && t in tables
    ensures Sortable(tables, fks, t)
  {
    forall a | Ancestor(tables, fks, a, t) ensures !OnCycle(tables, fks, a) {
      var p :| Chain(tables, fks, p) && p[0] == a && p[|p| - 1] == t;
      var k :| 0 <= k < |order| && order[k] == t;
      ChainClimbs(tables, fks, order, p, k);
      assert a in order;
      if OnCycle(tables, fks, a) {
        var c :| Chain(tables, fks, c) && |c| > 1 && c[0] == a && c[|c| - 1] == a;
        NoCycleIn(tables, fks, order, c);
      }
    }
  }

  // A chain that returns to its start never starts in an ordered list.
  lemma NoCycleIn(tables: seq<string>, fks: seq<FK>, order: seq<string>, c: seq<string>)
    requires Chain(tables, fks, c) && |c| > 1 && c[0] == c[|c| - 1] && Ordered(tables, fks, order)
    ensures c[0] !in order
  {
    if c[0] in order {
      var k := IndexOf(order, c[0]).value;
      assert forall m :: 0 <= m <= k ==> order[..m] <= order[..k];
      ChainClimbs(tables, fks, order, c, k);
    }
  }

  lemma ChainExtend(tables: seq<string>, fks: seq<FK>, parent: string, q: seq<string>)
    requires Chain(tables, fks, q) && References(tables, fks, q[0], parent)
    ensures Chain(tables, fks, [parent] + q)
  {
    var p := [parent] + q;
    forall i | 0 <= i < |p| - 1 ensures References(tables, fks, p[i + 1], p[i]) {
      if i > 0 { assert References(tables, fks, q[i - 1 + 1], q[i - 1]); }
    }
  }

  lemma ChainSlice(tables: seq<string>, fks: seq<FK>, p: seq<string>, i: nat, j: nat)
    requires Chain(tables, fks, p) && i < j <= |p|
    ensures Chain(tables, fks, p[i..j])
  {
    var q := p[i..j];
    forall k | 0 <= k < |q| - 1 ensures References(tables, fks, q[k + 1], q[k]) {
      assert References(tables, fks, p[i + k + 1], p[i + k]);
    }
  }

  lemma {:induction false} ChainBack(tables: seq<string>, fks: seq<FK>, order: seq<string>, t: string, n: nat) returns (p: seq<string>)
    requires Stuck(tables, fks, order) && t in tables && t !in order
    ensures Chain(tables, fks, p) && |p| == n + 1 && p[|p| - 1] == t && forall i :: 0 <= i < |p| ==> p[i] !in order
  {
    if n == 0 {
      p := [t];
    } else {
      var q := ChainBack(tables, fks, order, t, n - 1);
      assert q[0] in tables && q[0] !in order;
      NothingPending(tables, fks, Elements(order), q[0]);
      var parent :| References(tables, fks, q[0], parent) && parent !in order;
      p := [parent] + q;
      ChainExtend(tables, fks, parent, q);
    }
  }

  lemma {:induction false} Pigeonhole(p: seq<string>, tables: seq<string>)
    requires Distinct(p) && forall x :: x in p ==> x in tables
    ensures |p| <= |tables|
  {
    if p != [] {
      var k := IndexOf(tables, p[0]).value;
      var rest := tables[..k] + tables[k + 1..];
      forall x | x in p[1..] ensures x in rest {
        assert x != p[0] && x in tables;
        assert tables == tables[..k] + [p[0]] + tables[k + 1..];
      }
      Pigeonhole(p[1..], rest);
    }
  }

  lemma LoopAndTail(tables: seq<string>, fks: seq<FK>, loop: seq<string>, tail: seq<string>)
    requires Chain(tables, fks, loop) && |loop| > 1 && loop[|loop| - 1] == loop[0]
    requires Chain(tables, fks, tail) && tail[0] == loop[0]
    ensures !Sortable(tables, fks, tail[|tail| - 1])
  {
    assert Ancestor(tables, fks, loop[0], tail[|tail| - 1]);
    assert OnCycle(tables, fks, loop[0]);
  }

  lemma Repeat(p: seq<string>, tables: seq<string>) returns (i: nat, j: nat)
    requires |p| > |tables| && forall x :: x in p ==> x in tables
    ensures i < j < |p| && p[i] == p[j]
  {
    if Distinct(p) { Pigeonhole(p, tables); }
    i, j :| 0 <= i < j < |p| && p[i] == p[j];
  }

  // The end of a chain that comes back to itself cannot be released.
  lemma RepeatUnsortable(tables: seq<string>, fks: seq<FK>, p: seq<string>, i: nat, j: nat)
    requires Chain(tables, fks, p) && i < j < |p| && p[i] == p[j]
    ensures !Sortable(tables, fks, p[|p| - 1])
  {
    ChainSlice(tables, fks, p, i, j + 1);
    ChainSlice(tables, fks, p, i, |p|);
    var loop, tail := p[i..j + 1], p[i..|p|];
    assert loop[|loop| - 1] == p[j] && tail[|tail| - 1] == p[|p| - 1];
    LoopAndTail(tables, fks, loop, tail);
  }

  lemma StuckIsUnsortable(tables: seq<string>, fks: seq<FK>, order: seq<string>, t: string)
    requires Stuck(tables, fks, order) && t in tables && t !in order
    ensures !Sortable(tables, fks, t)
  {
    var p := ChainBack(tables, fks, order, t, |tables|);
    var i, j := Repeat(p, tables);
    RepeatUnsortable(tables, fks, p, i, j);
  }

  /** Kahn's rounds release a table exactly when no ancestor of it lies on a cycle. */
  lemma KahnCoversSortable(tables: seq<string>, fks: seq<FK>, order: seq<string>, t: string)
    requires Ordered(tables, fks, order) && Stuck(tables, fks, order) && t in tables
    ensures t in order <==> Sortable(tables, fks, t)
  {
    if t in order {
      ReleasedIsSortable(tables, fks, order, t);
    } else {
      StuckIsUnsortable(tables, fks, order, t);
    }
  }

  /** Without cycles a result of TopoSort, described by its contract, has every table after all the tables it
      references. */
  lemma AcyclicFullyOrdered(tables: seq<string>, fks: seq<FK>, order: seq<string>)
    requires multiset(order) == multiset(tables)
    requires forall k, parent :: 0 <= k < |order| && Sortable(tables, fks, order[k]) && References(tables, fks, order[k], parent) ==>
      parent in order[..k]
    requires forall t :: !OnCycle(tables, fks, t)
    ensures Ordered(tables, fks, order)
  {
    forall k, parent | 0 <= k < |order| && References(tables, fks, order[k], parent) ensures parent in order[..k] {
      assert Sortable(tables, fks, order[k]);
    }
  }
}
