/** `getAllServers` of the all-servers script: a depth-first walk from the
    current host that pops a node, pushes those of its children whose name is
    not yet in the output, then appends the popped node to the output. A name
    pushed twice before it is popped is emitted twice: the output is sound and
    complete for reachability, but not duplicate-free. */
module AllServers {
  import opened Common
  import opened Graph
  import opened ServerNodes

  /** Names of a node list, in order. */
  function Names(s: seq<Node>): (r: seq<string>)
    ensures |r| == |s|
    ensures forall i :: 0 <= i < |s| ==> r[i] == s[i].name
  {
    seq(|s|, i requires 0 <= i < |s| => s[i].name)
  }

  /** `isDuplicated`: some existing node has the target's name. */
  function IsDuplicated(existing: seq<Node>, target: Node): (r: bool)
    ensures r <==> exists i :: 0 <= i < |existing| && existing[i].name == target.name
  {
    target.name in Names(existing)
  }

  /** A node whose parent chain is a walk of `g` starting at `root`. */
  ghost predicate Grounded(g: Topology, root: string, n: Node) {
    Ancestry(n)[0] == root && IsWalk(g, Ancestry(n))
  }

  /** Stack entries whose name already appears among `names`. */
  function CountSeen(stack: seq<Node>, names: set<string>): nat
    decreases |stack|
  {
    if |stack| == 0 then 0
    else CountSeen(stack[..|stack| - 1], names) + (if stack[|stack| - 1].name in names then 1 else 0)
  }

  lemma {:induction false} CountSeenAppend(a: seq<Node>, b: seq<Node>, names: set<string>)
    ensures CountSeen(a + b, names) == CountSeen(a, names) + CountSeen(b, names)
    decreases |b|
  {
    if |b| == 0 {
      assert a + b == a;
    } else {
      assert (a + b)[..|a + b| - 1] == a + b[..|b| - 1];
      CountSeenAppend(a, b[..|b| - 1], names);
    }
  }

  lemma {:induction false} CountSeenNone(s: seq<Node>, names: set<string>)
    requires forall i :: 0 <= i < |s| ==> s[i].name !in names
    ensures CountSeen(s, names) == 0
    decreases |s|
  {
    if |s| > 0 {
      CountSeenNone(s[..|s| - 1], names);
    }
  }

  lemma ChildGrounded(g: Topology, root: string, current: Node, child: Node)
    requires Grounded(g, root, current)
    requires child.parent == Some(current) && child.name in Scan(g, current.name)
    ensures Grounded(g, root, child)
  {
    assert Ancestry(child) == Ancestry(current) + [child.name];
    WalkExtend(g, Ancestry(current), child.name);
  }

  lemma GroundedReachable(g: Topology, root: string, n: Node)
    requires Grounded(g, root, n)
    ensures Reachable(g, root, n.name)
  {
    var p := Ancestry(n);
    assert IsWalk(g, p) && |p| >= 1 && p[0] == root && p[|p| - 1] == n.name;
  }

  /** The children of `current` that `getAllServers` pushes: those whose name
      is not yet among the output nodes `all`. */
  function Unseen(g: Topology, all: seq<Node>, current: Node): seq<Node> {
    Filter(Children(current, Scan(g, current.name)), (child: Node) => !IsDuplicated(all, child))
  }

  function NameSet(s: seq<Node>): set<string> {
    set n | n in s :: n.name
  }

  lemma UnseenFacts(g: Topology, all: seq<Node>, current: Node, c: Node)
    requires c in Unseen(g, all, current)
    ensures c.parent == Some(current) && c.name in Scan(g, current.name)
    ensures c.name !in NameSet(all)
  {
    var kids := Children(current, Scan(g, current.name));
    FilterMembership(kids, (child: Node) => !IsDuplicated(all, child), c);
    forall n | n in all
      ensures n.name != c.name
    {
      var j :| 0 <= j < |all| && all[j] == n;
    }
  }

  lemma NameSetAppend(a: seq<Node>, b: seq<Node>)
    ensures NameSet(a + b) == NameSet(a) + NameSet(b)
  {
    forall x | x in NameSet(a + b)
      ensures x in NameSet(a) + NameSet(b)
    {
      var n :| n in a + b && n.name == x;
      assert n in a || n in b;
    }
  }

  lemma NameSetIndex(s: seq<Node>, x: string)
    ensures x in NameSet(s) <==> x in Names(s)
  {
    if x in NameSet(s) {
      var n :| n in s && n.name == x;
      var i :| 0 <= i < |s| && s[i] == n;
      assert Names(s)[i] == x;
    }
    if x in Names(s) {
      var i :| 0 <= i < |s| && Names(s)[i] == x;
      assert s[i] in s;
    }
  }

  /** Every non-root output node was discovered by an earlier output node. */
  ghost predicate ParentsEarlier(g: Topology, all: seq<Node>) {
    forall i :: 1 <= i < |all| ==>
      all[i].parent.Some? && all[i].parent.value in all[..i]
      && all[i].name in Scan(g, all[i].parent.value.name)
  }

  /** Every stacked node was discovered by an output node. */
  ghost predicate StackLinked(g: Topology, all: seq<Node>, stack: seq<Node>) {
    forall k :: 0 <= k < |stack| ==>
      stack[k].parent.Some? && stack[k].parent.value in all
      && stack[k].name in Scan(g, stack[k].parent.value.name)
  }

  ghost predicate AllGrounded(g: Topology, root: string, s: seq<Node>) {
    forall i :: 0 <= i < |s| ==> Grounded(g, root, s[i])
  }

  ghost predicate InUniverse(u: set<string>, s: seq<Node>) {
    forall i :: 0 <= i < |s| ==> s[i].name in u
  }

  /** Every neighbour of an output name is output or stacked. */
  ghost predicate Covered(g: Topology, all: seq<Node>, stack: seq<Node>) {
    forall x, y :: x in NameSet(all) && y in Scan(g, x) ==>
      y in NameSet(all) + NameSet(stack)
  }

  /** The loop invariant of `getAllServers`. */
  ghost predicate WalkInv(g: Topology, host: string, all: seq<Node>, stack: seq<Node>) {
    && (|all| == 0 ==> stack == [Node(host, None)])
    && (|all| >= 1 ==> all[0] == Node(host, None) && StackLinked(g, all, stack))
    && ParentsEarlier(g, all)
    && AllGrounded(g, host, all) && AllGrounded(g, host, stack)
    && InUniverse(Universe(g, host), all) && InUniverse(Universe(g, host), stack)
    && Covered(g, all, stack)
  }

  lemma StepLinks(g: Topology, host: string, all: seq<Node>, stack: seq<Node>)
    requires |stack| > 0 && WalkInv(g, host, all, stack)
    ensures var current := stack[|stack| - 1];
      var stack' := stack[..|stack| - 1] + Unseen(g, all, current);
      var all' := all + [current];
      && all'[0] == Node(host, None)
      && StackLinked(g, all', stack')
      && ParentsEarlier(g, all')
  {
    var current := stack[|stack| - 1];
    var unseen := Unseen(g, all, current);
    var stack' := stack[..|stack| - 1] + unseen;
    var all' := all + [current];
    forall k | 0 <= k < |stack'|
      ensures stack'[k].parent.Some? && stack'[k].parent.value in all'
        && stack'[k].name in Scan(g, stack'[k].parent.value.name)
    {
      if k >= |stack| - 1 {
        UnseenFacts(g, all, current, stack'[k]);
      }
    }
    forall i | 1 <= i < |all'|
      ensures all'[i].parent.Some? && all'[i].parent.value in all'[..i]
        && all'[i].name in Scan(g, all'[i].parent.value.name)
    {
      if i < |all| {
        assert all'[..i] == all[..i];
      } else {
        assert all'[..i] == all;
      }
    }
  }

  lemma StepGrounded(g: Topology, host: string, all: seq<Node>, stack: seq<Node>)
    requires |stack| > 0 && WalkInv(g, host, all, stack)
    ensures var current := stack[|stack| - 1];
      var stack' := stack[..|stack| - 1] + Unseen(g, all, current);
      var all' := all + [current];
      && AllGrounded(g, host, all') && AllGrounded(g, host, stack')
      && InUniverse(Universe(g, host), all') && InUniverse(Universe(g, host), stack')
  {
    var current := stack[|stack| - 1];
    var unseen := Unseen(g, all, current);
    var stack' := stack[..|stack| - 1] + unseen;
    forall k | |stack| - 1 <= k < |stack'|
      ensures Grounded(g, host, stack'[k]) && stack'[k].name in Universe(g, host)
    {
      UnseenFacts(g, all, current, stack'[k]);
      ChildGrounded(g, host, current, stack'[k]);
      ScanInUniverse(g, host, current.name, stack'[k].name);
    }
  }

  lemma StepCovered(g: Topology, host: string, all: seq<Node>, stack: seq<Node>)
    requires |stack| > 0 && Covered(g, all, stack)
    ensures var current := stack[|stack| - 1];
      Covered(g, all + [current], stack[..|stack| - 1] + Unseen(g, all, current))
  {
    var current := stack[|stack| - 1];
    var rest := stack[..|stack| - 1];
    var unseen := Unseen(g, all, current);
    var kids := Children(current, Scan(g, current.name));
    assert stack == rest + [current];
    NameSetAppend(rest, [current]);
    NameSetAppend(all, [current]);
    NameSetAppend(rest, unseen);
    assert NameSet([current]) == {current.name};
    var all' := all + [current];
    var stack' := rest + unseen;
    forall x, y | x in NameSet(all') && y in Scan(g, x)
      ensures y in NameSet(all') + NameSet(stack')
    {
      if x in NameSet(all) {
        assert y in NameSet(all) + NameSet(stack);
      } else if y !in NameSet(all) {
        assert x == current.name;
        var k :| 0 <= k < |Scan(g, current.name)| && Scan(g, current.name)[k] == y;
        NameSetIndex(all, y);
        FilterMembership(kids, (child: Node) => !IsDuplicated(all, child), kids[k]);
        assert kids[k] in unseen;
      }
    }
  }

  lemma StepDecreasesSeen(g: Topology, host: string, all: seq<Node>, stack: seq<Node>)
    requires |stack| > 0 && stack[|stack| - 1].name in NameSet(all)
    ensures var current := stack[|stack| - 1];
      var stack' := stack[..|stack| - 1] + Unseen(g, all, current);
      && NameSet(all + [current]) == NameSet(all)
      && CountSeen(stack', NameSet(all)) < CountSeen(stack, NameSet(all))
  {
    var current := stack[|stack| - 1];
    var rest := stack[..|stack| - 1];
    var unseen := Unseen(g, all, current);
    var seen := NameSet(all);
    NameSetAppend(all, [current]);
    assert NameSet([current]) == {current.name};
    forall i | 0 <= i < |unseen|
      ensures unseen[i].name !in seen
    {
      UnseenFacts(g, all, current, unseen[i]);
    }
    CountSeenAppend(rest, unseen, seen);
    CountSeenNone(unseen, seen);
  }

  lemma StepDecreasesNew(g: Topology, host: string, all: seq<Node>, stack: seq<Node>)
    requires |stack| > 0 && stack[|stack| - 1].name !in NameSet(all)
    requires stack[|stack| - 1].name in Universe(g, host)
    ensures var current := stack[|stack| - 1];
      var u := Universe(g, host);
      |u - NameSet(all + [current])| < |u - NameSet(all)|
  {
    var current := stack[|stack| - 1];
    var u := Universe(g, host);
    NameSetAppend(all, [current]);
    assert NameSet([current]) == {current.name};
    assert u - NameSet(all + [current]) == (u - NameSet(all)) - {current.name};
  }

  /** At the end of the walk the output names form a closed set around the
      root, so every reachable name is among them. */
  lemma FinishedWalk(g: Topology, host: string, all: seq<Node>)
    requires |all| >= 1 && all[0] == Node(host, None)
    requires Covered(g, all, []) && AllGrounded(g, host, all)
    ensures forall i :: 0 <= i < |all| ==> Reachable(g, host, all[i].name)
    ensures forall x :: Reachable(g, host, x) ==> x in Names(all)
  {
    var s := NameSet(all);
    assert NameSet([]) == {};
    assert Closed(g, s) by {
      forall x, y | x in s && y in Scan(g, x)
        ensures y in s
      {
        assert y in NameSet(all) + NameSet([]);
      }
    }
    assert all[0] in all;
    forall x | Reachable(g, host, x)
      ensures x in Names(all)
    {
      ClosedHoldsReachable(g, host, s, x);
      NameSetIndex(all, x);
    }
    forall i | 0 <= i < |all|
      ensures Reachable(g, host, all[i].name)
    {
      GroundedReachable(g, host, all[i]);
    }
  }

  /** The walk of `getAllServers` from the host named `host`. */
  method GetAllServers(g: Topology, host: string) returns (all: seq<Node>)
    ensures |all| >= 1 && all[0] == Node(host, None)
    ensures forall i :: 1 <= i < |all| ==>
      all[i].parent.Some? && all[i].parent.value in all[..i]
      && all[i].name in Scan(g, all[i].parent.value.name)
    ensures forall i :: 0 <= i < |all| ==> Reachable(g, host, all[i].name)
    ensures forall x :: Reachable(g, host, x) ==> x in Names(all)
  {
    var stack := [Node(host, None)];
    all := [];
    assert NameSet(all) == {};
    ReachableRoot(g, host);
    assert Grounded(g, host, Node(host, None));
    while |stack| > 0
      invariant WalkInv(g, host, all, stack)
      decreases |Universe(g, host) - NameSet(all)|, CountSeen(stack, NameSet(all))
    {
      StepLinks(g, host, all, stack);
      StepGrounded(g, host, all, stack);
      StepCovered(g, host, all, stack);
      if stack[|stack| - 1].name in NameSet(all) {
        StepDecreasesSeen(g, host, all, stack);
      } else {
        StepDecreasesNew(g, host, all, stack);
      }
      var current := stack[|stack| - 1];
      stack := stack[..|stack| - 1] + Unseen(g, all, current);
      all := all + [current];
    }
    FinishedWalk(g, host, all);
  }
}
