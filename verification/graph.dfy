/** The server network as the host's `scan` exposes it: a neighbour list per
    server name. Reachability is the existence of a walk along `scan` edges. */
module Graph {

  /** `scan(name)` for every server the host knows; a name with no entry has
      no neighbours. */
  type Topology = map<string, seq<string>>

  function Scan(g: Topology, x: string): seq<string> {
    if x in g then g[x] else []
  }

  /** Every consecutive pair of `p` is a `scan` edge. */
  ghost predicate IsWalk(g: Topology, p: seq<string>) {
    forall i :: 0 <= i < |p| - 1 ==> p[i + 1] in Scan(g, p[i])
  }

  ghost predicate Reachable(g: Topology, root: string, x: string) {
    exists p :: IsWalk(g, p) && |p| >= 1 && p[0] == root && p[|p| - 1] == x
  }

  /** No `scan` edge leaves `s`. */
  ghost predicate Closed(g: Topology, s: set<string>) {
    forall x, y :: x in s && y in Scan(g, x) ==> y in s
  }

  /** Every name a walk from `root` can meet. */
  ghost function Universe(g: Topology, root: string): set<string> {
    {root} + (set k, y | k in g && y in g[k] :: y)
  }

  lemma ScanInUniverse(g: Topology, root: string, x: string, y: string)
    requires y in Scan(g, x)
    ensures y in Universe(g, root)
  {
    assert x in g && y in g[x];
  }

  lemma WalkExtend(g: Topology, p: seq<string>, y: string)
    requires IsWalk(g, p) && |p| >= 1 && y in Scan(g, p[|p| - 1])
    ensures IsWalk(g, p + [y])
  {
    var q := p + [y];
    forall i | 0 <= i < |q| - 1
      ensures q[i + 1] in Scan(g, q[i])
    {
      if i < |p| - 1 {
        assert q[i] == p[i] && q[i + 1] == p[i + 1];
      }
    }
  }

  lemma ReachableRoot(g: Topology, root: string)
    ensures Reachable(g, root, root)
  {
    assert IsWalk(g, [root]);
  }

  lemma ReachableStep(g: Topology, root: string, x: string, y: string)
    requires Reachable(g, root, x) && y in Scan(g, x)
    ensures Reachable(g, root, y)
  {
    var p :| IsWalk(g, p) && |p| >= 1 && p[0] == root && p[|p| - 1] == x;
    WalkExtend(g, p, y);
    var q := p + [y];
    assert q[0] == root && q[|q| - 1] == y;
  }

  /** A closed set holding the root holds everything reachable from it. */
  lemma ClosedHoldsReachable(g: Topology, root: string, s: set<string>, x: string)
    requires root in s && Closed(g, s) && Reachable(g, root, x)
    ensures x in s
  {
    var p :| IsWalk(g, p) && |p| >= 1 && p[0] == root && p[|p| - 1] == x;
    WalkPrefixInClosed(g, s, p, |p| - 1);
  }

  lemma {:induction false} WalkPrefixInClosed(g: Topology, s: set<string>, p: seq<string>, k: nat)
    requires IsWalk(g, p) && |p| >= 1 && p[0] in s && Closed(g, s) && k < |p|
    ensures p[k] in s
    decreases k
  {
    if k > 0 {
      WalkPrefixInClosed(g, s, p, k - 1);
      assert p[k] in Scan(g, p[k - 1]);
    }
  }
}
