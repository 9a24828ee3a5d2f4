/** A node of the server topology discovered by a walk from a root: its name
    and the node that discovered it. The path string and the depth are derived
    from the parent chain; `children` wraps each scanned neighbour in a node
    whose parent is this one; `toJSON` flattens a node into a record. */
module ServerNodes {
  import opened Common
  import opened Servers

  datatype Node = Node(name: string, parent: Option<Node>)

  /** The separator between consecutive names of a path. */
  const SEPARATOR: string := " => "

  /** The walk of `getPath`: climb the parent chain, prepending each ancestor's
      name and a separator to the accumulated string. */
  function PathFrom(current: Node, acc: string): string
    decreases current
  {
    match current.parent
    case None => acc
    case Some(p) => PathFrom(p, p.name + SEPARATOR + acc)
  }

  /** The `path` getter: names from the root down to `n`, joined by `" => "`. */
  function Path(n: Node): string {
    PathFrom(n, n.name)
  }

  /** Names of the parent chain, root first and `n` last. */
  function Ancestry(n: Node): (r: seq<string>)
    ensures |r| >= 1 && r[|r| - 1] == n.name
    decreases n
  {
    match n.parent
    case None => [n.name]
    case Some(p) => Ancestry(p) + [n.name]
  }

  /** The node at the top of the parent chain. */
  function Root(n: Node): (r: Node)
    ensures r.parent.None?
    decreases n
  {
    match n.parent
    case None => n
    case Some(p) => Root(p)
  }

  /** What the walk prepends in front of the accumulator. */
  function Prefix(n: Node): string
    decreases n
  {
    match n.parent
    case None => ""
    case Some(p) => Prefix(p) + p.name + SEPARATOR
  }

  lemma {:induction false} PathFromIsPrefix(n: Node, acc: string)
    ensures PathFrom(n, acc) == Prefix(n) + acc
    decreases n
  {
    match n.parent
    case None =>
    case Some(p) =>
      PathFromIsPrefix(p, p.name + SEPARATOR + acc);
  }

  /** A root's path is its own name; any other node's path is its parent's
      path, the separator, then its own name. */
  lemma PathOfNode(n: Node)
    ensures n.parent.None? ==> Path(n) == n.name
    ensures n.parent.Some? ==> Path(n) == Path(n.parent.value) + SEPARATOR + n.name
  {
    PathFromIsPrefix(n, n.name);
    if n.parent.Some? {
      PathFromIsPrefix(n.parent.value, n.parent.value.name);
    }
  }

  /** The path is the ancestry joined by the separator. */
  lemma {:induction false} PathIsJoinedAncestry(n: Node)
    ensures Path(n) == Join(Ancestry(n), SEPARATOR)
    decreases n
  {
    PathOfNode(n);
    match n.parent
    case None =>
    case Some(p) =>
      PathIsJoinedAncestry(p);
      JoinSnoc(Ancestry(p), n.name, SEPARATOR);
  }

  /** The path ends with the node's own name. */
  lemma PathEndsWithName(n: Node)
    ensures |Path(n)| >= |n.name| && Path(n)[|Path(n)| - |n.name|..] == n.name
  {
    PathOfNode(n);
    if n.parent.Some? {
      var pre := Path(n.parent.value) + SEPARATOR;
      assert Path(n) == pre + n.name;
    }
  }

  /** The path starts with the root's name, which heads the ancestry. */
  lemma {:induction false} PathStartsWithRoot(n: Node)
    ensures Ancestry(n)[0] == Root(n).name
    ensures |Path(n)| >= |Root(n).name| && Path(n)[..|Root(n).name|] == Root(n).name
    decreases n
  {
    PathOfNode(n);
    match n.parent
    case None =>
    case Some(p) =>
      PathStartsWithRoot(p);
      var pp := Path(p);
      var k := |Root(n).name|;
      assert Root(n) == Root(p);
      assert Path(n) == pp + (SEPARATOR + n.name);
      assert Path(n)[..k] == pp[..k];
  }

  lemma {:induction false} JoinSnoc(parts: seq<string>, last: string, sep: string)
    requires |parts| >= 1
    ensures Join(parts + [last], sep) == Join(parts, sep) + sep + last
    decreases |parts|
  {
    if |parts| == 1 {
      assert (parts + [last])[1..] == [last];
    } else {
      assert (parts + [last])[1..] == parts[1..] + [last];
      JoinSnoc(parts[1..], last, sep);
    }
  }

  /* ---------------------------------------------------------------------- */
  /* Depth                                                                   */
  /* ---------------------------------------------------------------------- */

  /** Number of `"=>"` pieces found scanning left to right, which is
      `s.split('=>').length - 1`. */
  function ArrowCount(s: string): nat
    decreases |s|
  {
    if |s| < 2 then 0
    else if s[0] == '=' && s[1] == '>' then 1 + ArrowCount(s[2..])
    else ArrowCount(s[1..])
  }

  /** `s` has no `"=>"` inside it. */
  predicate NoArrow(s: string) {
    forall i :: 0 <= i < |s| - 1 ==> !(s[i] == '=' && s[i + 1] == '>')
  }

  /** The `depth` getter. */
  function Depth(n: Node): nat {
    ArrowCount(Path(n))
  }

  lemma {:induction false} ArrowCountNone(s: string)
    requires NoArrow(s)
    ensures ArrowCount(s) == 0
    decreases |s|
  {
    if |s| >= 2 {
      assert !(s[0] == '=' && s[1] == '>');
      ArrowCountNone(s[1..]);
    }
  }

  /** Counting distributes over a concatenation that does not create an arrow
      at the seam. */
  lemma {:induction false} ArrowCountAppend(a: string, b: string)
    requires |a| == 0 || |b| == 0 || !(a[|a| - 1] == '=' && b[0] == '>')
    ensures ArrowCount(a + b) == ArrowCount(a) + ArrowCount(b)
    decreases |a|
  {
    if |a| == 0 {
      assert a + b == b;
    } else if |a| == 1 {
      if |b| == 0 {
        assert a + b == a;
      } else {
        assert (a + b)[1..] == b;
      }
    } else if a[0] == '=' && a[1] == '>' {
      assert (a + b)[2..] == a[2..] + b;
      ArrowCountAppend(a[2..], b);
    } else {
      assert (a + b)[1..] == a[1..] + b;
      ArrowCountAppend(a[1..], b);
    }
  }

  /** Appending a separator and an arrow-free name adds exactly one arrow. */
  lemma ArrowCountExtend(x: string, name: string)
    requires NoArrow(name)
    ensures ArrowCount(x + SEPARATOR + name) == ArrowCount(x) + 1
  {
    var tail := SEPARATOR + name;
    assert x + SEPARATOR + name == x + tail;
    ArrowCountAppend(x, tail);
    var t1 := "=> " + name;
    var t2 := " " + name;
    assert tail[1..] == t1 && tail[0] == ' ';
    assert ArrowCount(tail) == ArrowCount(t1);
    assert t1[2..] == t2 && t1[0] == '=' && t1[1] == '>';
    assert ArrowCount(t1) == 1 + ArrowCount(t2);
    ArrowCountNone(name);
    if |t2| >= 2 {
      assert t2[1..] == name && t2[0] == ' ';
      assert ArrowCount(t2) == ArrowCount(name);
    }
  }

  /** A node's depth is one more than its parent's, provided its own name has
      no `"=>"` in it. */
  lemma ChildDepth(n: Node)
    requires n.parent.Some? && NoArrow(n.name)
    ensures Depth(n) == Depth(n.parent.value) + 1
  {
    PathOfNode(n);
    ArrowCountExtend(Path(n.parent.value), n.name);
  }

  /** Depth counts ancestors when no name on the chain contains `"=>"`. */
  lemma {:induction false} DepthCountsAncestors(n: Node)
    requires forall i :: 0 <= i < |Ancestry(n)| ==> NoArrow(Ancestry(n)[i])
    ensures Depth(n) == |Ancestry(n)| - 1
    decreases n
  {
    PathOfNode(n);
    match n.parent
    case None =>
      assert Ancestry(n)[0] == n.name;
      ArrowCountNone(n.name);
    case Some(p) =>
      assert Ancestry(n) == Ancestry(p) + [n.name];
      assert forall i :: 0 <= i < |Ancestry(p)| ==> Ancestry(p)[i] == Ancestry(n)[i];
      DepthCountsAncestors(p);
      ChildDepth(n);
  }

  /* ---------------------------------------------------------------------- */
  /* Children and serialisation                                              */
  /* ---------------------------------------------------------------------- */

  /** The `children` getter: one node per name `scan` returns, in scan order,
      each with `n` as parent. */
  function Children(n: Node, scanned: seq<string>): (r: seq<Node>)
    ensures |r| == |scanned|
    ensures forall i :: 0 <= i < |r| ==> r[i].name == scanned[i] && r[i].parent == Some(n)
  {
    seq(|scanned|, i requires 0 <= i < |scanned| => Node(scanned[i], Some(n)))
  }

  /** The record `toJSON` serialises. */
  datatype NodeRecord = NodeRecord(name: string, parent: Option<string>, depth: nat, path: string, info: Server)

  /** `toJSON` without the final text encoding; `info` is the host's live
      `getServer`. */
  function ToRecord(n: Node, info: string -> Server): (r: NodeRecord)
    ensures r.name == n.name && r.info == info(n.name)
    ensures r.parent.None? <==> n.parent.None?
    ensures n.parent.Some? ==> r.parent == Some(n.parent.value.name)
  {
    NodeRecord(
      n.name,
      match n.parent case Some(p) => Some(p.name) case None => None,
      Depth(n),
      Path(n),
      info(n.name))
  }

  /** The record of a child made by `Children` names its parent, extends the
      parent's path by one step and sits one level deeper. */
  lemma ChildRecord(n: Node, scanned: seq<string>, i: int, info: string -> Server)
    requires 0 <= i < |scanned| && NoArrow(scanned[i])
    ensures var c := ToRecord(Children(n, scanned)[i], info);
      var pr := ToRecord(n, info);
      && c.parent == Some(n.name)
      && c.path == pr.path + SEPARATOR + scanned[i]
      && c.depth == pr.depth + 1
  {
    var c := Children(n, scanned)[i];
    PathOfNode(c);
    ChildDepth(c);
  }

  /** `nodes.map((s) => s.toJSON())`, one record per node in the same order. */
  function ToRecords(nodes: seq<Node>, info: string -> Server): (w: seq<NodeRecord>)
    ensures |w| == |nodes|
    ensures forall i :: 0 <= i < |w| ==> w[i] == ToRecord(nodes[i], info)
  {
    seq(|nodes|, i requires 0 <= i < |nodes| => ToRecord(nodes[i], info))
  }
}
