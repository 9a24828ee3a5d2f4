/** The rooted-servers list: of every server the walk from home finds, keep
    those with admin rights, largest RAM first, and serialise them in that
    order. `info` is the host's view of each server during the run. */
module RootedServers {
  import opened Common
  import opened Servers
  import opened ServerNodes

  /** The sort key, `b.info.maxRam - a.info.maxRam`. */
  function RamKey(info: string -> Server): Node -> real {
    (n: Node) => info(n.name).maxRam
  }

  function RootedServers(all: seq<Node>, info: string -> Server): (r: seq<Node>)
    ensures forall n :: multiset(r)[n] == if info(n.name).hasAdminRights then multiset(all)[n] else 0
    ensures SortedDesc(r, RamKey(info))
  {
    SortDesc(Filter(all, (n: Node) => info(n.name).hasAdminRights), RamKey(info))
  }

  /** The list is a rearrangement of the admin-rights filter of the input:
      nothing is added, dropped or duplicated. */
  lemma RootedIsPermutationOfFilter(all: seq<Node>, info: string -> Server)
    ensures multiset(RootedServers(all, info)) == multiset(Filter(all, (n: Node) => info(n.name).hasAdminRights))
    ensures |RootedServers(all, info)| == |Filter(all, (n: Node) => info(n.name).hasAdminRights)|
  {
    var p := (n: Node) => info(n.name).hasAdminRights;
    var r := RootedServers(all, info);
    var f := Filter(all, p);
    assert multiset(r) == multiset(f) by {
      forall n
        ensures multiset(r)[n] == multiset(f)[n]
      {
      }
    }
    assert |multiset(r)| == |multiset(f)|;
  }

  /** The written list has the same length and order as the sorted list. */
  lemma WrittenListSorted(all: seq<Node>, info: string -> Server)
    ensures var r := RootedServers(all, info);
      var w := ToRecords(r, info);
      && |w| == |r|
      && (forall i :: 0 <= i < |w| ==> w[i].name == r[i].name && w[i].info == info(r[i].name))
      && (forall i, j :: 0 <= i < j < |w| ==> w[i].info.maxRam >= w[j].info.maxRam)
  {
    var r := RootedServers(all, info);
    var w := ToRecords(r, info);
    forall i, j | 0 <= i < j < |w|
      ensures w[i].info.maxRam >= w[j].info.maxRam
    {
      assert RamKey(info)(r[i]) >= RamKey(info)(r[j]);
    }
  }
}
