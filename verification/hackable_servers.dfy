/** The hackable-targets list: of every server the walk from home finds, keep
    those the player can hack now and that hold money, richest first, and
    serialise them in that order. `info` is the host's view of each server
    during the run. */
module HackableServers {
  import opened Common
  import opened Servers
  import opened ServerNodes

  /** `isHackable`: not bought by the player, rooted, some maximum money, and
      a required skill (0 when unknown) no higher than the player's level. */
  predicate IsHackable(s: Server, playerHackingLevel: real): (b: bool)
    ensures b ==> s.hasAdminRights && !s.purchasedByPlayer && s.moneyMax.Some? && s.moneyMax.value != 0.0
    ensures b && s.requiredHackingSkill.None? ==> playerHackingLevel >= 0.0
  {
    && !s.purchasedByPlayer
    && s.hasAdminRights
    && Truthy(s.moneyMax)
    && s.requiredHackingSkill.GetOr(0.0) <= playerHackingLevel
  }

  /** A hackable server stays hackable as the player's level rises. */
  lemma HackableAsLevelRises(s: Server, level: real, higher: real)
    requires IsHackable(s, level) && level <= higher
    ensures IsHackable(s, higher)
  {
  }

  /** The sort key of `sortByMaxMoney`. */
  function MoneyKey(info: string -> Server): Node -> real {
    (n: Node) => info(n.name).moneyMax.GetOr(0.0)
  }

  /** The filtered, sorted list. */
  function HackableServers(all: seq<Node>, info: string -> Server, playerHackingLevel: real): (r: seq<Node>)
    ensures forall n :: multiset(r)[n] == if IsHackable(info(n.name), playerHackingLevel) then multiset(all)[n] else 0
    ensures SortedDesc(r, MoneyKey(info))
  {
    SortDesc(Filter(all, (n: Node) => IsHackable(info(n.name), playerHackingLevel)), MoneyKey(info))
  }

  /** Membership: a node is listed exactly when it was found and is hackable. */
  lemma HackableMembership(all: seq<Node>, info: string -> Server, playerHackingLevel: real, n: Node)
    ensures n in HackableServers(all, info, playerHackingLevel)
        <==> n in all && IsHackable(info(n.name), playerHackingLevel)
  {
    var r := HackableServers(all, info, playerHackingLevel);
    assert n in r <==> multiset(r)[n] > 0;
    assert n in all <==> multiset(all)[n] > 0;
  }

  /** The written list holds one record per listed server, in the listed
      order, so its maximum money is non-increasing as well. */
  lemma WrittenListSorted(all: seq<Node>, info: string -> Server, playerHackingLevel: real)
    ensures var r := HackableServers(all, info, playerHackingLevel);
      var w := ToRecords(r, info);
      && |w| == |r|
      && (forall i :: 0 <= i < |w| ==> w[i].name == r[i].name && w[i].info == info(r[i].name))
      && (forall i, j :: 0 <= i < j < |w| ==> w[i].info.moneyMax.GetOr(0.0) >= w[j].info.moneyMax.GetOr(0.0))
  {
    var r := HackableServers(all, info, playerHackingLevel);
    var w := ToRecords(r, info);
    forall i, j | 0 <= i < j < |w|
      ensures w[i].info.moneyMax.GetOr(0.0) >= w[j].info.moneyMax.GetOr(0.0)
    {
      assert MoneyKey(info)(r[i]) >= MoneyKey(info)(r[j]);
    }
  }
}
