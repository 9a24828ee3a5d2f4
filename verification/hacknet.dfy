/** The hacknet manager's decision for one round: find the cheapest of buying
    a new node and upgrading the level, RAM or cores of an owned node; stop
    when even that is above the cost ceiling; otherwise wait for funds and then
    carry it out. Costs are the host's quotes, passed in as exact reals. */
module Hacknet {
  import opened Common

  /** The three one-step upgrade quotes for one owned node, in the order the
      manager lists them: level (0), RAM (1), cores (2). */
  datatype NodeCosts = NodeCosts(level: real, ram: real, core: real)

  /** The running choice: its cost, the node index (the owned count for a
      purchase) and the upgrade type (-1 for a purchase). */
  datatype Choice = Choice(cost: real, index: int, kind: int)

  /** Command-line options: delay between funds checks, threshold multiplier,
      cost ceiling. */
  datatype Options = Options(delay: real, threshold: real, maxCost: real)

  const DEFAULT_OPTIONS: Options := Options(3000.0, 1000.0, 1000000000000.0)

  /** The quote of upgrade type `t`. */
  function Quote(u: NodeCosts, t: int): real
    requires 0 <= t <= 2
  {
    if t == 0 then u.level else if t == 1 then u.ram else u.core
  }

  /** `Math.min` of the three quotes. */
  function NodeMin(u: NodeCosts): (m: real)
    ensures forall t :: 0 <= t <= 2 ==> m <= Quote(u, t)
    ensures exists t :: 0 <= t <= 2 && m == Quote(u, t)
  {
    var m := if u.level <= u.ram then u.level else u.ram;
    var m := if m <= u.core then m else u.core;
    assert m == Quote(u, 0) || m == Quote(u, 1) || m == Quote(u, 2);
    m
  }

  /** `upgrades.indexOf(min)`: the first type whose quote is the minimum. */
  function FirstCheapestKind(u: NodeCosts): (t: int)
    ensures 0 <= t <= 2
    ensures Quote(u, t) == NodeMin(u)
    ensures forall t' :: 0 <= t' < t ==> Quote(u, t') > NodeMin(u)
  {
    var m := NodeMin(u);
    if u.level == m then 0 else if u.ram == m then 1 else 2
  }

  /** One iteration of the selection loop: a node replaces the current choice
      only when its cheapest quote is strictly lower. */
  function Consider(c: Choice, i: int, u: NodeCosts): Choice {
    var m := NodeMin(u);
    if m < c.cost then Choice(m, i, FirstCheapestKind(u)) else c
  }

  /** The choice after looking at the first `k` owned nodes, starting from
      the purchase of node number `|costs|`. */
  function CheapestUpTo(purchaseCost: real, costs: seq<NodeCosts>, k: nat): (r: Choice)
    requires k <= |costs|
    ensures r.cost <= purchaseCost
    ensures forall j :: 0 <= j < k ==> r.cost <= NodeMin(costs[j])
    ensures r.kind == -1 <==> r.index == |costs|
    ensures r.index == |costs| ==> r.cost == purchaseCost
    ensures r.index != |costs| ==>
      && 0 <= r.index < k
      && r.cost < purchaseCost
      && r.cost == NodeMin(costs[r.index])
      && r.kind == FirstCheapestKind(costs[r.index])
      && forall j :: 0 <= j < r.index ==> NodeMin(costs[j]) > r.cost
    decreases k
  {
    if k == 0 then Choice(purchaseCost, |costs|, -1)
    else Consider(CheapestUpTo(purchaseCost, costs, k - 1), k - 1, costs[k - 1])
  }

  /** The choice after the whole loop. */
  function Cheapest(purchaseCost: real, costs: seq<NodeCosts>): Choice {
    CheapestUpTo(purchaseCost, costs, |costs|)
  }

  /** The selection loop as the manager runs it. */
  method SelectUpgrade(purchaseCost: real, costs: seq<NodeCosts>) returns (minCost: real, nodeIndex: int, upgradeType: int)
    ensures minCost <= purchaseCost
    ensures forall j :: 0 <= j < |costs| ==> minCost <= NodeMin(costs[j])
    ensures upgradeType == -1 <==> nodeIndex == |costs|
    ensures Choice(minCost, nodeIndex, upgradeType) == Cheapest(purchaseCost, costs)
  {
    var ownedNodes := |costs|;
    minCost := purchaseCost;
    nodeIndex := ownedNodes;
    upgradeType := -1;
    var i := 0;
    while i < ownedNodes
      invariant 0 <= i <= ownedNodes
      invariant Choice(minCost, nodeIndex, upgradeType) == CheapestUpTo(purchaseCost, costs, i)
    {
      var upgrades := costs[i];
      var newCost := NodeMin(upgrades);
      if newCost < minCost {
        minCost := newCost;
        nodeIndex := i;
        upgradeType := FirstCheapestKind(upgrades);
      }
      i := i + 1;
    }
  }

  /** Ties go to the purchase: when some owned node's cheapest quote equals
      the purchase cost and none is lower, the purchase is chosen. */
  lemma PurchaseWinsTies(purchaseCost: real, costs: seq<NodeCosts>)
    requires forall j :: 0 <= j < |costs| ==> NodeMin(costs[j]) >= purchaseCost
    ensures Cheapest(purchaseCost, costs) == Choice(purchaseCost, |costs|, -1)
  {
    var r := Cheapest(purchaseCost, costs);
    assert r.cost == purchaseCost;
  }

  /** Ties between owned nodes go to the lowest index: the chosen node is the
      first whose cheapest quote is the overall minimum. */
  lemma LowestIndexWinsTies(purchaseCost: real, costs: seq<NodeCosts>, i: int)
    requires 0 <= i < |costs| && NodeMin(costs[i]) < purchaseCost
    requires forall j :: 0 <= j < |costs| ==> NodeMin(costs[i]) <= NodeMin(costs[j])
    requires forall j :: 0 <= j < i ==> NodeMin(costs[i]) < NodeMin(costs[j])
    ensures Cheapest(purchaseCost, costs) == Choice(NodeMin(costs[i]), i, FirstCheapestKind(costs[i]))
  {
    var r := Cheapest(purchaseCost, costs);
    assert r.cost <= NodeMin(costs[i]) < purchaseCost;
    assert 0 <= r.index < |costs|;
    assert r.cost == NodeMin(costs[i]);
    assert r.index == i;
  }

  /** What the manager does with its choice. */
  datatype Action =
    | Exit
    | WaitForFunds
    | PurchaseNode
    | UpgradeLevel(node: int)
    | UpgradeRam(node: int)
    | UpgradeCore(node: int)
    | Idle

  /** One round: exit above the cost ceiling, wait while the money is below
      the cost times the threshold, otherwise carry out the choice. */
  function Decide(c: Choice, money: real, o: Options): (a: Action)
    ensures a.Exit? <==> c.cost > o.maxCost
    ensures a.WaitForFunds? <==> c.cost <= o.maxCost && money < c.cost * o.threshold
    ensures a.PurchaseNode? ==> c.kind == -1
    ensures a.UpgradeLevel? ==> c.kind == 0 && a.node == c.index
    ensures a.UpgradeRam? ==> c.kind == 1 && a.node == c.index
    ensures a.UpgradeCore? ==> c.kind == 2 && a.node == c.index
    ensures a.Idle? <==> c.cost <= o.maxCost && money >= c.cost * o.threshold && !(-1 <= c.kind <= 2)
  {
    if c.cost > o.maxCost then Exit
    else if money < c.cost * o.threshold then WaitForFunds
    else if c.kind == -1 then PurchaseNode
    else if c.kind == 0 then UpgradeLevel(c.index)
    else if c.kind == 1 then UpgradeRam(c.index)
    else if c.kind == 2 then UpgradeCore(c.index)
    else Idle
  }

  /** With the default flags, the manager stops once the cheapest option costs
      more than 1e12 and otherwise waits until it has 1000 times its cost. */
  lemma DefaultDecide(c: Choice, money: real)
    ensures var a := Decide(c, money, DEFAULT_OPTIONS);
      && (a.Exit? <==> c.cost > 1000000000000.0)
      && (a.WaitForFunds? <==> c.cost <= 1000000000000.0 && money < 1000.0 * c.cost)
  {
  }

  /** A round acts on the node it chose, with the upgrade type it chose, and
      buys a node exactly when no owned node was cheaper than buying one. */
  lemma RoundActsOnChoice(purchaseCost: real, costs: seq<NodeCosts>, money: real, o: Options)
    requires Cheapest(purchaseCost, costs).cost <= o.maxCost
    requires money >= Cheapest(purchaseCost, costs).cost * o.threshold
    ensures var c := Cheapest(purchaseCost, costs);
      var a := Decide(c, money, o);
      && (a.PurchaseNode? <==> c.index == |costs|)
      && (a.UpgradeLevel? || a.UpgradeRam? || a.UpgradeCore? ==> 0 <= a.node < |costs|)
      && (!a.PurchaseNode? ==>
            (c.cost == NodeMin(costs[c.index]) && Quote(costs[c.index], c.kind) == c.cost))
  {
  }
}
