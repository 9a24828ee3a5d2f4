/** The server-information script: its own depth-first walk from `"home"`
    (which skips a popped name already listed, so the list is duplicate-free),
    the millisecond formatter, the target-validity predicate and the choice of
    servers from the first script argument. */
module ServerInfo {
  import opened Common
  import opened Graph

  const HOME: string := "home"

  /** A list without repeated names. */
  predicate Distinct(s: seq<string>) {
    forall i, j :: 0 <= i < j < |s| ==> s[i] != s[j]
  }

  /** Every neighbour of a listed name is listed or stacked. */
  ghost predicate Covered(g: Topology, servers: seq<string>, stack: seq<string>) {
    forall x, y :: x in servers && y in Scan(g, x) ==> y in servers || y in stack
  }

  ghost function Elems(s: seq<string>): set<string> {
    set x | x in s :: x
  }

  lemma ElemsSnoc(s: seq<string>, c: string)
    ensures Elems(s + [c]) == Elems(s) + {c}
  {
    forall x ensures x in Elems(s + [c]) <==> x in Elems(s) + {c} {
      assert x in s + [c] <==> x in s || x == c;
    }
  }

  /** The loop invariant of the inner `getAllServers`. */
  ghost predicate WalkInv(g: Topology, servers: seq<string>, stack: seq<string>) {
    && (|servers| == 0 ==> stack == [HOME])
    && (|servers| >= 1 ==> servers[0] == HOME)
    && Distinct(servers)
    && (forall x :: x in servers ==> Reachable(g, HOME, x) && x in Universe(g, HOME))
    && (forall x :: x in stack ==> Reachable(g, HOME, x) && x in Universe(g, HOME))
    && Covered(g, servers, stack)
  }

  /** The names the walk pushes after listing `current`. */
  function Next(g: Topology, servers: seq<string>, current: string): seq<string> {
    Filter(Scan(g, current), (n: string) => n !in servers)
  }

  /** Popping a name already listed only shrinks the stack. */
  lemma StepListed(g: Topology, servers: seq<string>, stack: seq<string>)
    requires |stack| > 0 && WalkInv(g, servers, stack) && stack[|stack| - 1] in servers
    ensures WalkInv(g, servers, stack[..|stack| - 1])
  {
    var rest := stack[..|stack| - 1];
    assert stack == rest + [stack[|stack| - 1]];
    forall x, y | x in servers && y in Scan(g, x)
      ensures y in servers || y in rest
    {
      assert y in servers || y in stack;
    }
  }

  /** Popping a new name lists it and pushes its unlisted neighbours, all of
      them reachable. */
  lemma StepNewSound(g: Topology, servers: seq<string>, stack: seq<string>)
    requires |stack| > 0 && WalkInv(g, servers, stack) && stack[|stack| - 1] !in servers
    ensures var current := stack[|stack| - 1];
      var servers' := servers + [current];
      && (|servers'| >= 1 && servers'[0] == HOME)
      && Distinct(servers')
      && (forall x :: x in servers' ==> Reachable(g, HOME, x) && x in Universe(g, HOME))
      && (forall x :: x in stack[..|stack| - 1] + Next(g, servers', current) ==>
            Reachable(g, HOME, x) && x in Universe(g, HOME))
      && |Universe(g, HOME) - Elems(servers')| < |Universe(g, HOME) - Elems(servers)|
  {
    var current := stack[|stack| - 1];
    var rest := stack[..|stack| - 1];
    assert current in stack;
    var servers' := servers + [current];
    var next := Next(g, servers', current);
    SnocDistinct(servers, current);
    UniverseShrinks(g, servers, current);
    NextReachable(g, servers', current);
    forall x | x in rest + next
      ensures Reachable(g, HOME, x) && x in Universe(g, HOME)
    {
      if x in rest {
        assert x in stack;
      }
    }
  }

  /** Appending a name not yet listed keeps the list duplicate-free. */
  lemma SnocDistinct(servers: seq<string>, current: string)
    requires Distinct(servers) && current !in servers
    ensures Distinct(servers + [current])
  {
  }

  /** Listing a name of the universe leaves fewer of it unlisted. */
  lemma UniverseShrinks(g: Topology, servers: seq<string>, current: string)
    requires current !in servers && current in Universe(g, HOME)
    ensures |Universe(g, HOME) - Elems(servers + [current])| < |Universe(g, HOME) - Elems(servers)|
  {
    var u := Universe(g, HOME);
    ElemsSnoc(servers, current);
    assert u - Elems(servers + [current]) == (u - Elems(servers)) - {current};
  }

  /** The names pushed after a reachable name are reachable too. */
  lemma NextReachable(g: Topology, servers: seq<string>, current: string)
    requires Reachable(g, HOME, current) && current in Universe(g, HOME)
    ensures forall y :: y in Next(g, servers, current) ==> Reachable(g, HOME, y) && y in Universe(g, HOME)
  {
    forall y | y in Next(g, servers, current)
      ensures Reachable(g, HOME, y) && y in Universe(g, HOME)
    {
      FilterMembership(Scan(g, current), (n: string) => n !in servers, y);
      ReachableStep(g, HOME, current, y);
      ScanInUniverse(g, HOME, current, y);
    }
  }

  /** After listing a new name, its neighbours are listed or stacked. */
  lemma StepNewCovered(g: Topology, servers: seq<string>, stack: seq<string>)
    requires |stack| > 0 && Covered(g, servers, stack)
    ensures var current := stack[|stack| - 1];
      var servers' := servers + [current];
      Covered(g, servers', stack[..|stack| - 1] + Next(g, servers', current))
  {
    var current := stack[|stack| - 1];
    var rest := stack[..|stack| - 1];
    assert stack == rest + [current];
    var servers' := servers + [current];
    var stack' := rest + Next(g, servers', current);
    forall x, y | x in servers' && y in Scan(g, x)
      ensures y in servers' || y in stack'
    {
      if x == current {
        FilterMembership(Scan(g, current), (n: string) => n !in servers', y);
      } else {
        assert y in servers || y in stack;
      }
    }
  }

  /** Popping a new name keeps the invariant and lists one more name of the
      universe. */
  lemma StepNew(g: Topology, servers: seq<string>, stack: seq<string>)
    requires |stack| > 0 && WalkInv(g, servers, stack) && stack[|stack| - 1] !in servers
    ensures var current := stack[|stack| - 1];
      var servers' := servers + [current];
      && WalkInv(g, servers', stack[..|stack| - 1] + Next(g, servers', current))
      && |Universe(g, HOME) - Elems(servers')| < |Universe(g, HOME) - Elems(servers)|
  {
    StepNewSound(g, servers, stack);
    StepNewCovered(g, servers, stack);
  }

  /** With the stack empty, the list holds exactly the reachable names. */
  lemma WalkDone(g: Topology, servers: seq<string>)
    requires WalkInv(g, servers, [])
    ensures |servers| >= 1 && servers[0] == HOME
    ensures forall x :: x in servers <==> Reachable(g, HOME, x)
  {
    assert servers[0] in servers;
    assert HOME in Elems(servers);
    assert Closed(g, Elems(servers)) by {
      forall x, y | x in Elems(servers) && y in Scan(g, x)
        ensures y in Elems(servers)
      {
        assert y in servers;
      }
    }
    forall x | Reachable(g, HOME, x)
      ensures x in servers
    {
      ClosedHoldsReachable(g, HOME, Elems(servers), x);
    }
  }

  /** The inner `getAllServers`. */
  method GetAllServers(g: Topology) returns (servers: seq<string>)
    ensures |servers| >= 1 && servers[0] == HOME
    ensures Distinct(servers)
    ensures forall x :: x in servers <==> Reachable(g, HOME, x)
  {
    servers := [];
    var stack := [HOME];
    ReachableRoot(g, HOME);
    while |stack| > 0
      invariant WalkInv(g, servers, stack)
      decreases |Universe(g, HOME) - Elems(servers)|, |stack|
    {
      var current := stack[|stack| - 1];
      if current !in servers {
        StepNew(g, servers, stack);
        stack := stack[..|stack| - 1];
        servers := servers + [current];
        stack := stack + Next(g, servers, current);
      } else {
        StepListed(g, servers, stack);
        stack := stack[..|stack| - 1];
      }
    }
    WalkDone(g, servers);
  }

  /* ---------------------------------------------------------------------- */
  /* Time formatting                                                         */
  /* ---------------------------------------------------------------------- */

  /** JavaScript `x % m` on numbers: the remainder takes the sign of `x`. */
  function JsRem(x: real, m: real): real
    requires m > 0.0
  {
    x - m * Trunc(x / m) as real
  }

  datatype Hms = Hms(hours: int, minutes: int, seconds: int)

  /** `formatTime`: hours, minutes and seconds of a millisecond count. */
  function FormatTime(ms: real): (t: Hms)
    ensures ms >= 0.0 ==>
      && 0 <= t.seconds < 60 && 0 <= t.minutes < 60
      && t.hours == Floor(ms / 3600000.0)
      && t.hours * 3600 + t.minutes * 60 + t.seconds == Floor(ms / 1000.0)
  {
    var t := Hms(
      Floor(ms / 1000.0 / 3600.0),
      Floor(JsRem(ms / 1000.0 / 60.0, 60.0)),
      Floor(JsRem(ms / 1000.0, 60.0)));
    if ms >= 0.0 then HmsParts(ms); t else t
  }

  /** For `x >= 0`, `x % 60` is `x` minus its whole multiples of 60. */
  lemma JsRemSixty(x: real)
    requires x >= 0.0
    ensures JsRem(x, 60.0) == x - 60.0 * Floor(x / 60.0) as real
  {
  }

  /** `Floor(x / 60) == Floor(x) / 60`. */
  lemma FloorDivSixty(x: real)
    ensures Floor(x / 60.0) == Floor(x) / 60
  {
    var f := Floor(x);
    var q := f / 60;
    assert f == q * 60 + f % 60 && 0 <= f % 60 < 60;
    assert q as real <= x / 60.0;
    assert x / 60.0 < (q + 1) as real;
  }

  /** For a non-negative millisecond count the three fields are the whole
      hours, the minutes and seconds within the hour and minute, and they add
      back to the whole seconds. */
  lemma HmsParts(ms: real)
    requires ms >= 0.0
    ensures var h := Floor(ms / 1000.0 / 3600.0);
      var m := Floor(JsRem(ms / 1000.0 / 60.0, 60.0));
      var s := Floor(JsRem(ms / 1000.0, 60.0));
      && 0 <= s < 60 && 0 <= m < 60
      && h == Floor(ms / 3600000.0)
      && h * 3600 + m * 60 + s == Floor(ms / 1000.0)
  {
    var x := ms / 1000.0;
    var s := Floor(x);
    var t := Hms(Floor(ms / 1000.0 / 3600.0), Floor(JsRem(ms / 1000.0 / 60.0, 60.0)), Floor(JsRem(x, 60.0)));
    assert ms / 1000.0 / 3600.0 == ms / 3600000.0;
    // seconds
    JsRemSixty(x);
    FloorDivSixty(x);
    var q1 := Floor(x / 60.0);
    assert q1 == s / 60;
    assert JsRem(x, 60.0) == x - 60.0 * q1 as real;
    SecondsPart(x, q1);
    assert t.seconds == s % 60;
    // minutes
    var y := x / 60.0;
    assert ms / 1000.0 / 60.0 == y;
    JsRemSixty(y);
    FloorDivSixty(y);
    assert Floor(y) == s / 60;
    var q2 := Floor(y / 60.0);
    assert q2 == (s / 60) / 60;
    SecondsPart(y, q2);
    assert t.minutes == (s / 60) % 60;
    // hours
    assert x / 3600.0 == y / 60.0;
    assert ms / 1000.0 / 3600.0 == y / 60.0;
    assert t.hours == (s / 60) / 60;
  }

  /** Subtracting a whole multiple of 60 commutes with the floor. */
  lemma SecondsPart(x: real, q: int)
    requires q == Floor(x / 60.0) && x >= 0.0
    ensures Floor(x - 60.0 * q as real) == Floor(x) - 60 * q
    ensures Floor(x) - 60 * q == Floor(x) % 60
  {
    FloorDivSixty(x);
  }

  /* ---------------------------------------------------------------------- */
  /* Target selection                                                        */
  /* ---------------------------------------------------------------------- */

  /** The host's per-server queries the selection uses. */
  datatype HostView = HostView(
    requiredHackingLevel: string -> real,
    maxMoney: string -> real,
    hackingLevel: real)

  /** `isValidTarget`. */
  predicate IsValidTarget(h: HostView, server: string): (b: bool)
    ensures b ==> server != HOME && h.maxMoney(server) > 1.0
  {
    h.requiredHackingLevel(server) < h.hackingLevel && h.maxMoney(server) > 1.0 && server != HOME
  }

  /** A valid target stays valid as the player's level rises. */
  lemma ValidAsLevelRises(h: HostView, server: string, level: real)
    requires IsValidTarget(h, server) && level >= h.hackingLevel
    ensures IsValidTarget(h.(hackingLevel := level), server)
  {
  }

  /** The first script argument. */
  datatype Arg = StrArg(s: string) | NumArg(x: real) | NoArg

  /** `Array.prototype.slice(0, n)` once `n` is made whole: a negative `n`
      counts back from the end. */
  function SliceTo<T>(s: seq<T>, n: int): (r: seq<T>)
    ensures |r| <= |s| && r == s[..|r|]
    ensures n >= 0 ==> |r| == Min(n, |s|)
    ensures n < 0 ==> |r| == Max(0, |s| + n)
  {
    if n >= 0 then s[..Min(n, |s|)] else s[..Max(0, |s| + n)]
  }

  /** The valid targets among `all`, richest first. */
  function ValidByMoney(h: HostView, all: seq<string>): (r: seq<string>)
    ensures forall x :: x in r <==> x in all && IsValidTarget(h, x)
    ensures SortedDesc(r, h.maxMoney)
    ensures multiset(r) == multiset(Filter(all, (x: string) => IsValidTarget(h, x)))
  {
    var valid := Filter(all, (x: string) => IsValidTarget(h, x));
    var r := SortDesc(valid, h.maxMoney);
    forall x ensures x in r <==> x in all && IsValidTarget(h, x) {
      FilterMembership(all, (x: string) => IsValidTarget(h, x), x);
      assert x in r <==> multiset(r)[x] > 0;
      assert x in valid <==> multiset(valid)[x] > 0;
    }
    r
  }

  /** The servers the script reports on: the named one for a string argument,
      else the valid targets by falling maximum money, cut to the first `n`
      for a numeric argument. */
  function SelectServers(h: HostView, all: seq<string>, arg: Arg): (r: seq<string>)
    ensures arg.StrArg? ==> r == [arg.s]
    ensures arg.NumArg? && arg.x >= 0.0 ==>
      |r| == Min(Floor(arg.x), |ValidByMoney(h, all)|) && r == ValidByMoney(h, all)[..|r|]
    ensures arg.NumArg? && -1.0 < arg.x < 0.0 ==> r == []
    ensures arg.NumArg? && arg.x <= -1.0 ==>
      |r| == Max(0, |ValidByMoney(h, all)| - Floor(-arg.x)) && r == ValidByMoney(h, all)[..|r|]
    ensures arg.NoArg? ==> r == ValidByMoney(h, all)
    ensures !arg.StrArg? ==> SortedDesc(r, h.maxMoney) && forall x :: x in r ==> IsValidTarget(h, x)
  {
    match arg
    case StrArg(s) => [s]
    case NumArg(x) =>
      var v := ValidByMoney(h, all);
      SliceByNumber(v, x);
      SlicedValid(h, v, Trunc(x));
      SliceTo(v, Trunc(x))
    case NoArg => ValidByMoney(h, all)
  }

  /** `slice(0, x)` for a number `x`: its whole part counts from the front,
      or back from the end when negative. */
  lemma SliceByNumber<T>(v: seq<T>, x: real)
    ensures x >= 0.0 ==> |SliceTo(v, Trunc(x))| == Min(Floor(x), |v|)
    ensures -1.0 < x < 0.0 ==> SliceTo(v, Trunc(x)) == []
    ensures x <= -1.0 ==> |SliceTo(v, Trunc(x))| == Max(0, |v| - Floor(-x))
  {
    TruncIsSignedFloor(x);
    if x <= -1.0 {
      assert |v| + Trunc(x) == |v| - Floor(-x);
    }
  }

  /** A slice of a sorted list of valid targets is one too. */
  lemma SlicedValid(h: HostView, v: seq<string>, n: int)
    requires SortedDesc(v, h.maxMoney) && forall x :: x in v ==> IsValidTarget(h, x)
    ensures SortedDesc(SliceTo(v, n), h.maxMoney)
    ensures forall x :: x in SliceTo(v, n) ==> IsValidTarget(h, x)
  {
    var r := SliceTo(v, n);
    assert r == v[..|r|];
    forall x | x in r
      ensures x in v
    {
      var k :| 0 <= k < |r| && r[k] == x;
      assert v[k] == x;
    }
  }

  /** The rows printed: the selected servers other than `"home"`. */
  function Reported(servers: seq<string>): (r: seq<string>)
    ensures forall x :: x in r <==> x in servers && x != HOME
  {
    var r := Filter(servers, (x: string) => x != HOME);
    forall x ensures x in r <==> x in servers && x != HOME {
      FilterMembership(servers, (x: string) => x != HOME, x);
    }
    r
  }
}
