/** The deployer: copy the three batch scripts to every server, and root each
    server the player's port openers allow. The host calls the script makes
    are the model's output, in the order they are made; which programs are on
    disk is a parameter. */
module Deployer {
  import opened Common
  import opened Servers

  /** The five port-opening programs, in the order the deployer lists them. */
  datatype Program = BruteSSH | FTPCrack | RelaySMTP | HTTPWorm | SQLInject

  function File(p: Program): string {
    match p
    case BruteSSH => "BruteSSH.exe"
    case FTPCrack => "FTPCrack.exe"
    case RelaySMTP => "RelaySMTP.exe"
    case HTTPWorm => "HTTPWorm.exe"
    case SQLInject => "SQLInject.exe"
  }

  const PROGRAMS: seq<Program> := [BruteSSH, FTPCrack, RelaySMTP, HTTPWorm, SQLInject]

  /** Position of a program in `PROGRAMS`. */
  function Rank(p: Program): (r: int)
    ensures 0 <= r < |PROGRAMS|
  {
    match p
    case BruteSSH => 0
    case FTPCrack => 1
    case RelaySMTP => 2
    case HTTPWorm => 3
    case SQLInject => 4
  }

  /** `PROGRAMS` lists every program once, in `Rank` order. */
  lemma ProgramsListed(p: Program)
    ensures IncreasingBy(PROGRAMS, Rank)
    ensures p in PROGRAMS
  {
    forall i | 0 <= i < |PROGRAMS|
      ensures Rank(PROGRAMS[i]) == i
    {
    }
    assert PROGRAMS[Rank(p)] == p;
  }

  /** The three batch scripts copied to every server. */
  const WEAKEN_SCRIPT: string := "/shared/weaken.js"
  const GROW_SCRIPT: string := "/shared/grow.js"
  const HACK_SCRIPT: string := "/shared/hack.js"
  const HWGW_FILES: seq<string> := [WEAKEN_SCRIPT, GROW_SCRIPT, HACK_SCRIPT]

  /** The programs on disk, as a sub-list of `PROGRAMS`. */
  function OwnedPrograms(fileExists: string -> bool): (r: seq<Program>)
    ensures forall p :: p in r <==> fileExists(File(p))
    ensures IncreasingBy(r, Rank)
    ensures |r| <= |PROGRAMS|
  {
    var onDisk := (p: Program) => fileExists(File(p));
    ProgramsListed(BruteSSH);
    FilterKeepsIncreasing(PROGRAMS, onDisk, Rank);
    assert forall p :: p in Filter(PROGRAMS, onDisk) <==> onDisk(p) by {
      forall p
        ensures p in Filter(PROGRAMS, onDisk) <==> onDisk(p)
      {
        ProgramsListed(p);
        FilterMembership(PROGRAMS, onDisk, p);
      }
    }
    Filter(PROGRAMS, onDisk)
  }

  /** `getRequiredPorts`: the ports a server needs open, 0 when unknown. */
  function RequiredPorts(s: Server): (r: real)
    ensures s.numOpenPortsRequired.Some? ==> r == s.numOpenPortsRequired.value
    ensures s.numOpenPortsRequired.None? ==> r == 0.0
  {
    s.numOpenPortsRequired.GetOr(0.0)
  }

  /** A host call the deployer makes. */
  datatype HostCall =
    | Scp(files: seq<string>, host: string)
    | Open(program: Program, host: string)
    | Nuke(host: string)

  /** `root`: nothing for a server already rooted or one needing more ports
      than there are programs; otherwise every owned program in turn, then
      one nuke. */
  function Root(s: Server, owned: seq<Program>): (calls: seq<HostCall>)
    ensures calls == [] <==> s.hasAdminRights || RequiredPorts(s) > |owned| as real
    ensures calls != [] ==>
      && |calls| == |owned| + 1
      && (forall i :: 0 <= i < |owned| ==> calls[i] == Open(owned[i], s.hostname))
      && calls[|owned|] == Nuke(s.hostname)
    ensures forall c :: c in calls ==> c.host == s.hostname
  {
    if s.hasAdminRights || RequiredPorts(s) > |owned| as real then []
    else seq(|owned|, i requires 0 <= i < |owned| => Open(owned[i], s.hostname)) + [Nuke(s.hostname)]
  }

  /** The calls for one server: the copy, then the rooting. */
  function ServerCalls(s: Server, owned: seq<Program>): seq<HostCall> {
    [Scp(HWGW_FILES, s.hostname)] + Root(s, owned)
  }

  /** The loop over the servers the walk found, in order, with the owned
      programs worked out once beforehand. */
  function DeployAll(owned: seq<Program>, servers: seq<Server>): (calls: seq<HostCall>)
    ensures |servers| == 0 <==> calls == []
    ensures forall c :: c in calls ==> exists s :: s in servers && c.host == s.hostname
    decreases |servers|
  {
    if |servers| == 0 then []
    else
      var init := servers[..|servers| - 1];
      var last := servers[|servers| - 1];
      assert forall s :: s in init ==> s in servers;
      DeployAll(owned, init) + ServerCalls(last, owned)
  }

  /** The deployer's `main`: every server found gets the batch scripts, only
      servers on the walk are touched, and exactly the rootable ones are
      nuked with the programs on disk. */
  function Deploy(fileExists: string -> bool, servers: seq<Server>): (calls: seq<HostCall>)
    ensures forall i :: 0 <= i < |servers| ==> Scp(HWGW_FILES, servers[i].hostname) in calls
    ensures forall c :: c in calls ==> exists s :: s in servers && c.host == s.hostname
    ensures NukeCount(calls) == RootableCount(servers, OwnedPrograms(fileExists))
    ensures forall i :: 0 <= i < |servers| && WillRoot(servers[i], OwnedPrograms(fileExists)) ==>
      Nuke(servers[i].hostname) in calls
    ensures forall h :: Nuke(h) in calls ==>
      exists s :: s in servers && s.hostname == h && WillRoot(s, OwnedPrograms(fileExists))
  {
    var owned := OwnedPrograms(fileExists);
    DeployCopiesEverywhere(owned, servers);
    DeployNukesRootable(owned, servers);
    DeployNukesExactlyRootable(owned, servers);
    DeployAll(owned, servers)
  }

  /** How many servers the run nukes. */
  function NukeCount(calls: seq<HostCall>): nat {
    if |calls| == 0 then 0 else (if calls[0].Nuke? then 1 else 0) + NukeCount(calls[1..])
  }

  lemma {:induction false} NukeCountAppend(a: seq<HostCall>, b: seq<HostCall>)
    ensures NukeCount(a + b) == NukeCount(a) + NukeCount(b)
    decreases |a|
  {
    if |a| > 0 {
      assert (a + b)[0] == a[0] && (a + b)[1..] == a[1..] + b;
      NukeCountAppend(a[1..], b);
    } else {
      assert a + b == b;
    }
  }

  /** Servers the run roots: not yet rooted, and no more ports needed than
      programs owned. */
  predicate WillRoot(s: Server, owned: seq<Program>) {
    !s.hasAdminRights && RequiredPorts(s) <= |owned| as real
  }

  function RootableCount(servers: seq<Server>, owned: seq<Program>): nat
    decreases |servers|
  {
    if |servers| == 0 then 0
    else RootableCount(servers[..|servers| - 1], owned) + (if WillRoot(servers[|servers| - 1], owned) then 1 else 0)
  }

  lemma NoNukeAmongOpens(owned: seq<Program>, host: string)
    ensures NukeCount(seq(|owned|, i requires 0 <= i < |owned| => Open(owned[i], host))) == 0
    decreases |owned|
  {
    var opens := seq(|owned|, i requires 0 <= i < |owned| => Open(owned[i], host));
    if |owned| > 0 {
      NoNukeAmongOpens(owned[1..], host);
      assert opens[1..] == seq(|owned[1..]|, i requires 0 <= i < |owned[1..]| => Open(owned[1..][i], host));
    }
  }

  /** Every server receives the three batch scripts, rooted or not. */
  lemma {:induction false} DeployCopiesEverywhere(owned: seq<Program>, servers: seq<Server>)
    ensures forall i :: 0 <= i < |servers| ==> Scp(HWGW_FILES, servers[i].hostname) in DeployAll(owned, servers)
    decreases |servers|
  {
    if |servers| > 0 {
      var init := servers[..|servers| - 1];
      var last := servers[|servers| - 1];
      var before := DeployAll(owned, init);
      DeployCopiesEverywhere(owned, init);
      var calls := DeployAll(owned, servers);
      assert calls == before + ServerCalls(last, owned);
      assert calls[|before|] == Scp(HWGW_FILES, last.hostname);
      forall i | 0 <= i < |servers|
        ensures Scp(HWGW_FILES, servers[i].hostname) in calls
      {
        if i < |servers| - 1 {
          assert servers[i] == init[i];
          assert Scp(HWGW_FILES, init[i].hostname) in before;
        }
      }
    }
  }

  /** The run nukes exactly the servers it may root, once each. */
  lemma {:induction false} DeployNukesRootable(owned: seq<Program>, servers: seq<Server>)
    ensures NukeCount(DeployAll(owned, servers)) == RootableCount(servers, owned)
    decreases |servers|
  {
    if |servers| > 0 {
      var init := servers[..|servers| - 1];
      var last := servers[|servers| - 1];
      DeployNukesRootable(owned, init);
      NukeCountAppend(DeployAll(owned, init), ServerCalls(last, owned));
      NukeCountAppend([Scp(HWGW_FILES, last.hostname)], Root(last, owned));
      assert NukeCount(ServerCalls(last, owned)) == NukeCount(Root(last, owned));
      if WillRoot(last, owned) {
        var opens := seq(|owned|, i requires 0 <= i < |owned| => Open(owned[i], last.hostname));
        NoNukeAmongOpens(owned, last.hostname);
        NukeCountAppend(opens, [Nuke(last.hostname)]);
        assert Root(last, owned) == opens + [Nuke(last.hostname)];
      }
    }
  }

  /** A server's own calls nuke it exactly when it may be rooted, and nuke
      nothing else. */
  lemma ServerCallsNuke(s: Server, owned: seq<Program>, h: string)
    ensures Nuke(h) in ServerCalls(s, owned) <==> h == s.hostname && WillRoot(s, owned)
  {
    var calls := ServerCalls(s, owned);
    if WillRoot(s, owned) {
      assert calls[|owned| + 1] == Nuke(s.hostname);
    }
    if Nuke(h) in calls {
      var k :| 0 <= k < |calls| && calls[k] == Nuke(h);
      assert Root(s, owned)[k - 1] == Nuke(h);
    }
  }

  /** The run nukes a server exactly when it may root it: every rootable
      server found is nuked, and every nuke is of a rootable server found. */
  lemma {:induction false} DeployNukesExactlyRootable(owned: seq<Program>, servers: seq<Server>)
    ensures forall i :: 0 <= i < |servers| && WillRoot(servers[i], owned) ==> Nuke(servers[i].hostname) in DeployAll(owned, servers)
    ensures forall h :: Nuke(h) in DeployAll(owned, servers) ==> exists s :: s in servers && s.hostname == h && WillRoot(s, owned)
    decreases |servers|
  {
    if |servers| > 0 {
      var init := servers[..|servers| - 1];
      var last := servers[|servers| - 1];
      DeployNukesExactlyRootable(owned, init);
      var before := DeployAll(owned, init);
      var calls := DeployAll(owned, servers);
      assert calls == before + ServerCalls(last, owned);
      forall i | 0 <= i < |servers| && WillRoot(servers[i], owned)
        ensures Nuke(servers[i].hostname) in calls
      {
        if i < |servers| - 1 {
          assert servers[i] == init[i];
        } else {
          ServerCallsNuke(last, owned, last.hostname);
        }
      }
      forall h | Nuke(h) in calls
        ensures exists s :: s in servers && s.hostname == h && WillRoot(s, owned)
      {
        if Nuke(h) in before {
          var s :| s in init && s.hostname == h && WillRoot(s, owned);
          assert s in servers;
        } else {
          ServerCallsNuke(last, owned, h);
          assert last in servers;
        }
      }
    }
  }

}
