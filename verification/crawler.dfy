/** The crawler command: look up one server's path by name, list the servers
    at or beyond a depth, search for a server by one field's value, or dump
    every path. Servers are the records of the walk from home (name, depth,
    path and the host's view of the server); which existence check and which
    walk produced them is the host's business and arrives as parameters. */
module Crawler {
  import opened Common
  import opened Servers
  import opened ServerNodes

  /** The command-line flags with their defaults: `-s ""`, `-d -1`,
      `--custom ""`, `--update false`, `--help false`. */
  datatype Flags = Flags(s: string, d: real, custom: string, update: bool, help: bool)

  const DEFAULT_FLAGS: Flags := Flags("", -1.0, "", false, false)

  /* ---------------------------------------------------------------------- */
  /* Lookups                                                                 */
  /* ---------------------------------------------------------------------- */

  /** `findTarget`: the first server whose name equals the target, ignoring
      ASCII case. */
  function FindTarget(servers: seq<NodeRecord>, target: string): (r: Option<NodeRecord>)
    ensures r.None? <==> forall i :: 0 <= i < |servers| ==> Lower(servers[i].name) != Lower(target)
    ensures r.Some? ==> exists i :: (0 <= i < |servers| && servers[i] == r.value
      && Lower(servers[i].name) == Lower(target)
      && forall j :: 0 <= j < i ==> Lower(servers[j].name) != Lower(target))
  {
    var targetName := Lower(target);
    match FindFirst(servers, (x: NodeRecord) => Lower(x.name) == targetName)
    case Some(i) => Some(servers[i])
    case None => None
  }

  function DepthKey(x: NodeRecord): real {
    x.depth as real
  }

  /** `findRemoteTargets`: the servers at depth `d` or more from home, deepest
      first. */
  function FindRemoteTargets(servers: seq<NodeRecord>, d: real): (r: seq<NodeRecord>)
    ensures forall x :: multiset(r)[x] == if x.depth as real >= d then multiset(servers)[x] else 0
    ensures SortedDesc(r, DepthKey)
  {
    SortDesc(Filter(servers, (x: NodeRecord) => x.depth as real >= d), DepthKey)
  }

  /** Membership in the listing is exactly "deep enough". */
  lemma RemoteTargetsMembership(servers: seq<NodeRecord>, d: real, x: NodeRecord)
    ensures x in FindRemoteTargets(servers, d) <==> x in servers && x.depth as real >= d
  {
    var r := FindRemoteTargets(servers, d);
    assert x in r <==> multiset(r)[x] > 0;
    assert x in servers <==> multiset(servers)[x] > 0;
  }

  /* ---------------------------------------------------------------------- */
  /* --custom key=value                                                      */
  /* ---------------------------------------------------------------------- */

  /** The first two `'='`-separated segments; the value is absent (JavaScript
      `undefined`) when the text has no `'='`. */
  datatype CustomQuery = CustomQuery(key: string, value: Option<string>)

  function ParseCustom(custom: string): (q: CustomQuery)
    ensures '=' !in q.key && |q.key| <= |custom| && custom[..|q.key|] == q.key
    ensures q.value.None? <==> '=' !in custom
    ensures q.value.None? ==> q.key == custom
    ensures q.value.Some? ==>
      && |q.key| < |custom| && custom[|q.key|] == '='
      && '=' !in q.value.value
      && |q.key| + 1 + |q.value.value| <= |custom|
      && custom[|q.key| + 1..|q.key| + 1 + |q.value.value|] == q.value.value
  {
    var parts := Split(custom, '=');
    SplitFirst(custom, '=');
    if |parts| >= 2 then
      var tail := custom[|parts[0]| + 1..];
      SplitFirst(tail, '=');
      assert Split(tail, '=')[0] == parts[1];
      CustomQuery(parts[0], Some(parts[1]))
    else
      SplitNoSep(custom, '=');
      CustomQuery(parts[0], None)
  }

  /** Writing `key=value` and parsing it back gives the pair again. */
  lemma ParseCustomOfPair(key: string, value: string)
    requires '=' !in key && '=' !in value
    ensures ParseCustom(key + "=" + value) == CustomQuery(key, Some(value))
  {
    var parts := [key, value];
    SplitJoin(parts, '=');
    assert Join(parts, "=") == key + "=" + value;
  }

  /** The error line is printed when the key or the value is empty or
      missing; the search still runs afterwards. */
  predicate Complains(q: CustomQuery) {
    q.key == "" || q.value.None? || q.value == Some("")
  }

  /** What looking at one server does: it matches, it does not, or reading
      `value.toLowerCase()` on a missing value throws. */
  datatype Probe = Match | Miss | Throws

  /** The find callback: strict equality, then case-insensitive equality when
      the field holds a string. With no value, a missing field is strictly
      equal to it and a string field throws. */
  function ProbeField(field: Option<Value>, value: Option<string>): (p: Probe)
    ensures p.Throws? <==> value.None? && field.Some? && field.value.Str?
    ensures value.Some? ==> (p.Match? <==> field.Some? && field.value.Str? && Lower(field.value.s) == Lower(value.value))
    ensures value.None? ==> (p.Match? <==> field.None?)
  {
    match value
    case None =>
      if field.None? then Match
      else if field.value.Str? then Throws
      else Miss
    case Some(v) =>
      if field == Some(Str(v)) then Match
      else if field.Some? && field.value.Str? && Lower(field.value.s) == Lower(v) then Match
      else Miss
  }

  datatype Lookup = NoResults | Found(node: NodeRecord) | TypeError

  /** `allServers.find(...)` with that callback: the search stops at the first
      server that does not miss. */
  function CustomLookup(servers: seq<NodeRecord>, q: CustomQuery): (r: Lookup)
    ensures r.NoResults? <==> forall i :: 0 <= i < |servers| ==> ProbeField(Field(servers[i].info, q.key), q.value).Miss?
    ensures !r.NoResults? ==> exists i :: (0 <= i < |servers|
      && (forall j :: 0 <= j < i ==> ProbeField(Field(servers[j].info, q.key), q.value).Miss?)
      && (r.Found? <==> ProbeField(Field(servers[i].info, q.key), q.value).Match?)
      && (r.Found? ==> r.node == servers[i]))
  {
    var stops := (x: NodeRecord) => !ProbeField(Field(x.info, q.key), q.value).Miss?;
    match FindFirst(servers, stops)
    case None => NoResults
    case Some(i) =>
      if ProbeField(Field(servers[i].info, q.key), q.value).Match? then Found(servers[i]) else TypeError
  }

  /** With a well-formed query no server throws: the search finds the first
      server whose field is the value as a string, ignoring case. */
  lemma WellFormedQueryNeverThrows(servers: seq<NodeRecord>, q: CustomQuery)
    requires !Complains(q)
    ensures !CustomLookup(servers, q).TypeError?
  {
  }

  /* ---------------------------------------------------------------------- */
  /* The path dump                                                           */
  /* ---------------------------------------------------------------------- */

  function Paths(servers: seq<NodeRecord>): (r: seq<string>)
    ensures |r| == |servers| && forall i :: 0 <= i < |r| ==> r[i] == servers[i].path
  {
    seq(|servers|, i requires 0 <= i < |servers| => servers[i].path)
  }

  /** The `reduce` that appends a newline and each path in turn, starting
      from the empty string: the paths joined by newlines behind one leading
      newline. */
  function AllPaths(servers: seq<NodeRecord>): (r: string)
    ensures r == Join([""] + Paths(servers), "\n")
    decreases |servers|
  {
    if |servers| == 0 then ""
    else
      var init := servers[..|servers| - 1];
      var last := servers[|servers| - 1].path;
      assert [""] + Paths(servers) == ([""] + Paths(init)) + [last] by {
        assert Paths(servers) == Paths(init) + [last];
      }
      JoinSnoc([""] + Paths(init), last, "\n");
      AllPaths(init) + "\n" + last
  }

  /** When no path holds a newline, splitting the dump on newlines gives back
      an empty first line and then every path, in order. */
  lemma AllPathsSplit(servers: seq<NodeRecord>)
    requires forall i :: 0 <= i < |servers| ==> '\n' !in servers[i].path
    ensures Split(AllPaths(servers), '\n') == [""] + Paths(servers)
  {
    var parts := [""] + Paths(servers);
    assert forall i :: 0 <= i < |parts| ==> '\n' !in parts[i] by {
      forall i | 0 <= i < |parts|
        ensures '\n' !in parts[i]
      {
        if i > 0 {
          assert parts[i] == servers[i - 1].path;
        }
      }
    }
    SplitJoin(parts, '\n');
  }

  /* ---------------------------------------------------------------------- */
  /* The command                                                             */
  /* ---------------------------------------------------------------------- */

  datatype Outcome =
    | Help
    | InvalidTarget
    | TargetNotFound(target: string)
    | TargetPath(node: NodeRecord)
    | RemoteList(nodes: seq<NodeRecord>)
    | CustomSearch(complained: bool, query: CustomQuery, result: Lookup)
    | PathDump(text: string)

  /** One run of the command: help first, then `-s`, then `-d` when it is at
      least zero, then `--custom`, and the path dump when none is given. */
  function Crawl(flags: Flags, servers: seq<NodeRecord>, serverExists: string -> bool): (r: Outcome)
    ensures r.Help? <==> flags.help
    ensures r.InvalidTarget? <==> !flags.help && flags.s != "" && !serverExists(flags.s)
    ensures (r.TargetNotFound? || r.TargetPath?) <==> !flags.help && flags.s != "" && serverExists(flags.s)
    ensures r.TargetPath? ==> Lower(r.node.name) == Lower(flags.s) && r.node in servers
    ensures r.TargetNotFound? ==> forall i :: 0 <= i < |servers| ==> Lower(servers[i].name) != Lower(flags.s)
    ensures r.RemoteList? <==> !flags.help && flags.s == "" && flags.d >= 0.0
    ensures r.RemoteList? ==> forall x :: x in r.nodes <==> x in servers && x.depth as real >= flags.d
    ensures r.CustomSearch? <==> !flags.help && flags.s == "" && flags.d < 0.0 && flags.custom != ""
    ensures r.CustomSearch? ==> (r.complained <==> Complains(r.query))
    ensures r.PathDump? <==> !flags.help && flags.s == "" && flags.d < 0.0 && flags.custom == ""
  {
    if flags.help then Help
    else if flags.s != "" then
      if !serverExists(flags.s) then InvalidTarget
      else
        match FindTarget(servers, flags.s)
        case None => TargetNotFound(flags.s)
        case Some(n) => TargetPath(n)
    else if flags.d >= 0.0 then
      var nodes := FindRemoteTargets(servers, flags.d);
      assert forall x :: x in nodes <==> x in servers && x.depth as real >= flags.d by {
        forall x {
          RemoteTargetsMembership(servers, flags.d, x);
        }
      }
      RemoteList(nodes)
    else if flags.custom != "" then
      var q := ParseCustom(flags.custom);
      CustomSearch(Complains(q), q, CustomLookup(servers, q))
    else
      PathDump(AllPaths(servers))
  }

  /** With no flags the command dumps every path. */
  lemma DefaultDumpsPaths(servers: seq<NodeRecord>, serverExists: string -> bool)
    ensures Crawl(DEFAULT_FLAGS, servers, serverExists) == PathDump(AllPaths(servers))
  {
  }
}
