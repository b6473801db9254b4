/** `SessionHealthJob`: for each registered service, resolve its URL, make sure a browser
    session exists (recovering it from a saved state file when possible), snapshot the page,
    and classify it; the per-service verdicts are split into healthy and unhealthy names. */
module SessionHealth {
  import opened Wrappers
  import opened Values
  import Text
  import Seqs
  import Config

  /** A row of `SERVICES`. `pattern` holds the alternatives of its case-insensitive regex,
      in lower case. */
  datatype ServiceConfig = ServiceConfig(urlKey: Option<string>, staticUrl: Option<string>, pattern: seq<string>)

  /** `SERVICES`, in declaration order. */
  const Services: seq<(string, ServiceConfig)> := [
    ("outlook", ServiceConfig(Some("outlook.inbox_url"), None, ["inbox", "focused", "other"])),
    ("outlook-calendar", ServiceConfig(Some("outlook.calendar_url"), None, ["calendar", "today", "week"])),
    ("slack-greatminds", ServiceConfig(Some("slack.workspaces.greatminds.url"), None, ["unreads", "threads", "channel"])),
    ("slack-turing", ServiceConfig(Some("slack.workspaces.turing.url"), None, ["unreads", "threads", "channel"])),
    ("jira", ServiceConfig(None, Some("https://digital-greatminds.atlassian.net/jira/core/projects/JC/board"),
                           ["board", "backlog", "sprint"])),
    ("linkedin", ServiceConfig(Some("linkedin.feed_url"), None, ["feed", "home", "network"]))
  ]

  /** The names of a list of named entries: registry rows or verdicts. */
  function Names<T>(entries: seq<(string, T)>): (r: seq<string>)
    ensures |r| == |entries| && forall i :: 0 <= i < |entries| ==> r[i] == entries[i].0
  {
    if entries == [] then [] else [entries[0].0] + Names(entries[1..])
  }

  const ServiceNames: seq<string> := ["outlook", "outlook-calendar", "slack-greatminds", "slack-turing", "jira", "linkedin"]

  lemma ServiceNamesListed()
    ensures Names(Services) == ServiceNames
  {
  }

  lemma ServiceNamesDiffer()
    ensures Seqs.Distinct(ServiceNames)
  {
    // The lengths are 7, 16, 16, 12, 4 and 8; the two of length 16 differ in their first letter.
    assert |ServiceNames[0]| == 7 && |ServiceNames[1]| == 16 && |ServiceNames[2]| == 16;
    assert |ServiceNames[3]| == 12 && |ServiceNames[4]| == 4 && |ServiceNames[5]| == 8;
    assert ServiceNames[1][0] == 'o' && ServiceNames[2][0] == 's';
  }

  /** No two rows of `SERVICES` share a name. */
  lemma ServiceNamesDistinct()
    ensures Seqs.Distinct(Names(Services))
    ensures |Services| == 6
  {
    ServiceNamesListed();
    ServiceNamesDiffer();
  }

  /** `Hash#fetch`: the row registered under `name`. */
  function Fetch(services: seq<(string, ServiceConfig)>, name: string): (r: Option<ServiceConfig>)
    ensures r.Some? <==> name in Names(services)
    ensures r.Some? ==> (name, r.value) in services
  {
    if services == [] then None
    else if services[0].0 == name then Some(services[0].1)
    else
      var rest := Fetch(services[1..], name);
      assert rest.Some? ==> (name, rest.value) in services by {
        if rest.Some? { assert (name, rest.value) in services[1..]; }
      }
      assert name in Names(services) <==> name in Names(services[1..]) by {
        assert Names(services) == [services[0].0] + Names(services[1..]);
      }
      rest
  }

  datatype HealthError =
    | UnknownService(name: string)         // KeyError from `fetch`
    | ConfigFailed(error: Config.ConfigError)
    | NoUrlKey(name: string)               // a row with neither a static URL nor a config key

  /** The services `perform` evaluates: the named one only, or all of them in order. */
  function Selection(target: Option<string>): (r: Result<seq<(string, ServiceConfig)>, HealthError>)
    ensures target.None? ==> r == Success(Services)
    ensures target.Some? ==> (r.Success? <==> target.value in Names(Services))
    ensures target.Some? && r.Failure? ==> r.error == UnknownService(target.value)
    ensures target.Some? && r.Success? ==>
      |r.value| == 1 && r.value[0].0 == target.value && r.value[0] in Services
  {
    match target
    case None => Success(Services)
    case Some(name) =>
      match Fetch(Services, name)
      case None => Failure(UnknownService(name))
      case Some(svc) => Success([(name, svc)])
  }

  /** Whether a service's URL comes from the configuration. */
  predicate NeedsConfig(svc: ServiceConfig)
  {
    svc.staticUrl.None? && svc.urlKey.Some?
  }

  /** `static_url || Config.get(url_key)` against the configuration state `data`/`file`. */
  function UrlFrom(data: Value, file: Option<Value>, name: string, svc: ServiceConfig): (r: Result<Value, HealthError>)
    ensures svc.staticUrl.Some? ==> r == Success(Str(svc.staticUrl.value))
    ensures NeedsConfig(svc) && (Truthy(data) || file.Some?) ==>
      match Config.Lookup(Config.Reloaded(data, file), svc.urlKey.value)
      case Success(v) => r == Success(v)
      case Failure(e) => r == Failure(ConfigFailed(e))
    ensures NeedsConfig(svc) && !Truthy(data) && file.None? ==> r == Failure(ConfigFailed(Config.ConfigNotFound))
  {
    if svc.staticUrl.Some? then Success(Str(svc.staticUrl.value))
    else if svc.urlKey.None? then Failure(NoUrlKey(name))
    else if !Truthy(data) && file.None? then Failure(ConfigFailed(Config.ConfigNotFound))
    else
      match Config.Lookup(Config.Reloaded(data, file), svc.urlKey.value)
      case Success(v) => Success(v)
      case Failure(e) => Failure(ConfigFailed(e))
  }

  /** The jira row never consults the configuration. */
  lemma JiraUrlIsStatic(data: Value, file: Option<Value>)
    ensures Fetch(Services, "jira").Some?
    ensures UrlFrom(data, file, "jira", Fetch(Services, "jira").value)
         == Success(Str("https://digital-greatminds.atlassian.net/jira/core/projects/JC/board"))
  {
    assert Names(Services)[4] == "jira";
  }

  /** The configuration state after resolving a URL: loaded only when the key was needed. */
  function DataAfter(data: Value, file: Option<Value>, svc: ServiceConfig): Value
  {
    if NeedsConfig(svc) then Config.Reloaded(data, file) else data
  }

  /** Resolves a service URL, reading the configuration only for rows without a static URL. */
  method ResolveUrl(store: Config.Store, name: string, svc: ServiceConfig) returns (r: Result<Value, HealthError>)
    modifies store`data
    ensures store.data == DataAfter(old(store.data), store.file, svc)
    ensures r == UrlFrom(old(store.data), store.file, name, svc)
  {
    if svc.staticUrl.Some? {
      return Success(Str(svc.staticUrl.value));
    }
    if svc.urlKey.None? {
      return Failure(NoUrlKey(name));
    }
    var got := store.Get(svc.urlKey.value);
    if got.Failure? {
      return Failure(ConfigFailed(got.error));
    }
    r := Success(got.value);
  }

  /** `url_for(name)`: the same resolution `check_service` performs, after `fetch`. */
  method UrlFor(store: Config.Store, name: string) returns (r: Result<Value, HealthError>)
    modifies store`data
    ensures Fetch(Services, name).None? ==> r == Failure(UnknownService(name)) && store.data == old(store.data)
    ensures Fetch(Services, name).Some? ==>
      var svc := Fetch(Services, name).value;
      r == UrlFrom(old(store.data), store.file, name, svc) && store.data == DataAfter(old(store.data), store.file, svc)
  {
    var found := Fetch(Services, name);
    if found.None? {
      return Failure(UnknownService(name));
    }
    r := ResolveUrl(store, name, found.value);
  }

  /** One `playwright-cli -s=<session> <args...>` invocation. */
  datatype Command = Cli(session: string, args: seq<string>)

  /** The captured output (stdout and stderr) and exit status of a command. */
  datatype CliResult = CliResult(output: string, success: bool)

  const ListSessions: Command := Cli("_", ["list"])

  function StateFile(stateDir: string, name: string): string
  {
    stateDir + "/" + name + ".json"
  }

  function SaveState(name: string, stateFile: string): Command
  {
    Cli(name, ["state-save", stateFile])
  }

  /** `session_active?`: a plain substring test on the session listing. */
  predicate SessionActive(listing: string, name: string)
  {
    Text.Contains(listing, name)
  }

  /** A session whose name extends another's makes the shorter one count as active. */
  lemma EmbeddedNameCountsAsActive()
    ensures SessionActive("outlook-calendar", "outlook")
  {
    assert Text.OccursAt("outlook-calendar", "outlook", 0);
  }

  /** `snapshot.match?(pattern)` for a case-insensitive alternation of literal words. */
  predicate Matches(snapshot: string, pattern: seq<string>)
  {
    exists i :: 0 <= i < |pattern| && Text.Contains(Text.Lower(snapshot), pattern[i])
  }

  /** The `/i` flag: texts that agree once down-cased match the same patterns. */
  lemma MatchesIgnoresCase(snapshot: string, other: string, pattern: seq<string>)
    requires Text.Lower(snapshot) == Text.Lower(other)
    ensures Matches(snapshot, pattern) <==> Matches(other, pattern)
  {
  }

  /** Down-casing a snapshot first changes nothing. */
  lemma MatchesLowered(snapshot: string, pattern: seq<string>)
    ensures Matches(Text.Lower(snapshot), pattern) <==> Matches(snapshot, pattern)
  {
    Text.LowerIdempotent(snapshot);
    MatchesIgnoresCase(Text.Lower(snapshot), snapshot, pattern);
  }

  /** For instance, an "Inbox" heading satisfies the Outlook pattern. */
  lemma InboxMatchesOutlook()
    ensures Matches("Inbox", ["inbox", "focused", "other"])
  {
    var low := Text.Lower("Inbox");
    assert low[0] == 'i' && low[1] == 'n' && low[2] == 'b' && low[3] == 'o' && low[4] == 'x';
    assert low == "inbox";
    assert Text.OccursAt(low, "inbox", 0);
    var pattern := ["inbox", "focused", "other"];
    assert Text.Contains(Text.Lower("Inbox"), pattern[0]);
  }

  /** The commands one check sends, and its verdict. */
  datatype ProbeRun = ProbeRun(commands: seq<Command>, healthy: bool)

  /** Position of the snapshot command in a check that reaches it. */
  function SnapshotAt(active: bool): nat
  {
    if active then 2 else 4
  }

  /** The commands a check sends up to and including the snapshot. */
  function Approach(name: string, url: string, stateFile: string, active: bool): (cs: seq<Command>)
    ensures |cs| == SnapshotAt(active) + 1
  {
    [ListSessions]
    + (if active then [] else [Cli(name, ["state-load", stateFile]), Cli(name, ["open", url])])
    + [Cli(name, ["goto", url]), Cli(name, ["snapshot"])]
  }

  /** `check_service` after URL resolution: `reply(k, c)` is what the k-th command overall
      returns, and the check's first command is number `start`. */
  function Probe(name: string, url: string, pattern: seq<string>, stateFile: string, hasState: bool,
                 reply: (nat, Command) -> CliResult, start: nat): ProbeRun
  {
    var active := SessionActive(reply(start, ListSessions).output, name);
    if !active && !hasState then ProbeRun([ListSessions], false)
    else
      var before := Approach(name, url, stateFile, active);
      var shot := reply(start + SnapshotAt(active), Cli(name, ["snapshot"]));
      if shot.success && Matches(shot.output, pattern) then ProbeRun(before + [SaveState(name, stateFile)], true)
      else ProbeRun(before, false)
  }

  /** The order of the commands: the listing first, then only the service's own session;
      recovery (`state-load`, then `open`) comes before `goto`, and an inactive session
      without saved state gets nothing after the listing. */
  lemma ProbeOrder(name: string, url: string, pattern: seq<string>, stateFile: string, hasState: bool,
                   reply: (nat, Command) -> CliResult, start: nat)
    ensures var p := Probe(name, url, pattern, stateFile, hasState, reply, start);
      var active := SessionActive(reply(start, ListSessions).output, name);
      && p.commands != [] && p.commands[0] == ListSessions
      && (forall i :: 1 <= i < |p.commands| ==> p.commands[i].session == name)
      && (!active && !hasState ==> p == ProbeRun([ListSessions], false))
      && (!active && hasState ==>
            |p.commands| >= 4 && p.commands[1] == Cli(name, ["state-load", stateFile])
            && p.commands[2] == Cli(name, ["open", url]) && p.commands[3] == Cli(name, ["goto", url]))
      && (active ==> |p.commands| >= 2 && p.commands[1] == Cli(name, ["goto", url]))
  {
  }

  /** A check that reaches the snapshot is healthy exactly when the snapshot command
      succeeded and its output matches the service's pattern. */
  lemma SnapshotDecides(name: string, url: string, pattern: seq<string>, stateFile: string, hasState: bool,
                        reply: (nat, Command) -> CliResult, start: nat)
    requires SessionActive(reply(start, ListSessions).output, name) || hasState
    ensures var p := Probe(name, url, pattern, stateFile, hasState, reply, start);
      var k := SnapshotAt(SessionActive(reply(start, ListSessions).output, name));
      var shot := reply(start + k, Cli(name, ["snapshot"]));
      |p.commands| > k && p.commands[k] == Cli(name, ["snapshot"])
      && (p.healthy <==> shot.success && Matches(shot.output, pattern))
  {
  }

  /** `state-save` is sent exactly when the check is healthy, and then as its last command. */
  lemma StateSavedIffHealthy(name: string, url: string, pattern: seq<string>, stateFile: string, hasState: bool,
                             reply: (nat, Command) -> CliResult, start: nat)
    ensures var p := Probe(name, url, pattern, stateFile, hasState, reply, start);
      && (p.healthy <==> SaveState(name, stateFile) in p.commands)
      && (p.healthy ==> p.commands[|p.commands| - 1] == SaveState(name, stateFile))
  {
    var active := SessionActive(reply(start, ListSessions).output, name);
    if active || hasState {
      var before := Approach(name, url, stateFile, active);
      assert SaveState(name, stateFile) !in before by {
        forall i | 0 <= i < |before| ensures before[i] != SaveState(name, stateFile) {
          assert before[i].args[0] != "state-save";
        }
      }
    }
  }

  /** The `playwright-cli` tool: `reply` stands for the browser sessions behind it, and
      `sent` records every command issued so far. */
  class Playwright {
    const reply: (nat, Command) -> CliResult
    var sent: seq<Command>

    constructor (reply: (nat, Command) -> CliResult)
      ensures this.reply == reply && sent == []
    {
      this.reply := reply;
      sent := [];
    }

    /** `run_cli`. */
    method Run(c: Command) returns (r: CliResult)
      modifies this`sent
      ensures sent == old(sent) + [c]
      ensures r == reply(|old(sent)|, c)
    {
      r := reply(|sent|, c);
      sent := sent + [c];
    }
  }

  /** The imperative body of `check_service`, proved against `Probe`. */
  method ProbeSession(pw: Playwright, name: string, url: string, pattern: seq<string>, stateFile: string, hasState: bool)
    returns (healthy: bool)
    modifies pw`sent
    ensures var p := Probe(name, url, pattern, stateFile, hasState, pw.reply, |old(pw.sent)|);
      pw.sent == old(pw.sent) + p.commands && healthy == p.healthy
  {
    ghost var start := |pw.sent|;
    var listing := pw.Run(ListSessions);
    var active := SessionActive(listing.output, name);
    if !active && !hasState {
      return false;
    }
    var shot := RunApproach(pw, name, url, stateFile, active);
    if !shot.success {
      return false;
    }
    if Matches(shot.output, pattern) {
      var _ := pw.Run(SaveState(name, stateFile));
      healthy := true;
    } else {
      healthy := false;
    }
  }

  /** From the recovery (when the session is not active) to the snapshot. */
  method RunApproach(pw: Playwright, name: string, url: string, stateFile: string, active: bool)
    returns (shot: CliResult)
    modifies pw`sent
    ensures pw.sent == old(pw.sent) + Approach(name, url, stateFile, active)[1..]
    ensures shot == pw.reply(|old(pw.sent)| + SnapshotAt(active) - 1, Cli(name, ["snapshot"]))
  {
    if !active {
      var _ := pw.Run(Cli(name, ["state-load", stateFile]));
      var _ := pw.Run(Cli(name, ["open", url]));
    }
    var _ := pw.Run(Cli(name, ["goto", url]));
    shot := pw.Run(Cli(name, ["snapshot"]));
  }

  /** What `check_service` does against the configuration state `data`/`file`, when its
      first command is number `start`: its verdict (or the error it raises) and its commands. */
  datatype CheckRun = CheckRun(verdict: Result<bool, HealthError>, commands: seq<Command>)

  function Check(data: Value, file: Option<Value>, name: string, svc: ServiceConfig, stateDir: string,
                 stateFiles: set<string>, reply: (nat, Command) -> CliResult, start: nat): CheckRun
  {
    var url := UrlFrom(data, file, name, svc);
    if url.Failure? then CheckRun(Failure(url.error), [])
    else
      var sf := StateFile(stateDir, name);
      var p := Probe(name, Display(url.value), svc.pattern, sf, sf in stateFiles, reply, start);
      CheckRun(Success(p.healthy), p.commands)
  }

  /** A session with no saved state that is not listed gets only the `list` query. */
  lemma NoStateMeansNoNavigation(data: Value, file: Option<Value>, name: string, svc: ServiceConfig, stateDir: string,
                                 stateFiles: set<string>, reply: (nat, Command) -> CliResult, start: nat)
    requires UrlFrom(data, file, name, svc).Success?
    requires StateFile(stateDir, name) !in stateFiles && !SessionActive(reply(start, ListSessions).output, name)
    ensures Check(data, file, name, svc, stateDir, stateFiles, reply, start) == CheckRun(Success(false), [ListSessions])
  {
  }

  /** `check_service(name, config)`: the URL first (a configuration error aborts), then the
      session check. `stateFiles` are the saved state files that exist. */
  method CheckService(pw: Playwright, store: Config.Store, name: string, svc: ServiceConfig,
                      stateDir: string, stateFiles: set<string>)
    returns (r: Result<bool, HealthError>)
    modifies pw`sent, store`data
    ensures store.data == DataAfter(old(store.data), store.file, svc)
    ensures var c := Check(old(store.data), store.file, name, svc, stateDir, stateFiles, pw.reply, |old(pw.sent)|);
      r == c.verdict && pw.sent == old(pw.sent) + c.commands
  {
    var url := ResolveUrl(store, name, svc);
    if url.Failure? {
      return Failure(url.error);
    }
    var file := StateFile(stateDir, name);
    var healthy := ProbeSession(pw, name, Display(url.value), svc.pattern, file, file in stateFiles);
    r := Success(healthy);
  }

  /** The value `perform` returns. */
  datatype HealthReport = HealthReport(healthy: seq<string>, unhealthy: seq<string>)

  /** `select`/`reject` on the verdicts: both lists keep evaluation order, and together they
      are as long as the verdicts. */
  function Partition(results: seq<(string, bool)>): (r: HealthReport)
    ensures |r.healthy| + |r.unhealthy| == |results|
    ensures Seqs.IsSubsequence(r.healthy, Names(results)) && Seqs.IsSubsequence(r.unhealthy, Names(results))
  {
    if results == [] then HealthReport([], [])
    else
      var rest := Partition(results[1..]);
      assert Names(results) == [results[0].0] + Names(results[1..]);
      if results[0].1 then
        Seqs.SubsequenceExtend(rest.unhealthy, Names(results[1..]), results[0].0);
        assert ([results[0].0] + rest.healthy)[1..] == rest.healthy;
        HealthReport([results[0].0] + rest.healthy, rest.unhealthy)
      else
        Seqs.SubsequenceExtend(rest.healthy, Names(results[1..]), results[0].0);
        assert ([results[0].0] + rest.unhealthy)[1..] == rest.unhealthy;
        HealthReport(rest.healthy, [results[0].0] + rest.unhealthy)
  }

  /** A name is healthy exactly when some verdict for it is true, and unhealthy exactly when
      some verdict for it is false. */
  lemma {:induction false} PartitionMembers(results: seq<(string, bool)>)
    ensures forall n :: n in Partition(results).healthy <==> (n, true) in results
    ensures forall n :: n in Partition(results).unhealthy <==> (n, false) in results
  {
    if results != [] {
      PartitionMembers(results[1..]);
      assert results == [results[0]] + results[1..];
    }
  }

  /** With distinct names no service is both healthy and unhealthy. */
  lemma {:induction false} PartitionIsDisjoint(results: seq<(string, bool)>)
    requires Seqs.Distinct(Names(results))
    ensures forall n :: n in Partition(results).healthy ==> n !in Partition(results).unhealthy
  {
    if results != [] {
      var tail := results[1..];
      var x := results[0].0;
      assert Names(results) == [x] + Names(tail);
      assert Seqs.Distinct(Names(tail)) by {
        forall i, j | 0 <= i < j < |tail| ensures Names(tail)[i] != Names(tail)[j] {
          assert Names(tail)[i] == Names(results)[i + 1] && Names(tail)[j] == Names(results)[j + 1];
        }
      }
      assert x !in Names(tail) by {
        forall i | 0 <= i < |tail| ensures Names(tail)[i] != x {
          assert Names(tail)[i] == Names(results)[i + 1] && x == Names(results)[0];
        }
      }
      PartitionIsDisjoint(tail);
      var rest := Partition(tail);
      Seqs.SubsequenceElements(rest.healthy, Names(tail));
      Seqs.SubsequenceElements(rest.unhealthy, Names(tail));
    }
  }

  /** Every evaluated name is in one of the two lists. */
  lemma PartitionCoversAll(results: seq<(string, bool)>)
    ensures forall n :: n in Names(results) ==> n in Partition(results).healthy || n in Partition(results).unhealthy
  {
    var r := Partition(results);
    var names := Names(results);
    PartitionMembers(results);
    forall n | n in names
      ensures n in r.healthy || n in r.unhealthy
    {
      var i :| 0 <= i < |names| && names[i] == n;
      assert results[i] in results;
      if results[i].1 {
        assert (n, true) in results;
      } else {
        assert (n, false) in results;
      }
    }
  }

  /** What a run of `perform` over `services` does, check by check: the verdicts so far, the
      commands sent, the configuration state, and the error that ended it early, if any. */
  datatype Sweep = Sweep(results: seq<(string, bool)>, commands: seq<Command>, data: Value, error: Option<HealthError>)

  function SweepFrom(data: Value, file: Option<Value>, services: seq<(string, ServiceConfig)>, from: nat,
                     stateDir: string, stateFiles: set<string>, reply: (nat, Command) -> CliResult, start: nat): (s: Sweep)
    requires from <= |services|
    ensures Seqs.IsSubsequence(Names(s.results), Names(services[from..])) && |s.results| <= |services| - from
    ensures s.error.None? ==> Names(s.results) == Names(services[from..])
    decreases |services| - from
  {
    if from == |services| then Sweep([], [], data, None)
    else
      var name, svc := services[from].0, services[from].1;
      var c := Check(data, file, name, svc, stateDir, stateFiles, reply, start);
      assert Names(services[from..]) == [name] + Names(services[from + 1..]) by {
        assert services[from..][1..] == services[from + 1..];
      }
      if c.verdict.Failure? then Sweep([], [], DataAfter(data, file, svc), Some(c.verdict.error))
      else
        var rest := SweepFrom(DataAfter(data, file, svc), file, services, from + 1, stateDir, stateFiles, reply, start + |c.commands|);
        assert Names([(name, c.verdict.value)] + rest.results) == [name] + Names(rest.results);
        Sweep([(name, c.verdict.value)] + rest.results, c.commands + rest.commands, rest.data, rest.error)
  }

  /** One step of `SweepFrom` for a check that raises. */
  lemma SweepStops(data: Value, file: Option<Value>, services: seq<(string, ServiceConfig)>, from: nat,
                   stateDir: string, stateFiles: set<string>, reply: (nat, Command) -> CliResult, start: nat,
                   c: CheckRun, after: Value)
    requires from < |services|
    requires c == Check(data, file, services[from].0, services[from].1, stateDir, stateFiles, reply, start)
    requires c.verdict.Failure? && after == DataAfter(data, file, services[from].1)
    ensures SweepFrom(data, file, services, from, stateDir, stateFiles, reply, start)
         == Sweep([], [], after, Some(c.verdict.error))
  {
  }

  /** One step of `SweepFrom` for a check that returns: the configuration state becomes
      `after` and the next check starts at command `next`. */
  lemma SweepStep(data: Value, file: Option<Value>, services: seq<(string, ServiceConfig)>, from: nat,
                  stateDir: string, stateFiles: set<string>, reply: (nat, Command) -> CliResult, start: nat,
                  c: CheckRun, after: Value, next: nat)
    requires from < |services|
    requires c == Check(data, file, services[from].0, services[from].1, stateDir, stateFiles, reply, start)
    requires c.verdict.Success? && after == DataAfter(data, file, services[from].1) && next == start + |c.commands|
    ensures var rest := SweepFrom(after, file, services, from + 1, stateDir, stateFiles, reply, next);
      SweepFrom(data, file, services, from, stateDir, stateFiles, reply, start)
         == Sweep([(services[from].0, c.verdict.value)] + rest.results, c.commands + rest.commands, rest.data, rest.error)
  {
  }

  /** The `map` of `perform`: one `check_service` per service, in order, stopping at the
      first one that raises. */
  method CheckAll(pw: Playwright, store: Config.Store, services: seq<(string, ServiceConfig)>,
                  stateDir: string, stateFiles: set<string>)
    returns (verdicts: seq<(string, bool)>, error: Option<HealthError>)
    modifies pw`sent, store`data
    ensures var s := SweepFrom(old(store.data), store.file, services, 0, stateDir, stateFiles, pw.reply, |old(pw.sent)|);
      pw.sent == old(pw.sent) + s.commands && store.data == s.data && verdicts == s.results && error == s.error
  {
    ghost var data0 := store.data;
    ghost var sent0 := pw.sent;
    ghost var issued: seq<Command> := [];
    verdicts := [];
    var i := 0;
    while i < |services|
      invariant 0 <= i <= |services|
      invariant pw.sent == sent0 + issued
      invariant var s := SweepFrom(store.data, store.file, services, i, stateDir, stateFiles, pw.reply, |pw.sent|);
        SweepFrom(data0, store.file, services, 0, stateDir, stateFiles, pw.reply, |sent0|)
          == Sweep(verdicts + s.results, issued + s.commands, s.data, s.error)
    {
      var name, svc := services[i].0, services[i].1;
      ghost var dataBefore := store.data;
      ghost var start := |pw.sent|;
      ghost var c := Check(dataBefore, store.file, name, svc, stateDir, stateFiles, pw.reply, start);
      var ok := CheckService(pw, store, name, svc, stateDir, stateFiles);
      if ok.Failure? {
        SweepStops(dataBefore, store.file, services, i, stateDir, stateFiles, pw.reply, start, c, store.data);
        return verdicts, Some(ok.error);
      }
      SweepStep(dataBefore, store.file, services, i, stateDir, stateFiles, pw.reply, start, c, store.data, |pw.sent|);
      ghost var rest := SweepFrom(store.data, store.file, services, i + 1, stateDir, stateFiles, pw.reply, |pw.sent|);
      Seqs.Assoc(verdicts, [(name, ok.value)], rest.results);
      Seqs.Assoc(issued, c.commands, rest.commands);
      Seqs.Assoc(sent0, issued, c.commands);
      verdicts := verdicts + [(name, ok.value)];
      issued := issued + c.commands;
      i := i + 1;
    }
    error := None;
  }

  /** `perform(options)`: selection, one check per service in order, then the partition.
      A configuration error while checking a service aborts the whole run. */
  method Perform(pw: Playwright, store: Config.Store, target: Option<string>, stateDir: string, stateFiles: set<string>)
    returns (r: Result<HealthReport, HealthError>, ghost results: seq<(string, bool)>)
    modifies pw`sent, store`data
    ensures Selection(target).Failure? ==>
      r == Failure(Selection(target).error) && pw.sent == old(pw.sent) && store.data == old(store.data)
    ensures Selection(target).Success? ==>
      var s := SweepFrom(old(store.data), store.file, Selection(target).value, 0, stateDir, stateFiles, pw.reply, |old(pw.sent)|);
      && pw.sent == old(pw.sent) + s.commands && store.data == s.data && results == s.results
      && (if s.error.Some? then r == Failure(s.error.value)
          else r == Success(Partition(results)) && Names(results) == Names(Selection(target).value))
  {
    var selected := Selection(target);
    if selected.Failure? {
      return Failure(selected.error), [];
    }
    var verdicts, error := CheckAll(pw, store, selected.value, stateDir, stateFiles);
    results := verdicts;
    if error.Some? {
      return Failure(error.value), results;
    }
    assert selected.value[0..] == selected.value;
    r := Success(Partition(verdicts));
  }
}
