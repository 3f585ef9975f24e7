/** The Blazor tunnel service: a registry of cloudflared quick tunnels held
    in four port-keyed dictionaries (records, process handles, pending URLs,
    pending errors), with the lifecycle operations that change them. A
    process handle is its id; the machine is a `TunnelHost.Os`, a launched
    process a `TunnelHost.Launch`, and the clock the parameter `now` in
    whole seconds. Every completed `SaveActiveTunnels` reaches the settings
    store. */
module Tunnels {
  import opened Common
  import opened Strings
  import opened Models
  import opened Settings
  import opened TunnelOutput
  import opened TunnelHost

  // ---------------------------------------------------------------------
  // Records
  // ---------------------------------------------------------------------

  /** The name used when none is supplied. */
  function DefaultName(port: int): string {
    "port-" + IntToString(port) + "-tunnel"
  }

  /** `tunnelName ?? $"port-{port}-tunnel"`. */
  function NameFor(port: int, tunnelName: Option<string>): string {
    tunnelName.GetOr(DefaultName(port))
  }

  /** Distinct 32-bit ports get distinct default names. */
  lemma DefaultNameIdentifiesPort(a: int, b: int)
    requires Int32Min <= a <= Int32Max && Int32Min <= b <= Int32Max
    requires DefaultName(a) == DefaultName(b)
    ensures a == b
  {
    var pa := "port-" + IntToString(a);
    var pb := "port-" + IntToString(b);
    assert DefaultName(a) == pa + "-tunnel" && DefaultName(b) == pb + "-tunnel";
    assert pa == DefaultName(a)[..|DefaultName(a)| - 7];
    assert pb == DefaultName(b)[..|DefaultName(b)| - 7];
    assert IntToString(a) == pa[5..] && IntToString(b) == pb[5..];
    ParseRendered(a);
    ParseRendered(b);
  }

  /** The record inserted before cloudflared is started. */
  function StartingRecord(port: int, name: string, now: int): CloudflareTunnel {
    NewTunnel().(port := port, status := "Starting", startTime := now, tunnelName := name)
  }

  /** The record a successful start returns. */
  function ActiveRecord(port: int, name: string, now: int, pid: int, url: string): CloudflareTunnel {
    StartingRecord(port, name, now).(processId := pid, status := "Active", tunnelUrl := url)
  }

  const ExitedUnexpectedly: string := "Process exited unexpectedly"

  // ---------------------------------------------------------------------
  // Starting cloudflared and waiting for its URL
  // ---------------------------------------------------------------------

  /** The binary is found and the process starts. */
  predicate Launches(fs: FileSystem, l: Launch) {
    CloudflaredPath(fs).Some? && l.Launched?
  }

  /** The lines cloudflared prints during the one-second pause after start. */
  function StartupLines(fs: FileSystem, l: Launch): seq<string> {
    if Launches(fs, l) then l.startup else []
  }

  /** What a start followed by the wait ends in. */
  function StartOutcome(fs: FileSystem, l: Launch): Result<string, TunnelError> {
    if CloudflaredPath(fs).None? then Failure(NotInstalled)
    else
      match l
      case LaunchFailed(m) => Failure(LaunchError(m))
      case Launched(_, _, exited, code, _, _) =>
        if exited then Failure(ExitedWithCode(code))
        else
          match Wait(l)
          case GotUrl(u) => Success(u)
          case WaitFailed(e) => Failure(e)
  }

  /** The outcome in terms of the machine: success is a tunnel URL the
      process printed, after the exit check at startup passed. */
  lemma StartOutcomeSpec(fs: FileSystem, l: Launch)
    ensures StartOutcome(fs, l).Success? ==> Launches(fs, l) && !l.exitedAtStartup
    ensures StartOutcome(fs, l).Success? ==> exists k :: (0 <= k < MaxPolls && PendingUrl(l, k) == StartOutcome(fs, l).value
      && forall j :: 0 <= j < k ==> Quiet(l, j))
    ensures StartOutcome(fs, l) == Failure(Timeout) <==>
      Launches(fs, l) && !l.exitedAtStartup && forall k :: 0 <= k < MaxPolls ==> Quiet(l, k)
  {
    if Launches(fs, l) && !l.exitedAtStartup {
      WaitTimesOutIffQuiet(l, 0);
      if Wait(l).GotUrl? {
        FirstLoudPoll(l);
      }
    }
  }

  /** The record after output `lines` for its port: the last URL among
      them, if any, becomes its URL. */
  function WithStartupUrl(rec: CloudflareTunnel, lines: seq<string>): CloudflareTunnel {
    if UrlAfterLines(None, lines).Some? then rec.(tunnelUrl := UrlAfterLines(None, lines).value) else rec
  }

  /** The record of the port when a start from `rec` is over: the URL of
      the startup output, then, once the process is running, its id and
      "Active", then the URL the wait found. */
  function StartedRecord(rec: CloudflareTunnel, fs: FileSystem, l: Launch): CloudflareTunnel {
    var seen := WithStartupUrl(rec, StartupLines(fs, l));
    if !Launches(fs, l) || l.exitedAtStartup then seen
    else
      var running := seen.(processId := l.pid, status := "Active");
      if Wait(l).GotUrl? then running.(tunnelUrl := Wait(l).url) else running
  }

  /** The record the saved list holds when the start is over: the last one
      saved, which is the final record only on success. */
  function SavedRecord(rec: CloudflareTunnel, fs: FileSystem, l: Launch): CloudflareTunnel {
    if StartOutcome(fs, l).Success? then StartedRecord(rec, fs, l) else WithStartupUrl(rec, StartupLines(fs, l))
  }

  /** From a "Starting" record: success gives the running record with the
      URL; a failure leaves it "Active" exactly when the process was up,
      and the saved copy is the record as it was before that. */
  lemma StartedRecordSpec(rec: CloudflareTunnel, fs: FileSystem, l: Launch)
    requires rec.status == "Starting" && rec.processId == 0
    ensures StartOutcome(fs, l).Success? ==>
      l.Launched? && StartedRecord(rec, fs, l) == rec.(processId := l.pid, status := "Active", tunnelUrl := StartOutcome(fs, l).value)
    ensures StartedRecord(rec, fs, l).status == (if Launches(fs, l) && !l.exitedAtStartup then "Active" else "Starting")
    ensures StartOutcome(fs, l).Failure? ==>
      SavedRecord(rec, fs, l) == StartedRecord(rec, fs, l).(status := "Starting", processId := 0)
    ensures StartedRecord(rec, fs, l).(processId := 0, status := "Starting", tunnelUrl := rec.tunnelUrl) == rec
  {
  }

  /** When the wait does not time out, some poll is the first loud one and
      decides it. */
  lemma FirstLoudPoll(l: Launch)
    requires l.Launched? && Wait(l).GotUrl?
    ensures exists k :: 0 <= k < MaxPolls && PendingUrl(l, k) == Wait(l).url && forall j :: 0 <= j < k ==> Quiet(l, j)
  {
    WaitTimesOutIffQuiet(l, 0);
    var k := FirstNotQuiet(l, 0);
    FirstLoudPollDecides(l, 0, k);
  }

  /** The first poll from `k` on that is not quiet. */
  lemma {:induction false} FirstNotQuietExists(l: Launch, k: nat)
    requires l.Launched? && k <= MaxPolls
    requires !forall j :: k <= j < MaxPolls ==> Quiet(l, j)
    ensures exists j :: k <= j < MaxPolls && !Quiet(l, j) && forall i :: k <= i < j ==> Quiet(l, i)
    decreases MaxPolls - k
  {
    if Quiet(l, k) {
      FirstNotQuietExists(l, k + 1);
      var j :| k + 1 <= j < MaxPolls && !Quiet(l, j) && forall i :: k + 1 <= i < j ==> Quiet(l, i);
      assert forall i :: k <= i < j ==> Quiet(l, i);
    }
  }

  function FirstNotQuiet(l: Launch, k: nat): (j: nat)
    requires l.Launched? && k <= MaxPolls
    requires !forall i :: k <= i < MaxPolls ==> Quiet(l, i)
    ensures k <= j < MaxPolls && !Quiet(l, j) && forall i :: k <= i < j ==> Quiet(l, i)
  {
    FirstNotQuietExists(l, k);
    var j :| k <= j < MaxPolls && !Quiet(l, j) && forall i :: k <= i < j ==> Quiet(l, i);
    j
  }

  // ---------------------------------------------------------------------
  // The effect of output lines on the registry
  // ---------------------------------------------------------------------

  /** The pending dictionaries and the records after `lines` for `port`:
      the last URL and the last error line of the batch win. */
  function UrlsAfter(m: map<int, string>, port: int, lines: seq<string>): map<int, string> {
    if UrlAfterLines(None, lines).Some? then m[port := UrlAfterLines(None, lines).value] else m
  }

  function ErrorsAfter(m: map<int, string>, port: int, lines: seq<string>): map<int, string> {
    if ErrorAfterLines(None, lines).Some? then m[port := ErrorAfterLines(None, lines).value] else m
  }

  /** Output for `port` touches no other port. */
  lemma OthersAfter(um: map<int, string>, em: map<int, string>, port: int, lines: seq<string>)
    ensures UrlsAfter(um, port, lines) - {port} == um - {port}
    ensures ErrorsAfter(em, port, lines) - {port} == em - {port}
  {
  }

  /** A URL line saves the registry only while `port` has a record. */
  predicate SavesAfter(t: map<int, CloudflareTunnel>, port: int, lines: seq<string>) {
    port in t && UrlAfterLines(None, lines).Some?
  }

  function TunnelsAfter(t: map<int, CloudflareTunnel>, port: int, lines: seq<string>): map<int, CloudflareTunnel> {
    if SavesAfter(t, port, lines) then t[port := t[port].(tunnelUrl := UrlAfterLines(None, lines).value)] else t
  }

  lemma TunnelsAfterAt(t: map<int, CloudflareTunnel>, port: int, lines: seq<string>)
    requires port in t
    ensures TunnelsAfter(t, port, lines) == t[port := WithStartupUrl(t[port], lines)]
  {
    MapUpdateSame(t, port);
  }

  /** One more line acts as `ParseOutput` does on the state after the
      earlier ones. */
  lemma FeedStep(um: map<int, string>, em: map<int, string>, t: map<int, CloudflareTunnel>,
                 port: int, lines: seq<string>, line: string)
    ensures UrlsAfter(um, port, lines + [line]) == if FindUrl(line).Some?
      then UrlsAfter(um, port, lines)[port := FindUrl(line).value] else UrlsAfter(um, port, lines)
    ensures ErrorsAfter(em, port, lines + [line]) == if IsErrorLine(line)
      then ErrorsAfter(em, port, lines)[port := line] else ErrorsAfter(em, port, lines)
    ensures TunnelsAfter(t, port, lines + [line]) == if FindUrl(line).Some? && port in t
      then TunnelsAfter(t, port, lines)[port := TunnelsAfter(t, port, lines)[port].(tunnelUrl := FindUrl(line).value)]
      else TunnelsAfter(t, port, lines)
    ensures SavesAfter(t, port, lines + [line]) <==> SavesAfter(t, port, lines) || (port in t && FindUrl(line).Some?)
  {
    LaterUrlWins(None, lines, line);
    LaterErrorWins(None, lines, line);
  }

  /** No batch brings an empty URL or error, so a poll that reads "" has
      seen nothing new. */
  lemma PollStep(l: Launch, k: nat)
    requires l.Launched?
    ensures var batch := TickLines(l, k);
      PendingUrl(l, k) == (if UrlAfterLines(None, batch).Some? then UrlAfterLines(None, batch).value else UrlBefore(l, k))
      && PendingError(l, k) == (if ErrorAfterLines(None, batch).Some? then ErrorAfterLines(None, batch).value
                                else ErrorBefore(l, k))
      && (UrlAfterLines(None, batch).Some? ==> UrlAfterLines(None, batch).value != "")
  {
    FoundIsNonEmpty(TickLines(l, k));
  }

  /** The pids sent a kill when the handle of `port` is dropped. */
  function KillOf(procs: map<int, int>, port: int): seq<int> {
    if port in procs then [procs[port]] else []
  }

  function KillsOf(procs: map<int, int>, ports: seq<int>): seq<int>
    decreases |ports|
  {
    if ports == [] then [] else KillsOf(procs, ports[..|ports| - 1]) + KillOf(procs, ports[|ports| - 1])
  }

  /** Stopping one more port appends that port's kill to what was killed
      before. */
  lemma KillsOfPrefix(before: seq<int>, procs: map<int, int>, ports: seq<int>, i: int)
    requires 0 <= i < |ports|
    ensures before + KillsOf(procs, ports[..i + 1]) == (before + KillsOf(procs, ports[..i])) + KillOf(procs, ports[i])
  {
    assert ports[..i + 1][..i] == ports[..i];
  }

  /** Every pid killed is a pid the handles held. */
  lemma {:induction false} KillsOfTracked(procs: map<int, int>, ports: seq<int>)
    ensures forall x :: x in KillsOf(procs, ports) ==> exists p :: p in procs && procs[p] == x && p in ports
    decreases |ports|
  {
    if ports != [] {
      var init := ports[..|ports| - 1];
      KillsOfTracked(procs, init);
      forall x | x in KillsOf(procs, ports) ensures exists p :: p in procs && procs[p] == x && p in ports {
        if x in KillsOf(procs, init) {
          var p :| p in procs && procs[p] == x && p in init;
          assert p in ports;
        } else {
          assert ports[|ports| - 1] in ports;
        }
      }
    }
  }

  /** The four dictionaries of the service and the pids it has sent a kill. */
  datatype Handles = Handles(
    tunnels: map<int, CloudflareTunnel>,
    processes: map<int, int>,
    urls: map<int, string>,
    errors: map<int, string>,
    killed: seq<int>)

  /** `StopTunnel` on a port with a record: its handle is killed and the port
      leaves every dictionary. */
  function Stopped(h: Handles, port: int): Handles {
    Handles(h.tunnels - {port}, h.processes - {port}, h.urls - {port}, h.errors - {port},
      h.killed + KillOf(h.processes, port))
  }

  /** `StopTunnel` on each of `ports` in turn. */
  function StoppedAll(h: Handles, ports: seq<int>): Handles
    decreases |ports|
  {
    if ports == [] then h else Stopped(StoppedAll(h, ports[..|ports| - 1]), ports[|ports| - 1])
  }

  lemma StoppedAllPrefix(h: Handles, ports: seq<int>, i: int)
    requires 0 <= i < |ports|
    ensures StoppedAll(h, ports[..i + 1]) == Stopped(StoppedAll(h, ports[..i]), ports[i])
  {
    assert ports[..i + 1][..i] == ports[..i];
  }

  predicate Distinct(ports: seq<int>) {
    forall i, j :: 0 <= i < j < |ports| ==> ports[i] != ports[j]
  }

  /** Stopping distinct ports one after another removes them all and kills
      the handles they had at the start, in order. */
  lemma {:induction false} StoppedAllSpec(h: Handles, ports: seq<int>)
    requires Distinct(ports)
    ensures StoppedAll(h, ports).tunnels == h.tunnels - Elements(ports)
    ensures StoppedAll(h, ports).processes == h.processes - Elements(ports)
    ensures StoppedAll(h, ports).urls == h.urls - Elements(ports)
    ensures StoppedAll(h, ports).errors == h.errors - Elements(ports)
    ensures StoppedAll(h, ports).killed == h.killed + KillsOf(h.processes, ports)
    decreases |ports|
  {
    if ports != [] {
      var init := ports[..|ports| - 1];
      var last := ports[|ports| - 1];
      assert Distinct(init);
      StoppedAllSpec(h, init);
      assert last !in Elements(init);
      assert Elements(ports) == Elements(init) + {last} by {
        assert ports == init + [last];
      }
      MapRemoveMore(h.tunnels, Elements(init), last);
      MapRemoveMore(h.processes, Elements(init), last);
      MapRemoveMore(h.urls, Elements(init), last);
      MapRemoveMore(h.errors, Elements(init), last);
      assert KillOf(h.processes - Elements(init), last) == KillOf(h.processes, last);
    }
  }

  /** `StopAllTunnels` over a snapshot of the keys: nothing is left
      registered, exactly the snapshot's handles are dropped and killed, and
      every pid killed was one the service held. */
  lemma StopAllSpec(h: Handles)
    ensures StoppedAll(h, SortedKeys(h.tunnels.Keys)).tunnels == map[]
    ensures StoppedAll(h, SortedKeys(h.tunnels.Keys)).processes == h.processes - h.tunnels.Keys
    ensures StoppedAll(h, SortedKeys(h.tunnels.Keys)).urls == h.urls - h.tunnels.Keys
    ensures StoppedAll(h, SortedKeys(h.tunnels.Keys)).errors == h.errors - h.tunnels.Keys
    ensures StoppedAll(h, SortedKeys(h.tunnels.Keys)).killed == h.killed + KillsOf(h.processes, SortedKeys(h.tunnels.Keys))
    ensures (forall x :: x in KillsOf(h.processes, SortedKeys(h.tunnels.Keys)) ==>
      exists p :: p in h.processes && h.processes[p] == x && p in h.tunnels)
  {
    var ports := SortedKeys(h.tunnels.Keys);
    StoppedAllSpec(h, ports);
    SortedKeysElements(h.tunnels.Keys);
    KillsOfTracked(h.processes, ports);
  }

  // ---------------------------------------------------------------------
  // Finding a running tunnel
  // ---------------------------------------------------------------------

  /** A candidate for `GetProcessForPort`: its command line contains
      `--url localhost:<port>` as a substring (so a tunnel for 8080 is a
      candidate for 80 too); a tracked handle must also not have exited. */
  predicate Candidate(os: Os, pid: int, port: int, checkExited: bool) {
    (!checkExited || !HasExited(os, pid)) && RunsTunnelFor(os, pid, port)
  }

  /** The first candidate of `pids`. */
  function FirstCandidate(os: Os, pids: seq<int>, port: int, checkExited: bool): (r: Option<int>)
    ensures r.Some? ==> exists i :: (0 <= i < |pids| && pids[i] == r.value && Candidate(os, r.value, port, checkExited)
      && forall j :: 0 <= j < i ==> !Candidate(os, pids[j], port, checkExited))
    ensures r.None? ==> forall i :: 0 <= i < |pids| ==> !Candidate(os, pids[i], port, checkExited)
    decreases |pids|
  {
    if pids == [] then None
    else if Candidate(os, pids[0], port, checkExited) then Some(pids[0])
    else
      var r := FirstCandidate(os, pids[1..], port, checkExited);
      assert forall i :: 1 <= i < |pids| ==> pids[i] == pids[1..][i - 1];
      r
  }

  /** The tracked handles by ascending port. */
  function TrackedPids(procs: map<int, int>): (r: seq<int>)
    ensures |r| == |procs|
  {
    ValuesByKeySpec(procs);
    ValuesByKey(procs)
  }

  /** `GetProcessForPort`: a live tracked handle first, then any cloudflared
      process, whose command line contains `--url localhost:{port}` as a
      substring, so a longer port such as 8080 also matches port 80. */
  function ProcessForPort(os: Os, procs: map<int, int>, port: int): Option<int> {
    var tracked := FirstCandidate(os, TrackedPids(procs), port, true);
    if tracked.Some? then tracked else FirstCandidate(os, os.cloudflared, port, false)
  }

  /** A process found has `--url localhost:<port>` in its command line (as a
      substring, which a tunnel for a longer port such as 8080 also satisfies
      for 80); none is found exactly when no live tracked handle and no
      cloudflared process has it. */
  lemma ProcessForPortSpec(os: Os, procs: map<int, int>, port: int)
    ensures ProcessForPort(os, procs, port).Some? ==> RunsTunnelFor(os, ProcessForPort(os, procs, port).value, port)
    ensures ProcessForPort(os, procs, port).None? <==>
      (forall i :: 0 <= i < |TrackedPids(procs)| ==> !Candidate(os, TrackedPids(procs)[i], port, true))
      && (forall i :: 0 <= i < |os.cloudflared| ==> !RunsTunnelFor(os, os.cloudflared[i], port))
  {
    var t := FirstCandidate(os, TrackedPids(procs), port, true);
    var c := FirstCandidate(os, os.cloudflared, port, false);
    if t.Some? {
      var i :| 0 <= i < |TrackedPids(procs)| && TrackedPids(procs)[i] == t.value && Candidate(os, t.value, port, true)
        && forall j :: 0 <= j < i ==> !Candidate(os, TrackedPids(procs)[j], port, true);
    } else if c.Some? {
      var i :| 0 <= i < |os.cloudflared| && os.cloudflared[i] == c.value && Candidate(os, c.value, port, false)
        && forall j :: 0 <= j < i ==> !Candidate(os, os.cloudflared[j], port, false);
    }
  }

  // ---------------------------------------------------------------------
  // Startup restore and status refresh
  // ---------------------------------------------------------------------

  /** The record restored for a saved one, given the process found for it. */
  function RestoredRecord(os: Os, saved: CloudflareTunnel, found: Option<int>): CloudflareTunnel {
    NewTunnel().(
      port := saved.port,
      status := if found.Some? then "Active" else "Inactive",
      tunnelUrl := saved.tunnelUrl,
      processId := found.GetOr(0),
      startTime := if found.Some? then StartTimeOf(os, found.value) else saved.startTime,
      tunnelName := saved.tunnelName)
  }

  datatype Registry = Registry(tunnels: map<int, CloudflareTunnel>, procs: map<int, int>)

  /** The loop of `InitializeAsync` over the saved records, in order; each
      lookup sees the handles registered by the earlier steps. */
  function Restored(r: Registry, os: Os, saved: seq<CloudflareTunnel>): Registry
    decreases |saved|
  {
    if saved == [] then r
    else RestoreOne(Restored(r, os, saved[..|saved| - 1]), os, saved[|saved| - 1])
  }

  /** The restore of one more saved record. */
  lemma RestoredSnoc(r: Registry, os: Os, saved: seq<CloudflareTunnel>, i: int)
    requires 0 <= i < |saved|
    ensures Restored(r, os, saved[..i + 1]) == RestoreOne(Restored(r, os, saved[..i]), os, saved[i])
  {
    assert saved[..i + 1][..i] == saved[..i];
  }

  /** One step: the record for `s` under its port, and the handle found. */
  function RestoreOne(prev: Registry, os: Os, s: CloudflareTunnel): Registry {
    var found := ProcessForPort(os, prev.procs, s.port);
    Registry(prev.tunnels[s.port := RestoredRecord(os, s, found)],
             if found.Some? then prev.procs[s.port := found.value] else prev.procs)
  }

  /** The ports of `saved`. */
  function SavedPorts(saved: seq<CloudflareTunnel>): set<int> {
    set i | 0 <= i < |saved| :: saved[i].port
  }

  lemma SavedPortsSnoc(saved: seq<CloudflareTunnel>)
    requires saved != []
    ensures SavedPorts(saved) == SavedPorts(saved[..|saved| - 1]) + {saved[|saved| - 1].port}
  {
    var init := saved[..|saved| - 1];
    forall p | p in SavedPorts(saved) ensures p in SavedPorts(init) + {saved[|saved| - 1].port} {
      var i :| 0 <= i < |saved| && saved[i].port == p;
      if i < |init| {
        assert init[i] == saved[i];
      }
    }
    forall p | p in SavedPorts(init) ensures p in SavedPorts(saved) {
      var i :| 0 <= i < |init| && init[i].port == p;
      assert saved[i] == init[i];
    }
  }

  /** After the restore the saved ports have records ... */
  lemma {:induction false} RestoredKeys(r: Registry, os: Os, saved: seq<CloudflareTunnel>)
    ensures Restored(r, os, saved).tunnels.Keys == r.tunnels.Keys + SavedPorts(saved)
    decreases |saved|
  {
    if saved != [] {
      RestoredKeys(r, os, saved[..|saved| - 1]);
      SavedPortsSnoc(saved);
      RestoreStepFrame(Restored(r, os, saved[..|saved| - 1]), os, saved[|saved| - 1], Restored(r, os, saved));
    }
  }

  /** ... and a port that was not saved keeps its record and its handle. */
  lemma {:induction false} RestoredOther(r: Registry, os: Os, saved: seq<CloudflareTunnel>, p: int)
    requires p !in SavedPorts(saved)
    ensures var n := Restored(r, os, saved);
      (p in r.tunnels ==> p in n.tunnels && n.tunnels[p] == r.tunnels[p])
      && (p in n.procs ==> p in r.procs)
      && (p in r.procs ==> p in n.procs && n.procs[p] == r.procs[p])
    decreases |saved|
  {
    if saved != [] {
      SavedPortsSnoc(saved);
      RestoredOther(r, os, saved[..|saved| - 1], p);
      RestoredKeys(r, os, saved[..|saved| - 1]);
      RestoreStepFrame(Restored(r, os, saved[..|saved| - 1]), os, saved[|saved| - 1], Restored(r, os, saved));
    }
  }

  lemma RestoreStepFrame(prev: Registry, os: Os, s: CloudflareTunnel, n: Registry)
    requires n == RestoreOne(prev, os, s)
    ensures n.tunnels.Keys == prev.tunnels.Keys + {s.port}
    ensures forall p :: p != s.port && p in prev.tunnels ==> n.tunnels[p] == prev.tunnels[p]
    ensures forall p :: p != s.port ==> (p in n.procs <==> p in prev.procs)
    ensures forall p :: p != s.port && p in prev.procs ==> n.procs[p] == prev.procs[p]
  {
  }

  /** A restored record is "Active" with a registered running tunnel
      process, or "Inactive" with process id 0; its URL and name come from
      the last saved record of its port. */
  lemma {:induction false} RestoredRecords(r: Registry, os: Os, saved: seq<CloudflareTunnel>)
    ensures forall p :: p in SavedPorts(saved) ==> RestoredWell(Restored(r, os, saved), os, saved, p)
    decreases |saved|
  {
    if saved != [] {
      var init := saved[..|saved| - 1];
      var s := saved[|saved| - 1];
      RestoredRecords(r, os, init);
      SavedPortsSnoc(saved);
      var prev := Restored(r, os, init);
      var n := Restored(r, os, saved);
      forall p | p in SavedPorts(saved) ensures RestoredWell(n, os, saved, p) {
        if p == s.port {
          RestoredLast(n, os, saved, prev);
        } else {
          RestoredEarlier(n, os, saved, prev, p);
        }
      }
    }
  }


  lemma RestoredLast(n: Registry, os: Os, saved: seq<CloudflareTunnel>, prev: Registry)
    requires saved != [] && n == RestoreOne(prev, os, saved[|saved| - 1])
    ensures RestoredWell(n, os, saved, saved[|saved| - 1].port)
  {
    var s := saved[|saved| - 1];
    ProcessForPortSpec(os, prev.procs, s.port);
    assert 0 <= |saved| - 1 < |saved| && saved[|saved| - 1].port == s.port;
  }

  lemma RestoredEarlier(n: Registry, os: Os, saved: seq<CloudflareTunnel>, prev: Registry, p: int)
    requires saved != [] && n == RestoreOne(prev, os, saved[|saved| - 1])
    requires p != saved[|saved| - 1].port && RestoredWell(prev, os, saved[..|saved| - 1], p)
    ensures RestoredWell(n, os, saved, p)
  {
    var init := saved[..|saved| - 1];
    var i :| 0 <= i < |init| && init[i].port == p && prev.tunnels[p].tunnelUrl == init[i].tunnelUrl
      && prev.tunnels[p].tunnelName == init[i].tunnelName
      && forall j :: i < j < |init| ==> init[j].port != p;
    assert saved[i] == init[i];
    forall j | i < j < |saved| ensures saved[j].port != p {
      if j < |init| {
        assert saved[j] == init[j];
      }
    }
  }

  predicate RestoredWell(n: Registry, os: Os, saved: seq<CloudflareTunnel>, p: int) {
    p in n.tunnels
    && n.tunnels[p].port == p
    && (n.tunnels[p].status == "Active" || n.tunnels[p].status == "Inactive")
    && (n.tunnels[p].status == "Active" ==>
          p in n.procs && n.procs[p] == n.tunnels[p].processId && RunsTunnelFor(os, n.procs[p], p))
    && (n.tunnels[p].status == "Inactive" ==> n.tunnels[p].processId == 0)
    && exists i :: 0 <= i < |saved| && saved[i].port == p && n.tunnels[p].tunnelUrl == saved[i].tunnelUrl
         && n.tunnels[p].tunnelName == saved[i].tunnelName
         && forall j :: i < j < |saved| ==> saved[j].port != p
  }

  /** `UpdateTunnelStatus` on one record: an exited tracked process marks
      it stopped, a live one refreshes its uptime, an untracked record is
      left alone. */
  function Refreshed(t: CloudflareTunnel, procs: map<int, int>, os: Os, now: int): CloudflareTunnel {
    if t.port in procs then
      if HasExited(os, procs[t.port]) then t.(status := "Stopped", lastError := Some(ExitedUnexpectedly))
      else t.(uptime := FormatUptime(now - t.startTime))
    else t
  }

  /** Refreshing twice at the same moment is refreshing once. */
  lemma RefreshedIdempotent(t: CloudflareTunnel, procs: map<int, int>, os: Os, now: int)
    ensures Refreshed(Refreshed(t, procs, os, now), procs, os, now) == Refreshed(t, procs, os, now)
  {
  }

  /** `UpdateTunnelStatus` over the registry: every record refreshed. */
  function RefreshedAll(t: map<int, CloudflareTunnel>, procs: map<int, int>, os: Os, now: int): map<int, CloudflareTunnel> {
    map p | p in t :: Refreshed(t[p], procs, os, now)
  }

  /** The refresh keeps the ports and their records' ports, stops exactly
      the records whose tracked process has exited and leaves untracked
      ones alone; repeating it at the same moment changes nothing. */
  lemma RefreshedAllSpec(t: map<int, CloudflareTunnel>, procs: map<int, int>, os: Os, now: int)
    ensures RefreshedAll(t, procs, os, now).Keys == t.Keys
    ensures forall p :: p in t ==> RefreshedAll(t, procs, os, now)[p].port == t[p].port
    ensures forall p :: p in t && t[p].port in procs && HasExited(os, procs[t[p].port]) ==>
      RefreshedAll(t, procs, os, now)[p].status == "Stopped"
    ensures forall p :: p in t && t[p].status != "Stopped" ==>
      (RefreshedAll(t, procs, os, now)[p].status == "Stopped" <==> t[p].port in procs && HasExited(os, procs[t[p].port]))
    ensures forall p :: p in t && t[p].port !in procs ==> RefreshedAll(t, procs, os, now)[p] == t[p]
    ensures RefreshedAll(RefreshedAll(t, procs, os, now), procs, os, now) == RefreshedAll(t, procs, os, now)
  {
    var r := RefreshedAll(t, procs, os, now);
    forall p | p in t ensures RefreshedAll(r, procs, os, now)[p] == r[p] {
      RefreshedIdempotent(t[p], procs, os, now);
    }
  }

  /** The registry part way through `UpdateTunnelStatus`: the records of
      the ports in `done` are refreshed. */
  function RefreshedOn(t: map<int, CloudflareTunnel>, done: set<int>, procs: map<int, int>, os: Os, now: int)
    : map<int, CloudflareTunnel>
  {
    map p | p in t :: if p in done then Refreshed(t[p], procs, os, now) else t[p]
  }

  /** Refreshing one more record; a record already refreshed is unchanged
      by a second refresh. */
  lemma RefreshStep(t: map<int, CloudflareTunnel>, done: set<int>, p: int, procs: map<int, int>, os: Os, now: int)
    requires p in t
    ensures p in RefreshedOn(t, done, procs, os, now)
    ensures RefreshedOn(t, done, procs, os, now)[p := Refreshed(RefreshedOn(t, done, procs, os, now)[p], procs, os, now)]
      == RefreshedOn(t, done + {p}, procs, os, now)
  {
    RefreshedIdempotent(t[p], procs, os, now);
  }

  /** The refresh keeps every record under its port; with every port done
      it is the whole refresh. */
  lemma RefreshedOnPorts(t: map<int, CloudflareTunnel>, done: set<int>, procs: map<int, int>, os: Os, now: int)
    requires forall p :: p in t ==> t[p].port == p
    ensures forall p :: p in RefreshedOn(t, done, procs, os, now) ==> RefreshedOn(t, done, procs, os, now)[p].port == p
    ensures done == t.Keys ==> RefreshedOn(t, done, procs, os, now) == RefreshedAll(t, procs, os, now)
  {
  }

  /** Before the loop of `UpdateTunnelStatus` no record is refreshed. */
  lemma RefreshStart(t: map<int, CloudflareTunnel>, ports: seq<int>, procs: map<int, int>, os: Os, now: int)
    ensures RefreshedOn(t, Elements(ports[..0]), procs, os, now) == t
  {
    assert Elements(ports[..0]) == {};
  }

  /** When the loop has been over all the ports, the registry is refreshed,
      each record still under its port. */
  lemma RefreshDone(t: map<int, CloudflareTunnel>, ports: seq<int>, procs: map<int, int>, os: Os, now: int)
    requires forall p :: p in t ==> t[p].port == p
    requires Elements(ports) == t.Keys
    ensures RefreshedOn(t, Elements(ports[..|ports|]), procs, os, now) == RefreshedAll(t, procs, os, now)
    ensures forall p :: p in RefreshedAll(t, procs, os, now) ==> RefreshedAll(t, procs, os, now)[p].port == p
  {
    TakeAll(ports);
    RefreshedOnPorts(t, t.Keys, procs, os, now);
  }

  /** The first candidate is at `i` when `pids[i]` is one and none before it is. */
  lemma FirstCandidateAt(os: Os, pids: seq<int>, port: int, checkExited: bool, i: int)
    requires 0 <= i < |pids| && Candidate(os, pids[i], port, checkExited)
    requires forall j :: 0 <= j < i ==> !Candidate(os, pids[j], port, checkExited)
    ensures FirstCandidate(os, pids, port, checkExited) == Some(pids[i])
  {
    var r := FirstCandidate(os, pids, port, checkExited);
    if r.Some? {
      var k :| 0 <= k < |pids| && pids[k] == r.value && Candidate(os, r.value, port, checkExited)
        && forall j :: 0 <= j < k ==> !Candidate(os, pids[j], port, checkExited);
      assert !(k < i) && !(i < k);
    }
  }

  /** The record `RestartTunnelAsync` inserts: "Starting", started at `now`,
      with no name. */
  function RestartRecord(port: int, now: int): CloudflareTunnel {
    NewTunnel().(port := port, status := "Starting", startTime := now)
  }

  /** One loop of `GetProcessForPort`: the first of `pids` that is a
      candidate for the port. */
  method FindCandidate(os: Os, pids: seq<int>, port: int, checkExited: bool) returns (r: Option<int>)
    ensures r == FirstCandidate(os, pids, port, checkExited)
  {
    var i := 0;
    while i < |pids|
      invariant 0 <= i <= |pids|
      invariant forall j :: 0 <= j < i ==> !Candidate(os, pids[j], port, checkExited)
    {
      if Candidate(os, pids[i], port, checkExited) {
        FirstCandidateAt(os, pids, port, checkExited, i);
        return Some(pids[i]);
      }
      i := i + 1;
    }
    return None;
  }

  // ---------------------------------------------------------------------
  // The service
  // ---------------------------------------------------------------------

  /** The records of a map keyed by their own ports, listed by ascending key:
      each under its own port, ports strictly ascending, none missing. */
  lemma ByPortInOrder(m: map<int, CloudflareTunnel>)
    requires forall p :: p in m ==> m[p].port == p
    ensures |ValuesByKey(m)| == |m|
    ensures forall i :: 0 <= i < |m| ==> ValuesByKey(m)[i].port in m && m[ValuesByKey(m)[i].port] == ValuesByKey(m)[i]
    ensures forall i, j :: 0 <= i < j < |m| ==> ValuesByKey(m)[i].port < ValuesByKey(m)[j].port
    ensures forall p :: p in m ==> m[p] in ValuesByKey(m)
  {
    ValuesByKeySpec(m);
    var r := ValuesByKey(m);
    var ks := SortedKeys(m.Keys);
    assert |ks| == |m.Keys| == |m|;
    forall i | 0 <= i < |m| ensures r[i].port == ks[i] && r[i].port in m && m[r[i].port] == r[i] {
      assert ks[i] in m && r[i] == m[ks[i]];
    }
    forall i, j | 0 <= i < j < |m| ensures r[i].port < r[j].port {
      assert ks[i] < ks[j];
    }
    forall p | p in m ensures m[p] in r {
      assert p in m.Keys;
      var i :| 0 <= i < |ks| && ks[i] == p;
      assert r[i] == m[p];
    }
  }

  class TunnelService {
    var tunnels: map<int, CloudflareTunnel>
    /** `_tunnelProcesses`: the id of each tracked process. */
    var processes: map<int, int>
    var urls: map<int, string>
    var errors: map<int, string>
    /** The ids of the processes sent `Kill`, in order. */
    var killed: seq<int>
    const settings: SettingsStore

    /** Each record sits under its own port. */
    predicate Valid()
      reads this
    {
      forall p :: p in tunnels ==> tunnels[p].port == p
    }

    constructor (file: StoredFile, writable: bool)
      ensures tunnels == map[] && processes == map[] && urls == map[] && errors == map[] && killed == []
      ensures fresh(settings) && settings.file == file && settings.writable == writable
      ensures Valid()
    {
      tunnels := map[];
      processes := map[];
      urls := map[];
      errors := map[];
      killed := [];
      settings := new SettingsStore(file, writable);
    }

    /** `GetTunnels`: every record once, in ascending port order (the order
        the model gives dictionary enumeration). */
    function GetTunnels(): (r: seq<CloudflareTunnel>)
      requires Valid()
      reads this
      ensures |r| == |tunnels|
      ensures forall i :: 0 <= i < |r| ==> r[i].port in tunnels && tunnels[r[i].port] == r[i]
      ensures forall i, j :: 0 <= i < j < |r| ==> r[i].port < r[j].port
      ensures forall p :: p in tunnels ==> tunnels[p] in r
    {
      ByPortInOrder(tunnels);
      ValuesByKey(tunnels)
    }

    method SaveActiveTunnels()
      modifies settings
      ensures settings.file == WithActiveTunnels(old(settings.file), settings.writable, ValuesByKey(tunnels))
      ensures settings.writable == old(settings.writable)
    {
      settings.SaveActiveTunnels(ValuesByKey(tunnels));
    }

    /** `ParseOutput`: a URL line becomes the pending URL and the record's
        URL, which is saved; an error line becomes the pending error. */
    method ParseOutput(port: int, line: string)
      requires Valid()
      modifies this, settings
      ensures Valid()
      ensures urls == if FindUrl(line).Some? then old(urls)[port := FindUrl(line).value] else old(urls)
      ensures errors == if IsErrorLine(line) then old(errors)[port := line] else old(errors)
      ensures tunnels == if FindUrl(line).Some? && port in old(tunnels)
        then old(tunnels)[port := old(tunnels)[port].(tunnelUrl := FindUrl(line).value)] else old(tunnels)
      ensures settings.file == if FindUrl(line).Some? && port in old(tunnels)
        then WithActiveTunnels(old(settings.file), settings.writable, ValuesByKey(tunnels)) else old(settings.file)
      ensures processes == old(processes) && killed == old(killed) && settings.writable == old(settings.writable)
    {
      var m := FindUrl(line);
      if m.Some? {
        urls := urls[port := m.value];
        if port in tunnels {
          tunnels := tunnels[port := tunnels[port].(tunnelUrl := m.value)];
          SaveActiveTunnels();
        }
      }
      if IsErrorLine(line) {
        errors := errors[port := line];
      }
    }

    /** The output callbacks fed `lines` in order. */
    method FeedLines(port: int, lines: seq<string>)
      requires Valid()
      modifies this, settings
      ensures Valid()
      ensures urls == UrlsAfter(old(urls), port, lines)
      ensures errors == ErrorsAfter(old(errors), port, lines)
      ensures tunnels == TunnelsAfter(old(tunnels), port, lines)
      ensures settings.file == if SavesAfter(old(tunnels), port, lines)
        then WithActiveTunnels(old(settings.file), settings.writable, ValuesByKey(tunnels)) else old(settings.file)
      ensures processes == old(processes) && killed == old(killed) && settings.writable == old(settings.writable)
    {
      var i := 0;
      assert lines[..0] == [];
      while i < |lines|
        invariant 0 <= i <= |lines|
        invariant Valid()
        invariant urls == UrlsAfter(old(urls), port, lines[..i])
        invariant errors == ErrorsAfter(old(errors), port, lines[..i])
        invariant tunnels == TunnelsAfter(old(tunnels), port, lines[..i])
        invariant settings.file == if SavesAfter(old(tunnels), port, lines[..i])
          then WithActiveTunnels(old(settings.file), settings.writable, ValuesByKey(tunnels)) else old(settings.file)
        invariant processes == old(processes) && killed == old(killed) && settings.writable == old(settings.writable)
      {
        ghost var t := tunnels;
        ParseOutput(port, lines[i]);
        assert lines[..i + 1] == lines[..i] + [lines[i]];
        FeedStep(old(urls), old(errors), old(tunnels), port, lines[..i], lines[i]);
        if FindUrl(lines[i]).Some? && port in old(tunnels) {
          ActiveTunnelsLastWriteWins(old(settings.file), settings.writable, ValuesByKey(t), ValuesByKey(tunnels));
        }
        i := i + 1;
      }
      assert lines[..i] == lines;
    }

    /** One turn of the poll loop while nothing has been reported yet: the
        output of the last half second arrives, and the pending values are
        those of poll `k`. */
    method Poll(port: int, l: Launch, k: nat)
      requires Valid() && l.Launched?
      requires port in tunnels && port in urls && urls[port] == "" && port in errors && errors[port] == ""
      requires UrlBefore(l, k) == "" && ErrorBefore(l, k) == ""
      modifies this, settings
      ensures Valid()
      ensures urls == old(urls)[port := PendingUrl(l, k)] && errors == old(errors)[port := PendingError(l, k)]
      ensures tunnels == if PendingUrl(l, k) != ""
        then old(tunnels)[port := old(tunnels)[port].(tunnelUrl := PendingUrl(l, k))] else old(tunnels)
      ensures settings.file == if PendingUrl(l, k) != ""
        then WithActiveTunnels(old(settings.file), settings.writable, ValuesByKey(tunnels)) else old(settings.file)
      ensures processes == old(processes) && killed == old(killed) && settings.writable == old(settings.writable)
    {
      var batch := TickLines(l, k);
      PollStep(l, k);
      MapUpdateSame(urls, port);
      MapUpdateSame(errors, port);
      FeedLines(port, batch);
    }

    /** The 500-millisecond poll loop, from the reset of the pending values
        to its outcome; on success the URL is written to the record and
        saved, on failure nothing has changed. */
    method WaitForUrl(port: int, l: Launch) returns (outcome: WaitOutcome)
      requires Valid() && l.Launched?
      requires port in tunnels && port in urls && urls[port] == "" && port in errors && errors[port] == ""
      modifies this, settings
      ensures Valid()
      ensures outcome == Wait(l)
      ensures outcome.GotUrl? ==> (tunnels == old(tunnels)[port := old(tunnels)[port].(tunnelUrl := outcome.url)]
        && settings.file == WithActiveTunnels(old(settings.file), settings.writable, ValuesByKey(tunnels))
        && port in urls && urls[port] == outcome.url)
      ensures outcome.WaitFailed? ==> tunnels == old(tunnels) && settings.file == old(settings.file)
      ensures port in urls && port in errors
      ensures urls == old(urls)[port := urls[port]] && errors == old(errors)[port := errors[port]]
      ensures processes == old(processes) && killed == old(killed) && settings.writable == old(settings.writable)
    {
      var k: nat := 0;
      while k < MaxPolls
        invariant k <= MaxPolls
        invariant Valid()
        invariant WaitFrom(l, k) == Wait(l)
        invariant UrlBefore(l, k) == "" && ErrorBefore(l, k) == ""
        invariant urls == old(urls) && errors == old(errors)
        invariant tunnels == old(tunnels) && settings.file == old(settings.file)
        invariant processes == old(processes) && killed == old(killed) && settings.writable == old(settings.writable)
      {
        var verdict := PollOnce(port, l, k);
        if verdict.Some? {
          return verdict.value;
        }
        k := k + 1;
      }
      return WaitFailed(Timeout);
    }

    /** One turn of the poll loop with its checks: `None` when the poll is
        quiet and the loop goes on, else how the wait ends. */
    method PollOnce(port: int, l: Launch, k: nat) returns (verdict: Option<WaitOutcome>)
      requires Valid() && l.Launched?
      requires port in tunnels && port in urls && urls[port] == "" && port in errors && errors[port] == ""
      requires UrlBefore(l, k) == "" && ErrorBefore(l, k) == ""
      modifies this, settings
      ensures Valid()
      ensures verdict == if Quiet(l, k) then None else Some(Verdict(l, k))
      ensures verdict.None? ==> urls == old(urls) && errors == old(errors)
      ensures verdict.None? || verdict.value.WaitFailed? ==> tunnels == old(tunnels) && settings.file == old(settings.file)
      ensures verdict.Some? && verdict.value.GotUrl? ==>
        (tunnels == old(tunnels)[port := old(tunnels)[port].(tunnelUrl := verdict.value.url)]
        && settings.file == WithActiveTunnels(old(settings.file), settings.writable, ValuesByKey(tunnels))
        && port in urls && urls[port] == verdict.value.url)
      ensures port in urls && port in errors
      ensures urls == old(urls)[port := urls[port]] && errors == old(errors)[port := errors[port]]
      ensures processes == old(processes) && killed == old(killed) && settings.writable == old(settings.writable)
    {
      Poll(port, l, k);
      if urls[port] != "" {
        ghost var t1 := tunnels;
        AdoptUrl(port);
        MapUpdateTwice(old(tunnels), port, old(tunnels)[port].(tunnelUrl := urls[port]), tunnels[port]);
        ActiveTunnelsLastWriteWins(old(settings.file), settings.writable, ValuesByKey(t1), ValuesByKey(tunnels));
        return Some(GotUrl(urls[port]));
      }
      if errors[port] != "" {
        return Some(WaitFailed(CloudflaredError(errors[port])));
      }
      if ExitedBy(l, k) {
        return Some(WaitFailed(ExitedWithCode(l.exitCode)));
      }
      MapUpdateSame(old(urls), port);
      MapUpdateSame(old(errors), port);
      return None;
    }

    /** The URL found by the poll loop is written to the record and saved. */
    method AdoptUrl(port: int)
      requires Valid() && port in tunnels && port in urls
      modifies this, settings
      ensures Valid()
      ensures urls == old(urls) && errors == old(errors)
      ensures tunnels == old(tunnels)[port := old(tunnels)[port].(tunnelUrl := urls[port])]
      ensures settings.file == WithActiveTunnels(old(settings.file), settings.writable, ValuesByKey(tunnels))
      ensures processes == old(processes) && killed == old(killed) && settings.writable == old(settings.writable)
    {
      tunnels := tunnels[port := tunnels[port].(tunnelUrl := urls[port])];
      SaveActiveTunnels();
    }

    /** `StartCloudflaredAsync`: locate the binary, start the process,
        register its handle, take the output of the first second and check
        that it is still running. */
    method StartCloudflared(port: int, fs: FileSystem, l: Launch) returns (r: Result<int, TunnelError>)
      requires Valid()
      modifies this, settings
      ensures Valid()
      ensures r.Success? <==> Launches(fs, l) && !l.exitedAtStartup
      ensures r.Success? ==> l.Launched? && r.value == l.pid
      ensures r.Failure? ==> r.error == (if CloudflaredPath(fs).None? then NotInstalled
                                         else if l.LaunchFailed? then LaunchError(l.message)
                                         else ExitedWithCode(l.exitCode))
      ensures processes == if Launches(fs, l) then old(processes)[port := l.pid] else old(processes)
      ensures urls == UrlsAfter(old(urls), port, StartupLines(fs, l))
      ensures errors == ErrorsAfter(old(errors), port, StartupLines(fs, l))
      ensures tunnels == TunnelsAfter(old(tunnels), port, StartupLines(fs, l))
      ensures settings.file == if SavesAfter(old(tunnels), port, StartupLines(fs, l))
        then WithActiveTunnels(old(settings.file), settings.writable, ValuesByKey(tunnels)) else old(settings.file)
      ensures killed == old(killed) && settings.writable == old(settings.writable)
    {
      if CloudflaredPath(fs).None? {
        return Failure(NotInstalled);
      }
      match l {
        case LaunchFailed(m) =>
          return Failure(LaunchError(m));
        case Launched(pid, startup, exited, code, _, _) =>
          processes := processes[port := pid];
          FeedLines(port, startup);
          if exited {
            return Failure(ExitedWithCode(code));
          }
          return Success(pid);
      }
    }

    /** The part `CreateTunnelAsync` and `RestartTunnelAsync` share, for a
        "Starting" record already saved over the file `f0`: start cloudflared,
        mark the record "Active" with the process id, reset the pending
        values and wait. On failure the saved list still holds the record as
        it was before it became "Active". */
    method StartAndWait(port: int, fs: FileSystem, l: Launch, ghost f0: StoredFile) returns (r: Result<string, TunnelError>)
      requires Valid() && port in tunnels
      requires settings.file == WithActiveTunnels(f0, settings.writable, ValuesByKey(tunnels))
      modifies this, settings
      ensures Valid()
      ensures r == StartOutcome(fs, l)
      ensures tunnels == old(tunnels)[port := StartedRecord(old(tunnels)[port], fs, l)]
      ensures settings.file ==
        WithActiveTunnels(f0, settings.writable, ValuesByKey(old(tunnels)[port := SavedRecord(old(tunnels)[port], fs, l)]))
      ensures processes == if Launches(fs, l) then old(processes)[port := l.pid] else old(processes)
      ensures r.Success? ==> port in urls && urls[port] == r.value
      ensures urls - {port} == old(urls) - {port} && errors - {port} == old(errors) - {port}
      ensures killed == old(killed) && settings.writable == old(settings.writable)
    {
      ghost var t0, u0, e0 := tunnels, urls, errors;
      ghost var seen := WithStartupUrl(t0[port], StartupLines(fs, l));
      var started := StartCloudflared(port, fs, l);
      TunnelsAfterAt(t0, port, StartupLines(fs, l));
      ActiveTunnelsLastWriteWins(f0, settings.writable, ValuesByKey(t0), ValuesByKey(tunnels));
      OthersAfter(u0, e0, port, StartupLines(fs, l));
      if started.Failure? {
        return Failure(started.error);
      }
      ghost var t1, f1 := tunnels, settings.file;
      var outcome := ActivateAndWait(port, started.value, l);
      if outcome.GotUrl? {
        MapUpdateTwice(t0, port, seen, tunnels[port]);
        ActiveTunnelsLastWriteWins(f0, settings.writable, ValuesByKey(t1), ValuesByKey(tunnels));
        return Success(outcome.url);
      }
      MapUpdateTwice(t0, port, seen, tunnels[port]);
      return Failure(outcome.error);
    }

    /** The second half of the start: the record becomes "Active" with the
        process id, the pending values are reset and the URL awaited. */
    method ActivateAndWait(port: int, pid: int, l: Launch) returns (outcome: WaitOutcome)
      requires Valid() && l.Launched? && port in tunnels
      modifies this, settings
      ensures Valid()
      ensures outcome == Wait(l)
      ensures outcome.GotUrl? ==> (tunnels ==
          old(tunnels)[port := old(tunnels)[port].(processId := pid, status := "Active", tunnelUrl := outcome.url)]
        && settings.file == WithActiveTunnels(old(settings.file), settings.writable, ValuesByKey(tunnels))
        && port in urls && urls[port] == outcome.url)
      ensures outcome.WaitFailed? ==> (tunnels == old(tunnels)[port := old(tunnels)[port].(processId := pid, status := "Active")]
        && settings.file == old(settings.file))
      ensures urls - {port} == old(urls) - {port} && errors - {port} == old(errors) - {port}
      ensures processes == old(processes) && killed == old(killed) && settings.writable == old(settings.writable)
    {
      tunnels := tunnels[port := tunnels[port].(processId := pid, status := "Active")];
      urls := urls[port := ""];
      errors := errors[port := ""];
      ghost var t1, u1, e1 := tunnels, urls, errors;
      outcome := WaitForUrl(port, l);
      MapUpdateTwice(old(urls), port, "", urls[port]);
      MapUpdateTwice(old(errors), port, "", errors[port]);
      MapUpdateOthers(old(urls), port, urls[port]);
      MapUpdateOthers(old(errors), port, errors[port]);
      if outcome.GotUrl? {
        MapUpdateTwice(old(tunnels), port, t1[port], tunnels[port]);
      }
    }

    /** The opening `CreateTunnelAsync` and `RestartTunnelAsync` share: the
        "Starting" record `rec` is inserted under its port and saved, then
        cloudflared is started and the URL awaited. */
    method Open(port: int, rec: CloudflareTunnel, fs: FileSystem, l: Launch) returns (r: Result<string, TunnelError>)
      requires Valid() && rec.port == port
      modifies this, settings
      ensures Valid()
      ensures r == StartOutcome(fs, l)
      ensures tunnels == old(tunnels)[port := StartedRecord(rec, fs, l)]
      ensures settings.file ==
        WithActiveTunnels(old(settings.file), settings.writable, ValuesByKey(old(tunnels)[port := SavedRecord(rec, fs, l)]))
      ensures processes == if Launches(fs, l) then old(processes)[port := l.pid] else old(processes)
      ensures r.Success? ==> port in urls && urls[port] == r.value
      ensures urls - {port} == old(urls) - {port} && errors - {port} == old(errors) - {port}
      ensures killed == old(killed) && settings.writable == old(settings.writable)
    {
      tunnels := tunnels[port := rec];
      SaveActiveTunnels();
      r := StartAndWait(port, fs, l, old(settings.file));
      MapUpdateTwice(old(tunnels), port, rec, StartedRecord(rec, fs, l));
      MapUpdateTwice(old(tunnels), port, rec, SavedRecord(rec, fs, l));
    }

    /** `CreateTunnelAsync`. */
    method CreateTunnel(port: int, tunnelName: Option<string>, fs: FileSystem, l: Launch, now: int)
      returns (r: Result<CloudflareTunnel, TunnelError>)
      requires Valid()
      modifies this, settings
      ensures Valid()
      ensures port in old(tunnels) ==> (r == Failure(AlreadyExists(port))
        && tunnels == old(tunnels) && processes == old(processes) && urls == old(urls) && errors == old(errors)
        && settings.file == old(settings.file))
      ensures port !in old(tunnels) ==> (r.Success? <==> StartOutcome(fs, l).Success?)
      ensures port !in old(tunnels) && r.Failure? ==> r.error == StartOutcome(fs, l).error && tunnels == old(tunnels)
      ensures r.Success? ==> (l.Launched?
        && r.value == ActiveRecord(port, NameFor(port, tunnelName), now, l.pid, StartOutcome(fs, l).value)
        && tunnels == old(tunnels)[port := r.value] && port in urls && urls[port] == r.value.tunnelUrl)
      ensures port !in old(tunnels) ==> (processes == (if Launches(fs, l) then old(processes)[port := l.pid] else old(processes))
        && settings.file == WithActiveTunnels(old(settings.file), settings.writable, ValuesByKey(tunnels)))
      ensures urls - {port} == old(urls) - {port} && errors - {port} == old(errors) - {port}
      ensures killed == old(killed) && settings.writable == old(settings.writable)
    {
      if port in tunnels {
        return Failure(AlreadyExists(port));
      }
      var name := NameFor(port, tunnelName);
      var started := Open(port, StartingRecord(port, name, now), fs, l);
      StartedRecordSpec(StartingRecord(port, name, now), fs, l);
      if started.Success? {
        return Success(tunnels[port]);
      }
      MapRemoveAdded(old(tunnels), port, tunnels[port]);
      DiscardFailed(port, started.error);
      return Failure(started.error);
    }

    /** The catch block of `CreateTunnelAsync`: the record is marked "Failed"
        and dropped, and the registry saved. */
    method DiscardFailed(port: int, e: TunnelError)
      requires Valid() && port in tunnels
      modifies this, settings
      ensures Valid()
      ensures tunnels == old(tunnels) - {port}
      ensures settings.file == WithActiveTunnels(old(settings.file), settings.writable, ValuesByKey(tunnels))
      ensures processes == old(processes) && urls == old(urls) && errors == old(errors)
      ensures killed == old(killed) && settings.writable == old(settings.writable)
    {
      tunnels := tunnels[port := tunnels[port].(status := "Failed", lastError := Some(Message(e)))];
      tunnels := tunnels - {port};
      SaveActiveTunnels();
    }

    /** `StopTunnel`: whatever `Kill` does, the port leaves all four
        dictionaries and the registry is saved. */
    method StopTunnel(port: int) returns (err: Option<TunnelError>)
      requires Valid()
      modifies this, settings
      ensures Valid()
      ensures port !in old(tunnels) ==> (err == Some(NotFound(port))
        && tunnels == old(tunnels) && processes == old(processes) && urls == old(urls) && errors == old(errors)
        && killed == old(killed) && settings.file == old(settings.file))
      ensures port in old(tunnels) ==> (err == None
        && tunnels == old(tunnels) - {port} && processes == old(processes) - {port}
        && urls == old(urls) - {port} && errors == old(errors) - {port}
        && killed == old(killed) + KillOf(old(processes), port)
        && settings.file == WithActiveTunnels(old(settings.file), settings.writable, ValuesByKey(tunnels)))
      ensures settings.writable == old(settings.writable)
    {
      if port !in tunnels {
        return Some(NotFound(port));
      }
      if port in processes {
        killed := killed + [processes[port]];
      }
      processes := processes - {port};
      urls := urls - {port};
      errors := errors - {port};
      tunnels := tunnels - {port};
      assert tunnels == old(tunnels) - {port} && processes == old(processes) - {port};
      assert urls == old(urls) - {port} && errors == old(errors) - {port};
      assert killed == old(killed) + KillOf(old(processes), port);
      SaveActiveTunnels();
      return None;
    }

    /** The four dictionaries and the kills, as one value. */
    function State(): Handles
      reads this
    {
      Handles(tunnels, processes, urls, errors, killed)
    }

    /** One turn of the loop of `StopAllTunnels`: the next port of the
        snapshot `ports`, taken from the registry `h0`, is stopped. */
    method StopNext(ports: seq<int>, i: int, ghost h0: Handles, ghost f0: StoredFile)
      requires Valid() && 0 <= i < |ports| && Distinct(ports) && Elements(ports) <= h0.tunnels.Keys
      requires State() == StoppedAll(h0, ports[..i])
      requires settings.file == if i == 0 then f0 else WithActiveTunnels(f0, settings.writable, ValuesByKey(tunnels))
      modifies this, settings
      ensures Valid()
      ensures State() == StoppedAll(h0, ports[..i + 1])
      ensures settings.file == WithActiveTunnels(f0, settings.writable, ValuesByKey(tunnels))
      ensures settings.writable == old(settings.writable)
    {
      var p := ports[i];
      assert Distinct(ports[..i]);
      StoppedAllSpec(h0, ports[..i]);
      assert p !in Elements(ports[..i]);
      assert p in tunnels;
      var err := StopTunnel(p);
      assert State() == Stopped(old(State()), p);
      StoppedAllPrefix(h0, ports, i);
      ActiveTunnelsLastWriteWins(f0, settings.writable, ValuesByKey(old(tunnels)), ValuesByKey(tunnels));
    }

    /** `StopAllTunnels`: every port of the snapshot is stopped, in
        ascending order. */
    method StopAllTunnels()
      requires Valid()
      modifies this, settings
      ensures Valid()
      ensures State() == StoppedAll(old(State()), SortedKeys(old(tunnels).Keys))
      ensures tunnels == map[]
      ensures settings.file == if old(tunnels) == map[] then old(settings.file)
        else WithActiveTunnels(old(settings.file), settings.writable, [])
      ensures settings.writable == old(settings.writable)
    {
      if tunnels == map[] {
        return;
      }
      var ports := SortedKeys(tunnels.Keys);
      SortedKeysElements(tunnels.Keys);
      assert Distinct(ports);
      StopEach(ports);
      StopAllSpec(old(State()));
      assert ValuesByKey(tunnels) == [];
    }

    /** The loop of `StopAllTunnels` over the snapshot `ports`. */
    method StopEach(ports: seq<int>)
      requires Valid() && |ports| > 0 && Distinct(ports) && Elements(ports) <= tunnels.Keys
      modifies this, settings
      ensures Valid()
      ensures State() == StoppedAll(old(State()), ports)
      ensures settings.file == WithActiveTunnels(old(settings.file), settings.writable, ValuesByKey(tunnels))
      ensures settings.writable == old(settings.writable)
    {
      assert ports[..0] == [];
      StopNext(ports, 0, old(State()), old(settings.file));
      var i := 1;
      while i < |ports|
        invariant 1 <= i <= |ports|
        invariant Valid()
        invariant State() == StoppedAll(old(State()), ports[..i])
        invariant settings.file == WithActiveTunnels(old(settings.file), settings.writable, ValuesByKey(tunnels))
        invariant settings.writable == old(settings.writable)
      {
        StopNext(ports, i, old(State()), old(settings.file));
        i := i + 1;
      }
      TakeAll(ports);
    }
    /** `RestartTunnelAsync`: the record is marked "Stopping" and its port
        stopped as by `StopTunnel`; then a fresh unnamed "Starting" record is
        opened in its place. `former` is the old record, no longer in the
        registry: a failure marks it, and not the new record, "Error" with
        the message, and the new record stays. */
    method RestartTunnel(port: int, fs: FileSystem, l: Launch, now: int)
      returns (r: Result<CloudflareTunnel, TunnelError>, former: Option<CloudflareTunnel>)
      requires Valid()
      modifies this, settings
      ensures Valid()
      ensures port !in old(tunnels) ==> (r == Failure(NotFound(port)) && former == None
        && State() == old(State()) && settings.file == old(settings.file))
      ensures port in old(tunnels) ==> (r.Success? <==> StartOutcome(fs, l).Success?)
      ensures port in old(tunnels) && r.Failure? ==> r.error == StartOutcome(fs, l).error
      ensures r.Success? ==> (l.Launched?
        && r.value == RestartRecord(port, now).(processId := l.pid, status := "Active", tunnelUrl := StartOutcome(fs, l).value)
        && port in urls && urls[port] == r.value.tunnelUrl)
      ensures port in old(tunnels) ==> (former.Some? && former.value ==
        if r.Success? then old(tunnels)[port].(status := "Stopping")
        else old(tunnels)[port].(status := "Error", lastError := Some(Message(r.error))))
      ensures port in old(tunnels) ==> (tunnels == old(tunnels)[port := StartedRecord(RestartRecord(port, now), fs, l)]
        && settings.file == WithActiveTunnels(old(settings.file), settings.writable,
             ValuesByKey(old(tunnels)[port := SavedRecord(RestartRecord(port, now), fs, l)]))
        && processes == (if Launches(fs, l) then (old(processes) - {port})[port := l.pid] else old(processes) - {port})
        && killed == old(killed) + KillOf(old(processes), port))
      ensures urls - {port} == old(urls) - {port} && errors - {port} == old(errors) - {port}
      ensures settings.writable == old(settings.writable)
    {
      if port !in tunnels {
        return Failure(NotFound(port)), None;
      }
      var stopping := tunnels[port].(status := "Stopping");
      var stopped := StopTunnel(port);
      ghost var t1 := tunnels;
      var rec := RestartRecord(port, now);
      var started := Open(port, rec, fs, l);
      StartedRecordSpec(rec, fs, l);
      MapRemoveThenSet(old(tunnels), port, StartedRecord(rec, fs, l));
      MapRemoveThenSet(old(tunnels), port, SavedRecord(rec, fs, l));
      ActiveTunnelsLastWriteWins(old(settings.file), settings.writable, ValuesByKey(t1),
        ValuesByKey(t1[port := SavedRecord(rec, fs, l)]));
      if started.Success? {
        return Success(tunnels[port]), Some(stopping);
      }
      return Failure(started.error), Some(stopping.(status := "Error", lastError := Some(Message(started.error))));
    }

    /** `GetProcessForPort`: a live tracked handle whose command line names
        the port, else such a cloudflared process. */
    method GetProcessForPort(os: Os, port: int) returns (r: Option<int>)
      ensures r == ProcessForPort(os, processes, port)
    {
      r := FindCandidate(os, TrackedPids(processes), port, true);
      if r.None? {
        r := FindCandidate(os, os.cloudflared, port, false);
      }
    }

    /** `InitializeAsync` after the orphan cleanup: the saved records are
        restored in order, each "Active" with the process found for its
        port, which becomes tracked, or "Inactive" without one. */
    method Initialize(os: Os)
      requires Valid()
      modifies this
      ensures Valid()
      ensures Registry(tunnels, processes) == Restored(Registry(old(tunnels), old(processes)), os, settings.GetActiveTunnels())
      ensures urls == old(urls) && errors == old(errors) && killed == old(killed)
    {
      var saved := settings.GetActiveTunnels();
      var i := 0;
      while i < |saved|
        invariant 0 <= i <= |saved|
        invariant Valid()
        invariant Registry(tunnels, processes) == Restored(Registry(old(tunnels), old(processes)), os, saved[..i])
        invariant urls == old(urls) && errors == old(errors) && killed == old(killed)
      {
        RestoredSnoc(Registry(old(tunnels), old(processes)), os, saved, i);
        RestoreNext(os, saved[i]);
        i := i + 1;
      }
      TakeAll(saved);
    }

    /** One turn of the loop of `InitializeAsync`. */
    method RestoreNext(os: Os, s: CloudflareTunnel)
      requires Valid()
      modifies this
      ensures Valid()
      ensures Registry(tunnels, processes) == RestoreOne(old(Registry(tunnels, processes)), os, s)
      ensures urls == old(urls) && errors == old(errors) && killed == old(killed)
    {
      var found := GetProcessForPort(os, s.port);
      tunnels := tunnels[s.port := RestoredRecord(os, s, found)];
      if found.Some? {
        processes := processes[s.port := found.value];
      }
    }

    /** `UpdateTunnelStatus`: every record, in ascending port order, is
        refreshed against its tracked process; nothing is saved. */
    method UpdateTunnelStatus(os: Os, now: int)
      requires Valid()
      modifies this
      ensures Valid()
      ensures tunnels == RefreshedAll(old(tunnels), processes, os, now)
      ensures processes == old(processes) && urls == old(urls) && errors == old(errors) && killed == old(killed)
    {
      var ports := KeyList(tunnels.Keys);
      var i := 0;
      RefreshStart(old(tunnels), ports, processes, os, now);
      while i < |ports|
        invariant 0 <= i <= |ports|
        invariant tunnels == RefreshedOn(old(tunnels), Elements(ports[..i]), processes, os, now)
        invariant processes == old(processes) && urls == old(urls) && errors == old(errors) && killed == old(killed)
      {
        RefreshStep(old(tunnels), Elements(ports[..i]), ports[i], processes, os, now);
        ElementsSnoc(ports, i);
        RefreshPort(ports[i], os, now);
        i := i + 1;
      }
      RefreshDone(old(tunnels), ports, processes, os, now);
    }
 
    /** One turn of the loop of `UpdateTunnelStatus`. */
    method RefreshPort(p: int, os: Os, now: int)
      requires p in tunnels
      modifies this
      ensures tunnels == old(tunnels)[p := Refreshed(old(tunnels)[p], processes, os, now)]
      ensures processes == old(processes) && urls == old(urls) && errors == old(errors) && killed == old(killed)
    {
      tunnels := tunnels[p := Refreshed(tunnels[p], processes, os, now)];
    }
  }
}
