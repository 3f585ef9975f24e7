/** The Blazor port scanner: a list of listening ports rebuilt on each
    refresh (one entry per port, the first listener winning), the owning
    process found through `netstat -ano`, favourite and watched sets kept in
    memory and persisted through the settings store. The host's listeners,
    netstat output and processes are one `Host` value per refresh. */
module PortScanner {
  import opened Common
  import opened Strings
  import opened Models
  import opened Ports
  import opened Settings

  /** What the host shows one refresh. `listeners` is `None` when the
      listener query throws; `netstat` is `None` when netstat cannot be
      started or its output cannot be read; `processes` maps an id to the
      process `GetProcessById` returns (an absent id throws). */
  datatype Host = Host(
    listeners: Option<seq<Listener>>,
    netstat: Option<string>,
    processes: map<int, ProcessInfo>,
    userName: string)

  // ---------------------------------------------------------------------
  // netstat parsing
  // ---------------------------------------------------------------------

  const LineSeparators: set<char> := {'\r', '\n'}

  /** The line holds one of the four local-address forms followed by the
      port, as a substring: a line for a longer port whose digits start with
      those of `port` (8080 for 80) matches `port` too. */
  predicate MentionsPort(line: string, port: int) {
    var p := IntToString(port);
    Contains(line, "127.0.0.1:" + p) || Contains(line, "0.0.0.0:" + p)
    || Contains(line, "[::]:" + p) || Contains(line, "[::1]:" + p)
  }

  /** The PID a matching line yields: its fifth space-separated token, when
      there are at least five and the fifth parses as a 32-bit integer. */
  function PidOfLine(line: string, port: int): Option<int> {
    if !MentionsPort(line, port) then None
    else
      var parts := Fields(line, {' '});
      if |parts| >= 5 then TryParseInt32(parts[4]) else None
  }

  /** A line for the port `10 * port + d` is a line for `port`, with the same PID. */
  lemma LongerPortMentioned(line: string, port: nat, d: nat)
    requires port > 0 && d < 10 && MentionsPort(line, 10 * port + d)
    ensures MentionsPort(line, port)
    ensures PidOfLine(line, port) == PidOfLine(line, 10 * port + d)
  {
    AppendDigitRendering(port, d);
    var p, c := IntToString(port), [DigitChar(d)];
    assert IntToString(10 * port + d) == p + c;
    forall x: string | Contains(line, x + (p + c)) ensures Contains(line, x + p) {
      assert x + (p + c) == (x + p) + c;
      ContainsShorter(line, x + p, c);
    }
  }

  /** A netstat line for port 8080 yields its PID for port 80 as well. */
  lemma Line8080MentionsPort80(line: string)
    requires MentionsPort(line, 8080)
    ensures MentionsPort(line, 80) && PidOfLine(line, 80) == PidOfLine(line, 8080)
  {
    LongerPortMentioned(line, 808, 0);
    LongerPortMentioned(line, 80, 8);
  }

  /** The PID of the first line that yields one. */
  function FirstPid(lines: seq<string>, port: int): (r: Option<int>)
    ensures r.Some? ==> exists i :: 0 <= i < |lines| && PidOfLine(lines[i], port) == r
                          && forall j :: 0 <= j < i ==> PidOfLine(lines[j], port).None?
    ensures r.None? ==> forall i :: 0 <= i < |lines| ==> PidOfLine(lines[i], port).None?
  {
    FirstSome(lines, (line: string) => PidOfLine(line, port))
  }

  /** The scan of netstat's output in `GetProcessForPort`. */
  method NetstatPid(output: string, port: int) returns (pid: Option<int>)
    ensures pid == FirstPid(Fields(output, LineSeparators), port)
  {
    var lines := Fields(output, LineSeparators);
    var i := 0;
    while i < |lines|
      invariant 0 <= i <= |lines|
      invariant FirstPid(lines[i..], port) == FirstPid(lines, port)
    {
      var line := lines[i];
      if MentionsPort(line, port) {
        var parts := Fields(line, {' '});
        if |parts| >= 5 {
          var parsed := TryParseInt32(parts[4]);
          if parsed.Some? {
            return parsed;
          }
        }
      }
      assert lines[i..][1..] == lines[i + 1..];
      i := i + 1;
    }
    return None;
  }

  /** `GetProcessForPort`: the process of the first PID netstat yields, with
      its id; every failure (netstat unavailable, no line, unknown id)
      yields none. */
  function ProcessForPort(host: Host, port: int): Option<(int, ProcessInfo)> {
    match host.netstat
    case None => None
    case Some(out) =>
      match FirstPid(Fields(out, LineSeparators), port)
      case None => None
      case Some(pid) => if pid in host.processes then Some((pid, host.processes[pid])) else None
  }

  method GetProcessForPort(host: Host, port: int) returns (r: Option<(int, ProcessInfo)>)
    ensures r == ProcessForPort(host, port)
  {
    if host.netstat.None? {
      return None;
    }
    var pid := NetstatPid(host.netstat.value, port);
    if pid.Some? && pid.value in host.processes {
      return Some((pid.value, host.processes[pid.value]));
    }
    return None;
  }

  // ---------------------------------------------------------------------
  // The refresh, as a specification
  // ---------------------------------------------------------------------

  /** The entry a listener yields, or `None` when reading the owning
      process's name throws (which abandons the refresh). */
  function Entry(host: Host, l: Listener, favorites: set<int>, watched: set<int>): (e: Option<PortInfo>)
    ensures e.Some? ==> (e.value.port == l.port && e.value.isActive
      && e.value.address == l.address.GetOr("127.0.0.1") && e.value.user == host.userName
      && (e.value.isFavorite <==> l.port in favorites) && (e.value.isWatched <==> l.port in watched))
    ensures e.Some? && ProcessForPort(host, l.port).Some? ==>
      e.value.pid == ProcessForPort(host, l.port).value.0
      && Some(e.value.processName) == ProcessForPort(host, l.port).value.1.name
    ensures e.Some? && ProcessForPort(host, l.port).None? ==> e.value.pid == 0 && e.value.processName == "Unknown"
    ensures e.None? <==> ProcessForPort(host, l.port).Some? && ProcessForPort(host, l.port).value.1.name.None?
  {
    var proc := ProcessForPort(host, l.port);
    if proc.Some? && proc.value.1.name.None? then None
    else
      Some(PortInfo(
        port := l.port,
        processName := if proc.Some? then proc.value.1.name.value else "Unknown",
        pid := if proc.Some? then proc.value.0 else 0,
        address := l.address.GetOr("127.0.0.1"),
        user := host.userName,
        command := if proc.Some? then CommandOf(proc.value.1) else "",
        isActive := true,
        isFavorite := l.port in favorites,
        isWatched := l.port in watched,
        processType := None))
  }

  /** The new list after the first `n` listeners, or `None` once the scan
      has been abandoned. */
  function ScanPrefix(host: Host, ls: seq<Listener>, n: nat, favorites: set<int>, watched: set<int>): Option<seq<PortInfo>>
    requires n <= |ls|
  {
    if n == 0 then Some([])
    else
      match ScanPrefix(host, ls, n - 1, favorites, watched)
      case None => None
      case Some(acc) =>
        var l := ls[n - 1];
        if l.port <= 0 || l.port in PortsOf(acc) then Some(acc)
        else
          match Entry(host, l, favorites, watched)
          case None => None
          case Some(e) => Some(acc + [e])
  }

  /** The list a complete refresh produces, or `None` when it throws. */
  function Scan(host: Host, favorites: set<int>, watched: set<int>): Option<seq<PortInfo>> {
    match host.listeners
    case None => None
    case Some(ls) => ScanPrefix(host, ls, |ls|, favorites, watched)
  }

  /** The positive ports among the first `n` listeners. */
  function PositivePorts(ls: seq<Listener>, n: nat): set<int>
    requires n <= |ls|
  {
    set i | 0 <= i < n && ls[i].port > 0 :: ls[i].port
  }

  /** What the list after the first `n` listeners holds: each positive
      listener port exactly once, and for each port the entry of its first
      listener in listener order, with the favourite and watched flags
      equal to membership. */
  predicate Scanned(host: Host, ls: seq<Listener>, n: nat, acc: seq<PortInfo>, favorites: set<int>, watched: set<int>)
    requires n <= |ls|
  {
    UniquePorts(acc) && FlagsMatch(acc, favorites, watched) &&
    PortsOf(acc) == PositivePorts(ls, n) &&
    forall k :: 0 <= k < |acc| ==>
      acc[k].port > 0 && FirstWithKey(ls, ListenerPort, acc[k].port) < n &&
      Entry(host, ls[FirstWithKey(ls, ListenerPort, acc[k].port)], favorites, watched) == Some(acc[k])
  }

  /** A listener without a port, or on a port already listed, adds nothing. */
  lemma ScanSkipStep(ls: seq<Listener>, n: nat, acc: seq<PortInfo>)
    requires 0 < n <= |ls| && PortsOf(acc) == PositivePorts(ls, n - 1)
    requires ls[n - 1].port <= 0 || ls[n - 1].port in PortsOf(acc)
    ensures PortsOf(acc) == PositivePorts(ls, n)
  {
    forall x | x in PositivePorts(ls, n) ensures x in PositivePorts(ls, n - 1) {
      var i :| 0 <= i < n && ls[i].port > 0 && ls[i].port == x;
      if i < n - 1 {
        assert ls[i].port in PositivePorts(ls, n - 1);
      }
    }
  }

  /** A listener on a new positive port appends its entry. */
  lemma ScanAddStep(host: Host, ls: seq<Listener>, n: nat, acc: seq<PortInfo>, e: PortInfo, favorites: set<int>, watched: set<int>)
    requires 0 < n <= |ls| && Scanned(host, ls, n - 1, acc, favorites, watched)
    requires ls[n - 1].port > 0 && ls[n - 1].port !in PortsOf(acc)
    requires Entry(host, ls[n - 1], favorites, watched) == Some(e)
    ensures Scanned(host, ls, n, acc + [e], favorites, watched)
  {
    var l := ls[n - 1];
    var r := acc + [e];
    KeySetConcat(acc, [e], PortOf);
    KeySetSingleton(e, PortOf);
    assert PositivePorts(ls, n) == PositivePorts(ls, n - 1) + {l.port};
    forall j | 0 <= j < n - 1 ensures ls[j].port != l.port {
      if ls[j].port > 0 {
        assert ls[j].port in PositivePorts(ls, n - 1);
      }
    }
    assert FirstWithKey(ls, ListenerPort, l.port) == n - 1;
    forall k | 0 <= k < |r|
      ensures r[k].port > 0 && FirstWithKey(ls, ListenerPort, r[k].port) < n
      ensures Entry(host, ls[FirstWithKey(ls, ListenerPort, r[k].port)], favorites, watched) == Some(r[k])
    {
      if k < |acc| {
        assert r[k] == acc[k];
      }
    }
    forall i, j | 0 <= i < j < |r| ensures r[i].port != r[j].port {
      if j == |acc| {
        assert r[i].port in PortsOf(acc);
      }
    }
  }

  /** What a refresh of the first `n` listeners produces, when it is not
      abandoned. */
  lemma {:induction false} ScanPrefixSpec(host: Host, ls: seq<Listener>, n: nat, favorites: set<int>, watched: set<int>)
    requires n <= |ls|
    ensures ScanPrefix(host, ls, n, favorites, watched).Some? ==>
      Scanned(host, ls, n, ScanPrefix(host, ls, n, favorites, watched).value, favorites, watched)
    decreases n
  {
    if n > 0 {
      ScanPrefixSpec(host, ls, n - 1, favorites, watched);
      var prev := ScanPrefix(host, ls, n - 1, favorites, watched);
      if prev.Some? {
        var acc := prev.value;
        var l := ls[n - 1];
        if l.port <= 0 || l.port in PortsOf(acc) {
          ScanSkipStep(ls, n, acc);
        } else if Entry(host, l, favorites, watched).Some? {
          ScanAddStep(host, ls, n, acc, Entry(host, l, favorites, watched).value, favorites, watched);
        }
      }
    }
  }

  /** Once abandoned, the scan stays abandoned. */
  lemma {:induction false} ScanPrefixAbandoned(host: Host, ls: seq<Listener>, m: nat, n: nat, favorites: set<int>, watched: set<int>)
    requires m <= n <= |ls|
    requires ScanPrefix(host, ls, m, favorites, watched).None?
    ensures ScanPrefix(host, ls, n, favorites, watched).None?
    decreases n - m
  {
    if m < n {
      ScanPrefixAbandoned(host, ls, m + 1, n, favorites, watched);
    }
  }

  /** The refresh result in terms of the host: every listed port is positive
      and appears once, and exactly the positive listener ports appear. */
  lemma ScanSpec(host: Host, favorites: set<int>, watched: set<int>)
    requires host.listeners.Some? && Scan(host, favorites, watched).Some?
    ensures var acc := Scan(host, favorites, watched).value; var ls := host.listeners.value;
      UniquePorts(acc) && FlagsMatch(acc, favorites, watched) &&
      (forall k :: 0 <= k < |acc| ==> acc[k].port > 0 && acc[k].isActive) &&
      (forall i :: 0 <= i < |ls| && ls[i].port > 0 ==> ls[i].port in PortsOf(acc)) &&
      forall k :: 0 <= k < |acc| ==> (FirstWithKey(ls, ListenerPort, acc[k].port) < |ls| &&
        Entry(host, ls[FirstWithKey(ls, ListenerPort, acc[k].port)], favorites, watched) == Some(acc[k]))
  {
    var ls := host.listeners.value;
    ScanPrefixSpec(host, ls, |ls|, favorites, watched);
    var acc := Scan(host, favorites, watched).value;
    forall k | 0 <= k < |acc| ensures acc[k].isActive {
      var i := FirstWithKey(ls, ListenerPort, acc[k].port);
      assert Entry(host, ls[i], favorites, watched) == Some(acc[k]);
    }
    forall i | 0 <= i < |ls| && ls[i].port > 0 ensures ls[i].port in PortsOf(acc) {
      assert ls[i].port in PositivePorts(ls, |ls|);
    }
  }

  /** The ports of a saved watch list. */
  function WatchedSet(ws: seq<WatchedPort>): set<int> {
    KeySet(ws, WatchPort)
  }

  function WatchPort(w: WatchedPort): int {
    w.port
  }

  /** `watchedPorts.RemoveAll(w => w.Port == port)`. */
  function WithoutPort(ws: seq<WatchedPort>, port: int): (r: seq<WatchedPort>)
    ensures |r| <= |ws|
    ensures forall w :: w in r <==> w in ws && w.port != port
    ensures WatchedSet(r) == WatchedSet(ws) - {port}
  {
    if ws == [] then []
    else
      var rest := WithoutPort(ws[1..], port);
      assert ws == [ws[0]] + ws[1..];
      KeySetConcat([ws[0]], ws[1..], WatchPort);
      KeySetSingleton(ws[0], WatchPort);
      if ws[0].port == port then rest
      else
        KeySetConcat([ws[0]], rest, WatchPort);
        [ws[0]] + rest
  }

  // ---------------------------------------------------------------------
  // The service
  // ---------------------------------------------------------------------

  class PortScannerService {
    const ports: MutableList<PortInfo>
    var favorites: set<int>
    var watched: set<int>
    const settings: SettingsStore

    /** The in-memory sets agree with what the settings store reads back. */
    predicate Persisted()
      reads this, settings
    {
      settings.GetFavorites() == favorites && WatchedSet(settings.GetWatchedPorts()) == watched
    }

    constructor (settings: SettingsStore)
      ensures this.settings == settings && fresh(ports) && ports.items == []
      ensures favorites == settings.GetFavorites() && watched == WatchedSet(settings.GetWatchedPorts())
      ensures Persisted()
    {
      this.settings := settings;
      ports := new MutableList<PortInfo>([]);
      favorites := {};
      watched := {};
      new;
      LoadSettings();
    }

    /** Marks every saved favourite and every saved watched port. */
    method LoadSettings()
      modifies this
      ensures favorites == old(favorites) + settings.GetFavorites()
      ensures watched == old(watched) + WatchedSet(settings.GetWatchedPorts())
    {
      var stored := settings.GetFavorites();
      var acc := favorites;
      var rest := stored;
      while rest != {}
        invariant rest <= stored
        invariant acc == old(favorites) + (stored - rest)
        invariant favorites == old(favorites) && watched == old(watched)
        decreases |rest|
      {
        NonEmptyHasElement(rest);
        var port :| port in rest;
        acc := acc + {port};
        rest := rest - {port};
      }
      favorites := acc;
      var ws := settings.GetWatchedPorts();
      var marked := watched;
      var j := 0;
      while j < |ws|
        invariant 0 <= j <= |ws|
        invariant marked == old(watched) + WatchedSet(ws[..j])
        invariant favorites == acc && watched == old(watched)
      {
        assert ws[..j + 1] == ws[..j] + [ws[j]];
        KeySetConcat(ws[..j], [ws[j]], WatchPort);
        KeySetSingleton(ws[j], WatchPort);
        marked := marked + {ws[j].port};
        j := j + 1;
      }
      assert ws[..j] == ws;
      watched := marked;
    }

    /** A copy of the list: a new object with the same entries. */
    method GetPorts() returns (r: MutableList<PortInfo>)
      ensures fresh(r) && r.items == ports.items
    {
      r := new MutableList<PortInfo>(ports.items);
    }

    /** Builds the new list aside and swaps it in only when the scan
        completes; an abandoned scan keeps the previous list. */
    method RefreshPorts(host: Host)
      modifies ports
      ensures Scan(host, favorites, watched).Some? ==> ports.items == Scan(host, favorites, watched).value
      ensures Scan(host, favorites, watched).None? ==> ports.items == old(ports.items)
    {
      if host.listeners.None? {
        return;
      }
      var ls := host.listeners.value;
      var newPorts: seq<PortInfo> := [];
      var processed: set<int> := {};
      var i := 0;
      while i < |ls|
        invariant 0 <= i <= |ls|
        invariant ScanPrefix(host, ls, i, favorites, watched) == Some(newPorts)
        invariant processed == PortsOf(newPorts)
        invariant ports.items == old(ports.items)
      {
        var l := ls[i];
        if l.port > 0 && l.port !in processed {
          var e := ScanListener(host, l);
          if e.None? {
            ScanPrefixAbandoned(host, ls, i + 1, |ls|, favorites, watched);
            return;
          }
          KeySetConcat(newPorts, [e.value], PortOf);
          KeySetSingleton(e.value, PortOf);
          newPorts := newPorts + [e.value];
          processed := processed + {l.port};
        }
        i := i + 1;
      }
      ports.items := newPorts;
    }

    /** The body of the refresh loop for one listener on a port not yet
        listed: its entry, or `None` when reading the process name throws. */
    method ScanListener(host: Host, l: Listener) returns (e: Option<PortInfo>)
      ensures e == Entry(host, l, favorites, watched)
    {
      var process := GetProcessForPort(host, l.port);
      var processName := "Unknown";
      var pid := 0;
      var command := "";
      if process.Some? {
        if process.value.1.name.None? {
          return None;
        }
        processName := process.value.1.name.value;
        pid := process.value.0;
        command := CommandOf(process.value.1);
      }
      e := Some(PortInfo(l.port, processName, pid, l.address.GetOr("127.0.0.1"), host.userName, command,
                         true, l.port in favorites, l.port in watched, None));
    }

    /** Removes the first entry for the port when its process was killed;
        `killOk` says whether the process was found and the kill did not
        throw. */
    method KillPort(port: int, killOk: bool)
      modifies ports
      ensures ports.items == Killed(old(ports.items), port, killOk)
    {
      var i := FirstIndexOfPort(ports.items, port);
      if i == |ports.items| {
        return;
      }
      if killOk {
        ports.items := ports.items[..i] + ports.items[i + 1..];
      }
    }

    method ToggleFavorite(port: int)
      modifies this, ports, settings
      ensures (ports.items, favorites) == FavoriteToggled(old(ports.items), old(favorites), port)
      ensures watched == old(watched) && settings.writable == old(settings.writable)
      ensures FirstIndexOfPort(old(ports.items), port) == |old(ports.items)| ==> settings.file == old(settings.file)
      ensures FirstIndexOfPort(old(ports.items), port) < |old(ports.items)| ==>
        settings.file == WithFavorites(old(settings.file), old(settings.writable), favorites)
      ensures old(Persisted()) && settings.writable ==> Persisted()
    {
      var i := FirstIndexOfPort(ports.items, port);
      if i == |ports.items| {
        return;
      }
      if port in favorites {
        favorites := favorites - {port};
        ports.items := ports.items[i := ports.items[i].(isFavorite := false)];
      } else {
        favorites := favorites + {port};
        ports.items := ports.items[i := ports.items[i].(isFavorite := true)];
      }
      settings.SaveFavorites(favorites);
      SaveFavoritesRoundTrip(old(settings.file), favorites);
    }

    /** `newId` stands for the Guid of the record added on a watch. */
    method ToggleWatch(port: int, newId: int)
      modifies this, ports, settings
      ensures (ports.items, watched) == WatchToggled(old(ports.items), old(watched), port)
      ensures favorites == old(favorites) && settings.writable == old(settings.writable)
      ensures FirstIndexOfPort(old(ports.items), port) == |old(ports.items)| ==> settings.file == old(settings.file)
      ensures FirstIndexOfPort(old(ports.items), port) < |old(ports.items)| && port in old(watched) ==>
        settings.file == WithWatchedPorts(old(settings.file), old(settings.writable),
                                          WithoutPort(WatchedPorts(old(settings.file)), port))
      ensures FirstIndexOfPort(old(ports.items), port) < |old(ports.items)| && port !in old(watched) ==>
        settings.file == WithWatchedPorts(old(settings.file), old(settings.writable),
                                          WatchedPorts(old(settings.file)) + [NewWatchedPort(newId, port)])
      ensures old(Persisted()) && settings.writable ==> Persisted()
    {
      var i := FirstIndexOfPort(ports.items, port);
      if i == |ports.items| {
        return;
      }
      var ws := settings.GetWatchedPorts();
      if port in watched {
        watched := watched - {port};
        ports.items := ports.items[i := ports.items[i].(isWatched := false)];
        ws := WithoutPort(ws, port);
      } else {
        watched := watched + {port};
        ports.items := ports.items[i := ports.items[i].(isWatched := true)];
        KeySetConcat(ws, [NewWatchedPort(newId, port)], WatchPort);
        KeySetSingleton(NewWatchedPort(newId, port), WatchPort);
        ws := ws + [NewWatchedPort(newId, port)];
      }
      settings.SaveWatchedPorts(ws);
      SaveWatchedPortsRoundTrip(old(settings.file), ws);
    }
  }
}
