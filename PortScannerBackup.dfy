/** The earlier port scanner kept beside the Blazor services: the list is
    cleared first and then refilled one entry per listener, without removing
    duplicates; the process lookup ignores the port; `GetPorts` hands out
    the live list; nothing is persisted. */
module PortScannerBackup {
  import opened Common
  import opened Models
  import opened Ports

  /** What the host shows one refresh: the listeners (`None` when the query
      throws) and the process list in enumeration order. */
  datatype Host = Host(listeners: Option<seq<Listener>>, processes: seq<ProcessInfo>, userName: string)

  predicate HasFileName(p: ProcessInfo) {
    p.mainModule.Some? && p.mainModule.value.Some?
  }

  /** `GetProcessForPort`: the first process whose main module has a file
      name, whatever the port; reading a main module that throws ends the
      search with none. */
  function AnyProcess(ps: seq<ProcessInfo>): (r: Option<ProcessInfo>)
    ensures r.Some? ==> exists i :: 0 <= i < |ps| && ps[i] == r.value && HasFileName(ps[i])
                          && forall j :: 0 <= j < i ==> ps[j].mainModule == Some(None)
    ensures r.None? ==> forall i :: 0 <= i < |ps| && HasFileName(ps[i]) ==>
                          exists j :: 0 <= j < i && ps[j].mainModule.None?
  {
    if ps == [] then None
    else if ps[0].mainModule.None? then None
    else if HasFileName(ps[0]) then Some(ps[0])
    else
      var r := AnyProcess(ps[1..]);
      assert forall i :: 1 <= i < |ps| ==> ps[i] == ps[1..][i - 1];
      if r.None? then
        assert forall i :: 0 <= i < |ps| && HasFileName(ps[i]) ==> exists j :: 0 <= j < i && ps[j].mainModule.None? by {
          forall i | 0 <= i < |ps| && HasFileName(ps[i]) ensures exists j :: 0 <= j < i && ps[j].mainModule.None? {
            var j :| 0 <= j < i - 1 && ps[1..][j].mainModule.None?;
            assert ps[j + 1].mainModule.None?;
          }
        }
        r
      else
        r
  }

  /** The entry a listener yields, or `None` when reading the process name
      throws. */
  function Entry(host: Host, l: Listener, favorites: set<int>, watched: set<int>): (e: Option<PortInfo>)
    ensures e.Some? ==> (e.value.port == l.port && e.value.isActive
      && e.value.address == l.address.GetOr("127.0.0.1") && e.value.user == host.userName
      && (e.value.isFavorite <==> l.port in favorites) && (e.value.isWatched <==> l.port in watched))
  {
    var proc := AnyProcess(host.processes);
    if proc.Some? && proc.value.name.None? then None
    else
      Some(PortInfo(
        port := l.port,
        processName := if proc.Some? then proc.value.name.value else "Unknown",
        pid := if proc.Some? then proc.value.pid else 0,
        address := l.address.GetOr("127.0.0.1"),
        user := host.userName,
        command := if proc.Some? then CommandOf(proc.value) else "",
        isActive := true,
        isFavorite := l.port in favorites,
        isWatched := l.port in watched,
        processType := None))
  }

  /** The list after the first `n` listeners: `Success` while the loop runs,
      `Failure` with what was added so far once it has thrown. */
  function RebuildPrefix(host: Host, ls: seq<Listener>, n: nat, favorites: set<int>, watched: set<int>): Result<seq<PortInfo>, seq<PortInfo>>
    requires n <= |ls|
  {
    if n == 0 then Success([])
    else
      var prev := RebuildPrefix(host, ls, n - 1, favorites, watched);
      if prev.Failure? || ls[n - 1].port <= 0 then prev
      else
        match Entry(host, ls[n - 1], favorites, watched)
        case None => Failure(prev.value)
        case Some(e) => Success(prev.value + [e])
  }

  /** The listeners the loop adds an entry for, in order. */
  function Positive(ls: seq<Listener>): (r: seq<Listener>)
    ensures forall k :: 0 <= k < |r| ==> r[k].port > 0
  {
    if ls == [] then []
    else if ls[|ls| - 1].port > 0 then Positive(ls[..|ls| - 1]) + [ls[|ls| - 1]]
    else Positive(ls[..|ls| - 1])
  }

  /** A completed rebuild holds one entry per positive listener, in
      listener order, duplicates included. */
  lemma {:induction false} RebuildSpec(host: Host, ls: seq<Listener>, n: nat, favorites: set<int>, watched: set<int>)
    requires n <= |ls|
    ensures RebuildPrefix(host, ls, n, favorites, watched).Success? ==>
      var acc := RebuildPrefix(host, ls, n, favorites, watched).value; var pos := Positive(ls[..n]);
      |acc| == |pos| && FlagsMatch(acc, favorites, watched) &&
      forall k :: 0 <= k < |acc| ==> Entry(host, pos[k], favorites, watched) == Some(acc[k])
    decreases n
  {
    if n > 0 {
      RebuildSpec(host, ls, n - 1, favorites, watched);
      assert ls[..n][..n - 1] == ls[..n - 1];
    }
  }

  /** The lookup does not depend on the port, so a throwing process name
      throws at the first positive listener: an abandoned rebuild leaves the
      list empty, never half filled. */
  lemma {:induction false} RebuildAllOrNothing(host: Host, ls: seq<Listener>, n: nat, favorites: set<int>, watched: set<int>)
    requires n <= |ls|
    ensures RebuildPrefix(host, ls, n, favorites, watched).Failure? ==>
      RebuildPrefix(host, ls, n, favorites, watched).error == []
    ensures (RebuildPrefix(host, ls, n, favorites, watched).Success? &&
             RebuildPrefix(host, ls, n, favorites, watched).value != []) ==>
      forall l :: Entry(host, l, favorites, watched).Some?
    decreases n
  {
    if n > 0 {
      RebuildAllOrNothing(host, ls, n - 1, favorites, watched);
    }
  }

  /** Two listeners on one port give two entries. */
  lemma DuplicatesKept(host: Host)
    requires host.listeners == Some([Listener(80, None), Listener(80, None)]) && host.processes == []
    ensures var r := RebuildPrefix(host, host.listeners.value, 2, {}, {});
      r.Success? && |r.value| == 2 && r.value[0].port == 80 && r.value[1].port == 80
  {
    var ls := host.listeners.value;
    assert AnyProcess(host.processes) == None;
    var e := Entry(host, Listener(80, None), {}, {});
    assert e.Some? && e.value.port == 80;
    assert ls[0] == Listener(80, None) && ls[1] == Listener(80, None);
    var p0 := RebuildPrefix(host, ls, 0, {}, {});
    assert p0 == Success([]);
    assert Entry(host, ls[0], {}, {}) == e;
    assert [] + [e.value] == [e.value];
    assert RebuildPrefix(host, ls, 1, {}, {}) == Success([e.value]);
    assert Entry(host, ls[1], {}, {}) == e;
    assert [e.value] + [e.value] == [e.value, e.value];
    assert RebuildPrefix(host, ls, 2, {}, {}) == Success([e.value, e.value]);
  }

  class PortScannerService {
    const ports: MutableList<PortInfo>
    var favorites: set<int>
    var watched: set<int>

    constructor ()
      ensures fresh(ports) && ports.items == [] && favorites == {} && watched == {}
    {
      ports := new MutableList<PortInfo>([]);
      favorites := {};
      watched := {};
    }

    /** The live list itself, not a copy. */
    method GetPorts() returns (r: MutableList<PortInfo>)
      ensures r == ports
    {
      r := ports;
    }

    /** Clears the list, then appends an entry per positive listener; a throw
        keeps whatever was appended before it. */
    method RefreshPorts(host: Host)
      modifies ports
      ensures host.listeners.None? ==> ports.items == []
      ensures host.listeners.Some? ==>
        match RebuildPrefix(host, host.listeners.value, |host.listeners.value|, favorites, watched)
        case Success(v) => ports.items == v
        case Failure(v) => ports.items == v
    {
      ports.items := [];
      if host.listeners.None? {
        return;
      }
      var ls := host.listeners.value;
      var i := 0;
      while i < |ls|
        invariant 0 <= i <= |ls|
        invariant RebuildPrefix(host, ls, i, favorites, watched) == Success(ports.items)
      {
        var l := ls[i];
        if l.port > 0 {
          var process := AnyProcess(host.processes);
          if process.Some? && process.value.name.None? {
            RebuildAbandoned(host, ls, i + 1, |ls|, favorites, watched);
            return;
          }
          var e := PortInfo(l.port,
                            if process.Some? then process.value.name.value else "Unknown",
                            if process.Some? then process.value.pid else 0,
                            l.address.GetOr("127.0.0.1"), host.userName,
                            if process.Some? then CommandOf(process.value) else "",
                            true, l.port in favorites, l.port in watched, None);
          assert Entry(host, l, favorites, watched) == Some(e);
          ports.items := ports.items + [e];
        }
        i := i + 1;
      }
    }

    method KillPort(port: int, killOk: bool)
      modifies ports
      ensures ports.items == Killed(old(ports.items), port, killOk)
    {
      var i := FirstIndexOfPort(ports.items, port);
      if i == |ports.items| {
        return;
      }
      if killOk {
        ports.items := ports.items[..i] + ports.items[i + 1..];
      }
    }

    method ToggleFavorite(port: int)
      modifies this, ports
      ensures (ports.items, favorites) == FavoriteToggled(old(ports.items), old(favorites), port)
      ensures watched == old(watched)
    {
      var i := FirstIndexOfPort(ports.items, port);
      if i == |ports.items| {
        return;
      }
      if port in favorites {
        favorites := favorites - {port};
        ports.items := ports.items[i := ports.items[i].(isFavorite := false)];
      } else {
        favorites := favorites + {port};
        ports.items := ports.items[i := ports.items[i].(isFavorite := true)];
      }
    }

    method ToggleWatch(port: int)
      modifies this, ports
      ensures (ports.items, watched) == WatchToggled(old(ports.items), old(watched), port)
      ensures favorites == old(favorites)
    {
      var i := FirstIndexOfPort(ports.items, port);
      if i == |ports.items| {
        return;
      }
      if port in watched {
        watched := watched - {port};
        ports.items := ports.items[i := ports.items[i].(isWatched := false)];
      } else {
        watched := watched + {port};
        ports.items := ports.items[i := ports.items[i].(isWatched := true)];
      }
    }
  }

  /** Once the loop has thrown, the result stays as it was. */
  lemma {:induction false} RebuildAbandoned(host: Host, ls: seq<Listener>, m: nat, n: nat, favorites: set<int>, watched: set<int>)
    requires m <= n <= |ls|
    requires RebuildPrefix(host, ls, m, favorites, watched).Failure?
    ensures RebuildPrefix(host, ls, n, favorites, watched) == RebuildPrefix(host, ls, m, favorites, watched)
    decreases n - m
  {
    if m < n {
      RebuildAbandoned(host, ls, m + 1, n, favorites, watched);
    }
  }
}
