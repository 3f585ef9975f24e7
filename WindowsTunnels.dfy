/** The tunnel view model of the Windows application: an observable list of
    tunnel records over a tunnel service and a settings service that are
    not part of this model. What those services do is given to each
    operation as a parameter (the message of the exception a call throws,
    the processes found at start-up); the list last handed to the settings
    service is the field `saved`. A record object is identified by its
    `id`, which stands for the Guid the record receives; the callbacks a
    start registers find their record by it. */
module WindowsTunnels {
  import opened Common
  import opened Strings

  // ---------------------------------------------------------------------
  // Records
  // ---------------------------------------------------------------------

  /** The statuses the view model assigns. */
  datatype TunnelStatus = Starting | Active | Stopping | Error

  datatype Tunnel = Tunnel(
    id: nat,
    port: int,
    status: TunnelStatus,
    tunnelUrl: string,
    processId: int,
    startTime: int,
    lastError: Option<string>)

  /** `new CloudflareTunnel(port) { Status = status }`. */
  function NewTunnel(id: nat, port: int, status: TunnelStatus): Tunnel {
    Tunnel(id, port, status, "", 0, 0, None)
  }

  /** What the URL callback makes of its record. */
  function WithUrl(t: Tunnel, url: string, now: int): Tunnel {
    t.(tunnelUrl := url, status := Active, startTime := now)
  }

  /** What the error callback makes of its record. */
  function WithError(t: Tunnel, error: string): Tunnel {
    t.(lastError := Some(error), status := if t.status == Active then Active else Error)
  }

  /** What a caught exception makes of a record. */
  function Failed(t: Tunnel, message: string): Tunnel {
    t.(status := Error, lastError := Some(message))
  }

  /** The callbacks keep the record's identity; a URL makes it "Active",
      an error never demotes an "Active" record and otherwise makes it
      "Error"; both orders of a URL and an error end "Active". */
  lemma CallbacksSpec(t: Tunnel, url: string, error: string, now: int)
    ensures WithUrl(t, url, now).id == t.id && WithUrl(t, url, now).port == t.port
    ensures WithError(t, error).id == t.id && WithError(t, error).port == t.port
    ensures WithUrl(t, url, now).status == Active && WithUrl(t, url, now).tunnelUrl == url
    ensures WithError(t, error).lastError == Some(error)
    ensures WithError(t, error).status == Active <==> t.status == Active
    ensures t.status != Active ==> WithError(t, error).status == Error
    ensures WithError(WithUrl(t, url, now), error).status == Active
    ensures WithUrl(WithError(t, error), url, now).status == Active
    ensures WithUrl(WithError(t, error), url, now).lastError == Some(error)
  {
  }

  // ---------------------------------------------------------------------
  // The list and what is persisted from it
  // ---------------------------------------------------------------------

  /** The number of "Active" records: `ActiveTunnelCount`. */
  function ActiveCount(ts: seq<Tunnel>): nat {
    if ts == [] then 0 else (if ts[0].status == Active then 1 else 0) + ActiveCount(ts[1..])
  }

  /** A record `SaveActiveTunnels` keeps. */
  predicate Persists(t: Tunnel) {
    t.status == Active || t.status == Starting
  }

  /** The records `SaveActiveTunnels` hands over, in list order. */
  function Persisted(ts: seq<Tunnel>): seq<Tunnel> {
    if ts == [] then [] else (if Persists(ts[0]) then [ts[0]] else []) + Persisted(ts[1..])
  }

  lemma {:induction false} ActiveCountAppend(a: seq<Tunnel>, b: seq<Tunnel>)
    ensures ActiveCount(a + b) == ActiveCount(a) + ActiveCount(b)
    decreases |a|
  {
    if a == [] {
      assert a + b == b;
    } else {
      assert (a + b)[0] == a[0] && (a + b)[1..] == a[1..] + b;
      assert ActiveCount(a + b) == (if a[0].status == Active then 1 else 0) + ActiveCount(a[1..] + b);
      ActiveCountAppend(a[1..], b);
    }
  }

  /** The count is of the list: it is at most its length, and it is the
      number of entries whose status is "Active". */
  lemma {:induction false} ActiveCountSpec(ts: seq<Tunnel>)
    ensures ActiveCount(ts) <= |ts|
    ensures ActiveCount(ts) == |ts| <==> forall i :: 0 <= i < |ts| ==> ts[i].status == Active
    ensures ActiveCount(ts) == 0 <==> forall i :: 0 <= i < |ts| ==> ts[i].status != Active
    decreases |ts|
  {
    if ts != [] {
      ActiveCountSpec(ts[1..]);
      assert forall i :: 1 <= i < |ts| ==> ts[i] == ts[1..][i - 1];
    }
  }

  /** Saving the concatenation saves each part in turn. */
  lemma {:induction false} PersistedAppend(a: seq<Tunnel>, b: seq<Tunnel>)
    ensures Persisted(a + b) == Persisted(a) + Persisted(b)
    decreases |a|
  {
    if a == [] {
      assert a + b == b;
    } else {
      assert (a + b)[0] == a[0] && (a + b)[1..] == a[1..] + b;
      assert Persisted(a + b) == (if Persists(a[0]) then [a[0]] else []) + Persisted(a[1..] + b);
      PersistedAppend(a[1..], b);
      assert Persisted(a) == (if Persists(a[0]) then [a[0]] else []) + Persisted(a[1..]);
    }
  }

  /** The persisted records are exactly the "Active" and "Starting" ones of
      the list, and every "Active" one is among them. */
  lemma {:induction false} PersistedSpec(ts: seq<Tunnel>)
    ensures |Persisted(ts)| <= |ts|
    ensures forall t :: t in Persisted(ts) <==> t in ts && Persists(t)
    ensures ActiveCount(Persisted(ts)) == ActiveCount(ts)
    decreases |ts|
  {
    if ts != [] {
      PersistedSpec(ts[1..]);
      var head := if Persists(ts[0]) then [ts[0]] else [];
      assert Persisted(ts) == head + Persisted(ts[1..]);
      ActiveCountAppend(head, Persisted(ts[1..]));
      assert forall t :: t in ts <==> t == ts[0] || t in ts[1..];
    }
  }

  // ---------------------------------------------------------------------
  // Finding a record by its identity
  // ---------------------------------------------------------------------

  /** The position of the record `id`, or |ts| when it is not in the list. */
  function IndexOf(ts: seq<Tunnel>, id: nat): (i: nat)
    ensures i <= |ts|
    ensures i < |ts| ==> ts[i].id == id
    ensures forall j :: 0 <= j < i ==> ts[j].id != id
    decreases |ts|
  {
    if ts == [] then 0
    else if ts[0].id == id then 0
    else
      var k := IndexOf(ts[1..], id);
      assert forall j :: 1 <= j < |ts| ==> ts[j] == ts[1..][j - 1];
      1 + k
  }

  /** No two records share an identity, and every identity is below `next`. */
  predicate FreshIds(ts: seq<Tunnel>, next: nat) {
    (forall i, j :: 0 <= i < j < |ts| ==> ts[i].id != ts[j].id)
    && forall i :: 0 <= i < |ts| ==> ts[i].id < next
  }

  /** `Tunnels.Remove(t)`: the record `id` taken out of the list. */
  function Without(ts: seq<Tunnel>, id: nat): seq<Tunnel> {
    var i := IndexOf(ts, id);
    if i < |ts| then ts[..i] + ts[i + 1..] else ts
  }

  /** The record, if present, replaced by `t`. */
  function Replaced(ts: seq<Tunnel>, id: nat, t: Tunnel): seq<Tunnel> {
    var i := IndexOf(ts, id);
    if i < |ts| then ts[i := t] else ts
  }

  /** With unique identities, removing a record removes it and nothing
      else, and lowers the count by one exactly when it was "Active". */
  lemma WithoutSpec(ts: seq<Tunnel>, next: nat, id: nat)
    requires FreshIds(ts, next)
    ensures FreshIds(Without(ts, id), next)
    ensures forall t :: t in Without(ts, id) <==> t in ts && t.id != id
    ensures |Without(ts, id)| == if IndexOf(ts, id) < |ts| then |ts| - 1 else |ts|
    ensures ActiveCount(Without(ts, id)) ==
      ActiveCount(ts) - (if IndexOf(ts, id) < |ts| && ts[IndexOf(ts, id)].status == Active then 1 else 0)
  {
    var i := IndexOf(ts, id);
    if i < |ts| {
      WithoutAt(ts, i);
      WithoutMembers(ts, next, id);
      WithoutCount(ts, i);
    }
  }

  /** The list with position `i` cut out, entry by entry. */
  lemma WithoutAt(ts: seq<Tunnel>, i: int)
    requires 0 <= i < |ts|
    ensures |ts[..i] + ts[i + 1..]| == |ts| - 1
    ensures forall j :: 0 <= j < |ts| - 1 ==> (ts[..i] + ts[i + 1..])[j] == if j < i then ts[j] else ts[j + 1]
  {
  }

  lemma WithoutMembers(ts: seq<Tunnel>, next: nat, id: nat)
    requires FreshIds(ts, next) && IndexOf(ts, id) < |ts|
    ensures FreshIds(Without(ts, id), next)
    ensures forall t :: t in Without(ts, id) <==> t in ts && t.id != id
  {
    var i := IndexOf(ts, id);
    WithoutAt(ts, i);
    WithoutKeeps(ts, i);
    WithoutDrops(ts, next, i);
    WithoutFresh(ts, next, i);
  }

  lemma WithoutKeeps(ts: seq<Tunnel>, i: int)
    requires 0 <= i < |ts|
    ensures forall t :: t in ts && t != ts[i] ==> t in ts[..i] + ts[i + 1..]
  {
    var r := ts[..i] + ts[i + 1..];
    WithoutAt(ts, i);
    forall t | t in ts && t != ts[i] ensures t in r {
      var j :| 0 <= j < |ts| && ts[j] == t;
      assert r[if j < i then j else j - 1] == t;
    }
  }

  lemma WithoutDrops(ts: seq<Tunnel>, next: nat, i: int)
    requires FreshIds(ts, next) && 0 <= i < |ts|
    ensures forall t :: t in ts[..i] + ts[i + 1..] ==> t in ts && t.id != ts[i].id
  {
    var r := ts[..i] + ts[i + 1..];
    WithoutAt(ts, i);
    forall t | t in r ensures t in ts && t.id != ts[i].id {
      var j :| 0 <= j < |r| && r[j] == t;
      assert t == ts[if j < i then j else j + 1];
    }
  }

  lemma WithoutFresh(ts: seq<Tunnel>, next: nat, i: int)
    requires FreshIds(ts, next) && 0 <= i < |ts|
    ensures FreshIds(ts[..i] + ts[i + 1..], next)
  {
    var r := ts[..i] + ts[i + 1..];
    WithoutAt(ts, i);
    forall a, b | 0 <= a < b < |r| ensures r[a].id != r[b].id {
      assert r[a] == ts[if a < i then a else a + 1];
      assert r[b] == ts[if b < i then b else b + 1];
    }
  }

  lemma WithoutCount(ts: seq<Tunnel>, i: int)
    requires 0 <= i < |ts|
    ensures ActiveCount(ts[..i] + ts[i + 1..]) == ActiveCount(ts) - (if ts[i].status == Active then 1 else 0)
  {
    var a, c, b := ts[..i], [ts[i]], ts[i + 1..];
    assert ts == (a + c) + b;
    ActiveCountAppend(a + c, b);
    ActiveCountAppend(a, c);
    ActiveCountAppend(a, b);
    assert c[1..] == [];
  }

  /** With unique identities, replacing a record by one with the same
      identity keeps them unique and touches only that record. */
  lemma ReplacedSpec(ts: seq<Tunnel>, next: nat, id: nat, t: Tunnel)
    requires FreshIds(ts, next) && t.id == id
    ensures FreshIds(Replaced(ts, id, t), next)
    ensures |Replaced(ts, id, t)| == |ts|
    ensures forall j :: 0 <= j < |ts| && ts[j].id != id ==> Replaced(ts, id, t)[j] == ts[j]
    ensures IndexOf(ts, id) < |ts| ==> Replaced(ts, id, t)[IndexOf(ts, id)] == t
    ensures IndexOf(Replaced(ts, id, t), id) == IndexOf(ts, id)
    ensures Without(Replaced(ts, id, t), id) == Without(ts, id)
  {
    var i := IndexOf(ts, id);
    if i < |ts| {
      var r := ts[i := t];
      IndexOfFirst(r, id, i);
      assert r[..i] == ts[..i] && r[i + 1..] == ts[i + 1..];
    }
  }

  /** The first record with identity `id` is at `i`. */
  lemma IndexOfFirst(ts: seq<Tunnel>, id: nat, i: int)
    requires 0 <= i < |ts| && ts[i].id == id
    requires forall j :: 0 <= j < i ==> ts[j].id != id
    ensures IndexOf(ts, id) == i
  {
    var k := IndexOf(ts, id);
    assert !(k < i) && !(i < k);
  }

  /** A fresh record goes on the end with its identity still unique. */
  lemma AppendFresh(ts: seq<Tunnel>, next: nat, t: Tunnel)
    requires FreshIds(ts, next) && t.id == next
    ensures FreshIds(ts + [t], next + 1)
  {
  }

  // ---------------------------------------------------------------------
  // Starting a tunnel
  // ---------------------------------------------------------------------

  /** A record for `port` that is not in error: the duplicate guard of
      `StartTunnelAsync`. */
  predicate Blocks(ts: seq<Tunnel>, port: int) {
    exists i :: 0 <= i < |ts| && ts[i].port == port && ts[i].status != Error
  }

  /** The new record, after the start: "Error" with the message when the
      service throws, else still "Starting". */
  function Started(t: Tunnel, failure: Option<string>): Tunnel {
    if failure.Some? then Failed(t, failure.value) else t
  }

  /** The list after `StartTunnelAsync(port)` with the next identity `id`. */
  function AfterStart(ts: seq<Tunnel>, port: int, id: nat, installed: bool, failure: Option<string>): seq<Tunnel> {
    if !installed || Blocks(ts, port) then ts
    else ts + [Started(NewTunnel(id, port, Starting), failure)]
  }

  /** What is persisted after it: the list with the new "Starting" record,
      saved before the start. */
  function SavedAfterStart(ts: seq<Tunnel>, saved: seq<Tunnel>, port: int, id: nat, installed: bool): seq<Tunnel> {
    if !installed || Blocks(ts, port) then saved
    else Persisted(ts + [NewTunnel(id, port, Starting)])
  }

  /** A start adds at most one record, for the port; a record not in error
      for the port blocks it, one in error does not; the saved list holds
      the new record whatever the start does. */
  lemma AfterStartSpec(ts: seq<Tunnel>, saved: seq<Tunnel>, port: int, id: nat, installed: bool, failure: Option<string>)
    ensures var r := AfterStart(ts, port, id, installed, failure);
      (r == ts || (|r| == |ts| + 1 && r[..|ts|] == ts && r[|ts|].port == port && r[|ts|].id == id))
    ensures installed && !Blocks(ts, port) ==>
      AfterStart(ts, port, id, installed, failure)[|ts|].status == (if failure.Some? then Error else Starting)
    ensures (forall i :: 0 <= i < |ts| && ts[i].port == port ==> ts[i].status == Error) && installed ==>
      |AfterStart(ts, port, id, installed, failure)| == |ts| + 1
    ensures installed && !Blocks(ts, port) ==>
      SavedAfterStart(ts, saved, port, id, installed) == Persisted(ts) + [NewTunnel(id, port, Starting)]
  {
    var t := NewTunnel(id, port, Starting);
    var r := AfterStart(ts, port, id, installed, failure);
    if installed && !Blocks(ts, port) {
      assert r[..|ts|] == ts;
      PersistedAppend(ts, [t]);
      assert Persisted([t]) == [t] + Persisted([t][1..]);
    }
  }

  // ---------------------------------------------------------------------
  // Start-up
  // ---------------------------------------------------------------------

  /** A process found for a saved port at start-up. */
  datatype ProcessInfo = ProcessInfo(pid: int, startTime: int)

  /** The record restored for the saved record `s`: "Active" on the process
      found, with the saved URL; without one a new "Starting" record, in
      "Error" when its start throws, which it only attempts with cloudflared
      installed. */
  function RestoredEntry(id: nat, s: Tunnel, found: Option<ProcessInfo>, installed: bool, failure: Option<string>): Tunnel {
    if found.Some? then
      NewTunnel(id, s.port, Active).(tunnelUrl := s.tunnelUrl, processId := found.value.pid, startTime := found.value.startTime)
    else if installed then Started(NewTunnel(id, s.port, Starting), failure)
    else NewTunnel(id, s.port, Starting)
  }

  function Lookup<K, V>(m: map<K, V>, k: K): Option<V> {
    if k in m then Some(m[k]) else None
  }

  /** The records the loop of `InitializeAsync` adds for `saved`, the i-th
      with identity `first + i`; `existing` is what the lookup of a port
      finds and `failures` the message of each start that throws, by
      position. */
  function RestoredList(saved: seq<Tunnel>, first: nat, existing: map<int, ProcessInfo>, installed: bool,
                        failures: map<nat, string>): seq<Tunnel>
    decreases |saved|
  {
    if saved == [] then []
    else
      var n := |saved| - 1;
      RestoredList(saved[..n], first, existing, installed, failures)
        + [RestoredEntry(first + n, saved[n], Lookup(existing, saved[n].port), installed, Lookup(failures, n))]
  }

  lemma RestoredListSnoc(saved: seq<Tunnel>, first: nat, existing: map<int, ProcessInfo>, installed: bool,
                         failures: map<nat, string>, i: int)
    requires 0 <= i < |saved|
    ensures RestoredList(saved[..i + 1], first, existing, installed, failures) ==
      RestoredList(saved[..i], first, existing, installed, failures)
        + [RestoredEntry(first + i, saved[i], Lookup(existing, saved[i].port), installed, Lookup(failures, i))]
  {
    assert saved[..i + 1][..i] == saved[..i];
  }

  /** One record per saved record, in order, for the same port and with
      consecutive identities: "Active" with the saved URL and the process
      exactly when a process is found for the port, otherwise "Error" when
      the start was attempted and threw, else "Starting". */
  lemma {:induction false} RestoredListSpec(saved: seq<Tunnel>, first: nat, existing: map<int, ProcessInfo>,
                                            installed: bool, failures: map<nat, string>)
    ensures var r := RestoredList(saved, first, existing, installed, failures);
      |r| == |saved|
      && forall i :: 0 <= i < |r| ==>
        r[i].port == saved[i].port && r[i].id == first + i
        && (r[i].status == Active <==> saved[i].port in existing)
        && (r[i].status == Active ==>
              r[i].tunnelUrl == saved[i].tunnelUrl && r[i].processId == existing[saved[i].port].pid)
        && (r[i].status == Error <==> saved[i].port !in existing && installed && i in failures)
        && (r[i].status == Error ==> r[i].lastError == Some(failures[i]))
        && (r[i].status == Starting <==> saved[i].port !in existing && !(installed && i in failures))
    decreases |saved|
  {
    if saved != [] {
      var n := |saved| - 1;
      RestoredListSpec(saved[..n], first, existing, installed, failures);
      var init := RestoredList(saved[..n], first, existing, installed, failures);
      var r := RestoredList(saved, first, existing, installed, failures);
      assert forall i :: 0 <= i < n ==> r[i] == init[i] && saved[i] == saved[..n][i];
    }
  }

  lemma RestoreStart(saved: seq<Tunnel>, first: nat, existing: map<int, ProcessInfo>, installed: bool,
                     failures: map<nat, string>)
    ensures RestoredList(saved[..0], first, existing, installed, failures) == []
    ensures MatchedPids(saved[..0], existing) == {}
  {
    assert saved[..0] == [];
  }

  /** After the restore loop: every saved record restored, with fresh
      identities. */
  lemma RestoreDone(ts: seq<Tunnel>, next: nat, saved: seq<Tunnel>, existing: map<int, ProcessInfo>,
                    installed: bool, failures: map<nat, string>)
    requires FreshIds(ts, next)
    ensures RestoredList(saved[..|saved|], next, existing, installed, failures) == RestoredList(saved, next, existing, installed, failures)
    ensures MatchedPids(saved[..|saved|], existing) == MatchedPids(saved, existing)
    ensures FreshIds(ts + RestoredList(saved, next, existing, installed, failures), next + |saved|)
  {
    TakeAll(saved);
    RestoredFresh(ts, next, saved, existing, installed, failures);
  }

  /** The restored identities are fresh. */
  lemma RestoredFresh(ts: seq<Tunnel>, next: nat, saved: seq<Tunnel>, existing: map<int, ProcessInfo>,
                      installed: bool, failures: map<nat, string>)
    requires FreshIds(ts, next)
    ensures FreshIds(ts + RestoredList(saved, next, existing, installed, failures), next + |saved|)
  {
    RestoredListSpec(saved, next, existing, installed, failures);
    var r := ts + RestoredList(saved, next, existing, installed, failures);
    forall i, j | 0 <= i < j < |r| ensures r[i].id != r[j].id {
      if j >= |ts| {
        assert r[j].id == next + (j - |ts|);
      }
    }
  }

  /** The process ids matched to saved records. */
  function MatchedPids(saved: seq<Tunnel>, existing: map<int, ProcessInfo>): set<int> {
    set i | 0 <= i < |saved| && saved[i].port in existing :: existing[saved[i].port].pid
  }

  /** A cloudflared process the clean-up kills: not matched to a saved
      record, with a command line naming both `tunnel` and `--url`. */
  predicate IsOrphan(pid: int, matched: set<int>, commandLines: map<int, string>) {
    pid !in matched && pid in commandLines
    && Contains(commandLines[pid], "tunnel") && Contains(commandLines[pid], "--url")
  }

  /** The processes killed, in the order of the process list. */
  function OrphansToKill(procs: seq<int>, matched: set<int>, commandLines: map<int, string>): seq<int>
    decreases |procs|
  {
    if procs == [] then []
    else
      var n := |procs| - 1;
      OrphansToKill(procs[..n], matched, commandLines) + (if IsOrphan(procs[n], matched, commandLines) then [procs[n]] else [])
  }

  lemma OrphansSnoc(procs: seq<int>, matched: set<int>, commandLines: map<int, string>, i: int)
    requires 0 <= i < |procs|
    ensures OrphansToKill(procs[..i + 1], matched, commandLines) ==
      OrphansToKill(procs[..i], matched, commandLines) + (if IsOrphan(procs[i], matched, commandLines) then [procs[i]] else [])
  {
    assert procs[..i + 1][..i] == procs[..i];
  }

  /** Exactly the orphans of the list are killed: a process matched to a
      saved record never is. */
  lemma {:induction false} OrphansSpec(procs: seq<int>, matched: set<int>, commandLines: map<int, string>)
    ensures forall p :: p in OrphansToKill(procs, matched, commandLines) <==> p in procs && IsOrphan(p, matched, commandLines)
    ensures forall p :: p in matched ==> p !in OrphansToKill(procs, matched, commandLines)
    decreases |procs|
  {
    if procs != [] {
      var n := |procs| - 1;
      OrphansSpec(procs[..n], matched, commandLines);
      assert procs == procs[..n] + [procs[n]];
      assert forall p :: p in procs <==> p in procs[..n] || p == procs[n];
    }
  }

  // ---------------------------------------------------------------------
  // Stopping everything
  // ---------------------------------------------------------------------

  /** Every record marked "Stopping". */
  function AllStopping(ts: seq<Tunnel>): seq<Tunnel>
    decreases |ts|
  {
    if ts == [] then [] else AllStopping(ts[..|ts| - 1]) + [ts[|ts| - 1].(status := Stopping)]
  }

  lemma AllStoppingSnoc(ts: seq<Tunnel>, i: int)
    requires 0 <= i < |ts|
    ensures AllStopping(ts[..i + 1]) == AllStopping(ts[..i]) + [ts[i].(status := Stopping)]
  {
    assert ts[..i + 1][..i] == ts[..i];
  }

  /** Marking keeps the records, in order, with only their status changed;
      none of them is then active or persisted. */
  lemma {:induction false} AllStoppingSpec(ts: seq<Tunnel>)
    ensures |AllStopping(ts)| == |ts|
    ensures forall i :: 0 <= i < |ts| ==> AllStopping(ts)[i] == ts[i].(status := Stopping)
    ensures Persisted(AllStopping(ts)) == []
    decreases |ts|
  {
    if ts != [] {
      var n := |ts| - 1;
      AllStoppingSpec(ts[..n]);
      PersistedAppend(AllStopping(ts[..n]), [ts[n].(status := Stopping)]);
      assert Persisted([ts[n].(status := Stopping)]) == [] + Persisted([]);
    }
  }

  /** One turn of the marking loop. */
  lemma StoppingStep(ts: seq<Tunnel>, i: int)
    requires 0 <= i < |ts|
    ensures i < |AllStopping(ts[..i]) + ts[i..]|
    ensures (AllStopping(ts[..i]) + ts[i..])[i := ts[i].(status := Stopping)] == AllStopping(ts[..i + 1]) + ts[i + 1..]
    ensures (AllStopping(ts[..i]) + ts[i..])[i] == ts[i]
  {
    AllStoppingSnoc(ts, i);
    AllStoppingSpec(ts[..i]);
    assert ts[i..] == [ts[i]] + ts[i + 1..];
  }

  lemma StoppingStart(ts: seq<Tunnel>)
    ensures AllStopping(ts[..0]) + ts[0..] == ts
  {
    assert ts[..0] == [];
  }

  /** After the marking loop: every record marked, identities kept. */
  lemma StoppingDone(ts: seq<Tunnel>, next: nat)
    requires FreshIds(ts, next)
    ensures AllStopping(ts[..|ts|]) + ts[|ts|..] == AllStopping(ts)
    ensures FreshIds(AllStopping(ts), next)
  {
    TakeAll(ts);
    assert ts[|ts|..] == [];
    AllStoppingSpec(ts);
  }

  // ---------------------------------------------------------------------
  // Display
  // ---------------------------------------------------------------------

  /** `ShortenUrl`: every `https://` removed. */
  function ShortenUrl(url: string): string {
    RemoveAll(url, "https://")
  }

  /** A quick-tunnel URL loses its scheme and nothing else; a string
      without the scheme is shown as it is. */
  lemma ShortenUrlSpec(rest: string)
    requires !Contains(rest, "https://")
    ensures ShortenUrl("https://" + rest) == rest
    ensures ShortenUrl(rest) == rest
  {
    PrefixOfAppend("https://", rest);
    assert ("https://" + rest)[|"https://"|..] == rest;
    RemoveAllAbsent(rest, "https://");
  }

  // ---------------------------------------------------------------------
  // The view model
  // ---------------------------------------------------------------------

  class TunnelViewModel {
    var tunnels: seq<Tunnel>
    var installed: bool
    /** The list last handed to the settings service. */
    var saved: seq<Tunnel>
    /** The identity the next record receives. */
    var nextId: nat
    /** The process ids killed by the start-up clean-up, in order. */
    var killed: seq<int>

    predicate Valid()
      reads this
    {
      FreshIds(tunnels, nextId)
    }

    constructor (installed: bool, saved: seq<Tunnel>)
      ensures Valid()
      ensures tunnels == [] && this.installed == installed && this.saved == saved && nextId == 0 && killed == []
    {
      tunnels := [];
      this.installed := installed;
      this.saved := saved;
      nextId := 0;
      killed := [];
    }

    /** `ActiveTunnelCount`. */
    function ActiveTunnelCount(): nat
      reads this
    {
      ActiveCount(tunnels)
    }

    /** `SaveActiveTunnels`. */
    method SaveActiveTunnels()
      modifies this
      ensures saved == Persisted(tunnels)
      ensures tunnels == old(tunnels) && installed == old(installed) && nextId == old(nextId) && killed == old(killed)
    {
      saved := Persisted(tunnels);
    }

    /** `StartTunnelAsync(port)`; `failure` is the message of the exception
        the service's start throws, if it does. */
    method StartTunnel(port: int, failure: Option<string>)
      requires Valid()
      modifies this
      ensures Valid()
      ensures tunnels == AfterStart(old(tunnels), port, old(nextId), installed, failure)
      ensures saved == SavedAfterStart(old(tunnels), old(saved), port, old(nextId), installed)
      ensures nextId == if tunnels == old(tunnels) then old(nextId) else old(nextId) + 1
      ensures installed == old(installed) && killed == old(killed)
    {
      if !installed || Blocks(tunnels, port) {
        return;
      }
      var t := NewTunnel(nextId, port, Starting);
      AppendFresh(tunnels, nextId, t);
      tunnels := tunnels + [t];
      nextId := nextId + 1;
      SaveActiveTunnels();
      if failure.Some? {
        tunnels := tunnels[|tunnels| - 1 := Failed(t, failure.value)];
      }
      assert tunnels == old(tunnels) + [Started(t, failure)];
    }

    /** The URL callback of record `id`: the record, if still listed, gets
        the URL and "Active"; the list is saved in any case. */
    method OnUrl(id: nat, url: string, now: int)
      requires Valid()
      modifies this
      ensures Valid()
      ensures IndexOf(old(tunnels), id) < |old(tunnels)| ==>
        tunnels == Replaced(old(tunnels), id, WithUrl(old(tunnels)[IndexOf(old(tunnels), id)], url, now))
      ensures IndexOf(old(tunnels), id) == |old(tunnels)| ==> tunnels == old(tunnels)
      ensures saved == Persisted(tunnels)
      ensures installed == old(installed) && nextId == old(nextId) && killed == old(killed)
    {
      var i := IndexOf(tunnels, id);
      if i < |tunnels| {
        ReplacedSpec(tunnels, nextId, id, WithUrl(tunnels[i], url, now));
        tunnels := tunnels[i := WithUrl(tunnels[i], url, now)];
      }
      SaveActiveTunnels();
    }

    /** The error callback of record `id`: the record, if still listed,
        gets the error, and "Error" unless it is "Active". Nothing is saved. */
    method OnError(id: nat, error: string)
      requires Valid()
      modifies this
      ensures Valid()
      ensures IndexOf(old(tunnels), id) < |old(tunnels)| ==>
        tunnels == Replaced(old(tunnels), id, WithError(old(tunnels)[IndexOf(old(tunnels), id)], error))
      ensures IndexOf(old(tunnels), id) == |old(tunnels)| ==> tunnels == old(tunnels)
      ensures saved == old(saved) && installed == old(installed) && nextId == old(nextId) && killed == old(killed)
    {
      var i := IndexOf(tunnels, id);
      if i < |tunnels| {
        ReplacedSpec(tunnels, nextId, id, WithError(tunnels[i], error));
        tunnels := tunnels[i := WithError(tunnels[i], error)];
      }
    }

    /** The record `id`, if listed, takes `status`. */
    method SetStatus(id: nat, status: TunnelStatus)
      requires Valid()
      modifies this
      ensures Valid()
      ensures IndexOf(old(tunnels), id) < |old(tunnels)| ==>
        tunnels == Replaced(old(tunnels), id, old(tunnels)[IndexOf(old(tunnels), id)].(status := status))
      ensures IndexOf(old(tunnels), id) == |old(tunnels)| ==> tunnels == old(tunnels)
      ensures IndexOf(tunnels, id) == IndexOf(old(tunnels), id) && Without(tunnels, id) == Without(old(tunnels), id)
      ensures saved == old(saved) && installed == old(installed) && nextId == old(nextId) && killed == old(killed)
    {
      var i := IndexOf(tunnels, id);
      if i < |tunnels| {
        ReplacedSpec(tunnels, nextId, id, tunnels[i].(status := status));
        tunnels := tunnels[i := tunnels[i].(status := status)];
      }
    }

    /** The catch blocks: the record `id`, if listed, is marked "Error"
        with the message. */
    method Fail(id: nat, message: string)
      requires Valid()
      modifies this
      ensures Valid()
      ensures IndexOf(old(tunnels), id) < |old(tunnels)| ==>
        tunnels == Replaced(old(tunnels), id, Failed(old(tunnels)[IndexOf(old(tunnels), id)], message))
      ensures IndexOf(old(tunnels), id) == |old(tunnels)| ==> tunnels == old(tunnels)
      ensures saved == old(saved) && installed == old(installed) && nextId == old(nextId) && killed == old(killed)
    {
      var i := IndexOf(tunnels, id);
      if i < |tunnels| {
        ReplacedSpec(tunnels, nextId, id, Failed(tunnels[i], message));
        tunnels := tunnels[i := Failed(tunnels[i], message)];
      }
    }

    /** `Tunnels.Remove`. */
    method Remove(id: nat)
      requires Valid()
      modifies this
      ensures Valid()
      ensures tunnels == Without(old(tunnels), id)
      ensures saved == old(saved) && installed == old(installed) && nextId == old(nextId) && killed == old(killed)
    {
      WithoutSpec(tunnels, nextId, id);
      tunnels := Without(tunnels, id);
    }

    /** `StopTunnelAsync(t)`; `failure` is the message of the exception the
        service's stop throws, if it does. On success the record leaves the
        list and the list is saved; on failure it stays, in "Error". */
    method StopTunnel(t: Tunnel, failure: Option<string>)
      requires Valid()
      modifies this
      ensures Valid()
      ensures failure.None? ==> tunnels == Without(old(tunnels), t.id) && saved == Persisted(tunnels)
      ensures failure.Some? ==> saved == old(saved) && (IndexOf(old(tunnels), t.id) < |old(tunnels)| ==>
        tunnels == Replaced(old(tunnels), t.id, Failed(old(tunnels)[IndexOf(old(tunnels), t.id)], failure.value)))
      ensures failure.Some? && IndexOf(old(tunnels), t.id) == |old(tunnels)| ==> tunnels == old(tunnels)
      ensures installed == old(installed) && nextId == old(nextId) && killed == old(killed)
    {
      ghost var i := IndexOf(tunnels, t.id);
      SetStatus(t.id, Stopping);
      if failure.Some? {
        assert IndexOf(tunnels, t.id) == i;
        Fail(t.id, failure.value);
        return;
      }
      assert Without(tunnels, t.id) == Without(old(tunnels), t.id);
      Remove(t.id);
      SaveActiveTunnels();
    }

    /** `RestartTunnelAsync(t)`: the record is stopped and removed, without
        a save, and a new start is made for its port; a failed stop leaves
        the record in "Error" instead. */
    method RestartTunnel(t: Tunnel, stopFailure: Option<string>, startFailure: Option<string>)
      requires Valid()
      modifies this
      ensures Valid()
      ensures stopFailure.Some? ==> (saved == old(saved) && nextId == old(nextId)
        && (IndexOf(old(tunnels), t.id) < |old(tunnels)| ==>
          tunnels == Replaced(old(tunnels), t.id, Failed(old(tunnels)[IndexOf(old(tunnels), t.id)], stopFailure.value)))
        && (IndexOf(old(tunnels), t.id) == |old(tunnels)| ==> tunnels == old(tunnels)))
      ensures stopFailure.None? ==>
        tunnels == AfterStart(Without(old(tunnels), t.id), t.port, old(nextId), installed, startFailure)
        && saved == SavedAfterStart(Without(old(tunnels), t.id), old(saved), t.port, old(nextId), installed)
      ensures installed == old(installed) && killed == old(killed)
    {
      ghost var i := IndexOf(tunnels, t.id);
      SetStatus(t.id, Stopping);
      if stopFailure.Some? {
        assert IndexOf(tunnels, t.id) == i;
        Fail(t.id, stopFailure.value);
        return;
      }
      assert Without(tunnels, t.id) == Without(old(tunnels), t.id);
      Remove(t.id);
      StartTunnel(t.port, startFailure);
    }

    /** `StopAllTunnelsAsync`: every record is marked "Stopping"; then, if
        the service's stop-all does not throw, the list is cleared and an
        empty list saved. */
    method StopAllTunnels(fails: bool)
      requires Valid()
      modifies this
      ensures Valid()
      ensures fails ==> tunnels == AllStopping(old(tunnels)) && saved == old(saved)
      ensures !fails ==> tunnels == [] && saved == []
      ensures installed == old(installed) && nextId == old(nextId) && killed == old(killed)
    {
      MarkAllStopping();
      if fails {
        return;
      }
      tunnels := [];
      saved := [];
    }

    /** The loop of `StopAllTunnelsAsync` over a copy of the list. */
    method MarkAllStopping()
      requires Valid()
      modifies this
      ensures Valid()
      ensures tunnels == AllStopping(old(tunnels))
      ensures saved == old(saved) && installed == old(installed) && nextId == old(nextId) && killed == old(killed)
    {
      var copy := tunnels;
      var i := 0;
      StoppingStart(copy);
      while i < |copy|
        invariant 0 <= i <= |copy|
        invariant tunnels == AllStopping(copy[..i]) + copy[i..]
        invariant saved == old(saved) && installed == old(installed) && nextId == old(nextId) && killed == old(killed)
      {
        StoppingStep(copy, i);
        MarkStopping(i);
        i := i + 1;
      }
      StoppingDone(copy, nextId);
    }

    /** One turn of that loop: the record at `i` marked "Stopping". */
    method MarkStopping(i: int)
      requires 0 <= i < |tunnels|
      modifies this
      ensures tunnels == old(tunnels)[i := old(tunnels)[i].(status := Stopping)]
      ensures saved == old(saved) && installed == old(installed) && nextId == old(nextId) && killed == old(killed)
    {
      tunnels := tunnels[i := tunnels[i].(status := Stopping)];
    }

    /** `InitializeAsync`: a record for each saved record (see
        `RestoredEntry`), then the kill of the orphaned cloudflared
        processes among `cloudflared`, the processes running at the start.
        Nothing is saved. */
    method Initialize(savedTunnels: seq<Tunnel>, existing: map<int, ProcessInfo>, failures: map<nat, string>,
                      cloudflared: seq<int>, commandLines: map<int, string>)
      requires Valid()
      modifies this
      ensures Valid()
      ensures tunnels == old(tunnels) + RestoredList(savedTunnels, old(nextId), existing, installed, failures)
      ensures nextId == old(nextId) + |savedTunnels|
      ensures killed == old(killed) + OrphansToKill(cloudflared, MatchedPids(savedTunnels, existing), commandLines)
      ensures saved == old(saved) && installed == old(installed)
    {
      var matched := RestoreAll(savedTunnels, existing, failures);
      assert matched == MatchedPids(savedTunnels, existing);
      KillOrphans(cloudflared, matched, commandLines);
    }

    /** The loop of `InitializeAsync` over the saved records; it returns
        the process ids matched. */
    method RestoreAll(savedTunnels: seq<Tunnel>, existing: map<int, ProcessInfo>, failures: map<nat, string>)
      returns (matched: set<int>)
      requires Valid()
      modifies this
      ensures Valid()
      ensures tunnels == old(tunnels) + RestoredList(savedTunnels, old(nextId), existing, installed, failures)
      ensures nextId == old(nextId) + |savedTunnels|
      ensures matched == MatchedPids(savedTunnels, existing)
      ensures saved == old(saved) && installed == old(installed) && killed == old(killed)
    {
      matched := {};
      var i := 0;
      RestoreStart(savedTunnels, old(nextId), existing, installed, failures);
      while i < |savedTunnels|
        invariant 0 <= i <= |savedTunnels|
        invariant tunnels == old(tunnels) + RestoredList(savedTunnels[..i], old(nextId), existing, installed, failures)
        invariant nextId == old(nextId) + i
        invariant matched == MatchedPids(savedTunnels[..i], existing)
        invariant saved == old(saved) && installed == old(installed) && killed == old(killed)
      {
        RestoredListSnoc(savedTunnels, old(nextId), existing, installed, failures, i);
        MatchedSnoc(savedTunnels, existing, i);
        var found := RestoreNext(savedTunnels[i], existing, Lookup(failures, i));
        if found.Some? {
          matched := matched + {found.value.pid};
        }
        i := i + 1;
      }
      RestoreDone(old(tunnels), old(nextId), savedTunnels, existing, installed, failures);
    }

    /** One turn of that loop: the record restored for `s`, with the
        process found for its port. */
    method RestoreNext(s: Tunnel, existing: map<int, ProcessInfo>, failure: Option<string>)
      returns (found: Option<ProcessInfo>)
      modifies this
      ensures found == Lookup(existing, s.port)
      ensures tunnels == old(tunnels) + [RestoredEntry(old(nextId), s, found, installed, failure)]
      ensures nextId == old(nextId) + 1
      ensures saved == old(saved) && installed == old(installed) && killed == old(killed)
    {
      found := Lookup(existing, s.port);
      tunnels := tunnels + [RestoredEntry(nextId, s, found, installed, failure)];
      nextId := nextId + 1;
    }

    /** The clean-up loop of `InitializeAsync`. */
    method KillOrphans(cloudflared: seq<int>, matched: set<int>, commandLines: map<int, string>)
      modifies this
      ensures killed == old(killed) + OrphansToKill(cloudflared, matched, commandLines)
      ensures tunnels == old(tunnels) && saved == old(saved) && installed == old(installed) && nextId == old(nextId)
    {
      var i := 0;
      assert cloudflared[..0] == [];
      while i < |cloudflared|
        invariant 0 <= i <= |cloudflared|
        invariant killed == old(killed) + OrphansToKill(cloudflared[..i], matched, commandLines)
        invariant tunnels == old(tunnels) && saved == old(saved) && installed == old(installed) && nextId == old(nextId)
      {
        OrphansSnoc(cloudflared, matched, commandLines, i);
        var pid := cloudflared[i];
        if pid !in matched && pid in commandLines
           && Contains(commandLines[pid], "tunnel") && Contains(commandLines[pid], "--url") {
          killed := killed + [pid];
        }
        i := i + 1;
      }
      TakeAll(cloudflared);
    }
  }

  /** The matched ids of one more saved record. */
  lemma MatchedSnoc(saved: seq<Tunnel>, existing: map<int, ProcessInfo>, i: int)
    requires 0 <= i < |saved|
    ensures MatchedPids(saved[..i + 1], existing) ==
      MatchedPids(saved[..i], existing) + (if saved[i].port in existing then {existing[saved[i].port].pid} else {})
  {
    var a, b := saved[..i + 1], saved[..i];
    forall p | p in MatchedPids(a, existing)
      ensures p in MatchedPids(b, existing) + (if saved[i].port in existing then {existing[saved[i].port].pid} else {})
    {
      var j :| 0 <= j < |a| && a[j].port in existing && existing[a[j].port].pid == p;
      if j < i {
        assert b[j] == a[j];
      }
    }
    forall p | p in MatchedPids(b, existing) ensures p in MatchedPids(a, existing) {
      var j :| 0 <= j < |b| && b[j].port in existing && existing[b[j].port].pid == p;
      assert a[j] == b[j];
    }
    if saved[i].port in existing {
      assert a[i] == saved[i];
    }
  }
}
