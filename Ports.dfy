/** The port list shared by both versions of the port scanner: what the
    operating system shows the scanner, and the list operations the two
    versions perform alike (lookup of the first entry for a port, the
    favourite and watch toggles, removal after a kill). */
module Ports {
  import opened Common
  import opened Models

  /** An active TCP listener; `address` is `None` when the listener has none. */
  datatype Listener = Listener(port: int, address: Option<string>)

  function ListenerPort(l: Listener): int {
    l.port
  }

  /** A process as the scanner sees it. `name` is `None` when reading
      `ProcessName` throws; `mainModule` is `None` when reading `MainModule`
      throws and `Some(None)` when it (or its file name) is null. */
  datatype ProcessInfo = ProcessInfo(pid: int, name: Option<string>, mainModule: Option<Option<string>>)

  /** `MainModule?.FileName ?? string.Empty`, with a throw read as empty. */
  function CommandOf(p: ProcessInfo): string {
    match p.mainModule
    case Some(Some(f)) => f
    case _ => ""
  }

  /** The index of the first entry for `port` (`FirstOrDefault`), or `|items|`. */
  function FirstIndexOfPort(items: seq<PortInfo>, port: int): (i: nat)
    ensures i <= |items|
    ensures i < |items| ==> items[i].port == port
    ensures forall j :: 0 <= j < i ==> items[j].port != port
  {
    FirstWithKey(items, PortOf, port)
  }

  function PortOf(e: PortInfo): int {
    e.port
  }

  /** The ports the list holds. */
  function PortsOf(items: seq<PortInfo>): set<int> {
    KeySet(items, PortOf)
  }

  predicate UniquePorts(items: seq<PortInfo>) {
    forall i, j :: 0 <= i < j < |items| ==> items[i].port != items[j].port
  }

  /** Every entry's flags agree with the favourite and watched sets. */
  predicate FlagsMatch(items: seq<PortInfo>, favorites: set<int>, watched: set<int>) {
    forall i :: 0 <= i < |items| ==>
      (items[i].isFavorite <==> items[i].port in favorites) && (items[i].isWatched <==> items[i].port in watched)
  }

  /** The list and the favourite set after toggling `port`: nothing when the
      port is not listed, otherwise the membership flips and the first entry
      for the port takes the new membership as its flag. */
  function FavoriteToggled(items: seq<PortInfo>, favorites: set<int>, port: int): (seq<PortInfo>, set<int>) {
    var i := FirstIndexOfPort(items, port);
    if i == |items| then (items, favorites)
    else
      var f := Toggle(favorites, port);
      (items[i := items[i].(isFavorite := port in f)], f)
  }

  /** The same for the watched set and flag. */
  function WatchToggled(items: seq<PortInfo>, watched: set<int>, port: int): (seq<PortInfo>, set<int>) {
    var i := FirstIndexOfPort(items, port);
    if i == |items| then (items, watched)
    else
      var w := Toggle(watched, port);
      (items[i := items[i].(isWatched := port in w)], w)
  }

  /** The list after `KillPort`: the first entry for the port is removed
      when the kill went through, and nothing changes otherwise. */
  function Killed(items: seq<PortInfo>, port: int, killOk: bool): seq<PortInfo> {
    var i := FirstIndexOfPort(items, port);
    if i < |items| && killOk then items[..i] + items[i + 1..] else items
  }

  /** An unlisted port is left alone; a listed one flips membership and the
      flag of its first entry follows the new membership. */
  lemma FavoriteToggledSpec(items: seq<PortInfo>, favorites: set<int>, port: int)
    ensures var (r, f) := FavoriteToggled(items, favorites, port);
      |r| == |items| && PortsOf(r) == PortsOf(items) &&
      (port !in PortsOf(items) ==> r == items && f == favorites) &&
      (port in PortsOf(items) ==>
        f == Toggle(favorites, port) &&
        r[FirstIndexOfPort(items, port)].isFavorite == (port in f) &&
        forall j :: 0 <= j < |items| && j != FirstIndexOfPort(items, port) ==> r[j] == items[j])
  {
    var i := FirstIndexOfPort(items, port);
    var (r, f) := FavoriteToggled(items, favorites, port);
    if i == |items| {
      assert port !in PortsOf(items);
    } else {
      assert port in PortsOf(items);
      forall x | x in PortsOf(items) ensures x in PortsOf(r) {
        var k :| 0 <= k < |items| && items[k].port == x;
        assert r[k].port == x;
      }
      forall x | x in PortsOf(r) ensures x in PortsOf(items) {
        var k :| 0 <= k < |r| && r[k].port == x;
        assert items[k].port == x;
      }
    }
  }

  lemma WatchToggledSpec(items: seq<PortInfo>, watched: set<int>, port: int)
    ensures var (r, w) := WatchToggled(items, watched, port);
      |r| == |items| && PortsOf(r) == PortsOf(items) &&
      (port !in PortsOf(items) ==> r == items && w == watched) &&
      (port in PortsOf(items) ==>
        w == Toggle(watched, port) &&
        r[FirstIndexOfPort(items, port)].isWatched == (port in w) &&
        forall j :: 0 <= j < |items| && j != FirstIndexOfPort(items, port) ==> r[j] == items[j])
  {
    var i := FirstIndexOfPort(items, port);
    var (r, w) := WatchToggled(items, watched, port);
    if i == |items| {
      assert port !in PortsOf(items);
    } else {
      assert port in PortsOf(items);
      forall x | x in PortsOf(items) ensures x in PortsOf(r) {
        var k :| 0 <= k < |items| && items[k].port == x;
        assert r[k].port == x;
      }
      forall x | x in PortsOf(r) ensures x in PortsOf(items) {
        var k :| 0 <= k < |r| && r[k].port == x;
        assert items[k].port == x;
      }
    }
  }

  /** Toggling the same port twice restores both the set and the flag, when
      the flag agreed with the set to begin with. */
  lemma FavoriteToggledTwice(items: seq<PortInfo>, favorites: set<int>, port: int)
    requires FirstIndexOfPort(items, port) < |items| ==>
      items[FirstIndexOfPort(items, port)].isFavorite == (port in favorites)
    ensures var (r, f) := FavoriteToggled(items, favorites, port); FavoriteToggled(r, f, port) == (items, favorites)
  {
    var i := FirstIndexOfPort(items, port);
    if i < |items| {
      var (r, f) := FavoriteToggled(items, favorites, port);
      FirstIndexUnchanged(items, r, port);
      ToggleTwice(favorites, port);
      assert r[i := r[i].(isFavorite := port in favorites)] == items;
    }
  }

  lemma WatchToggledTwice(items: seq<PortInfo>, watched: set<int>, port: int)
    requires FirstIndexOfPort(items, port) < |items| ==>
      items[FirstIndexOfPort(items, port)].isWatched == (port in watched)
    ensures var (r, w) := WatchToggled(items, watched, port); WatchToggled(r, w, port) == (items, watched)
  {
    var i := FirstIndexOfPort(items, port);
    if i < |items| {
      var (r, w) := WatchToggled(items, watched, port);
      FirstIndexUnchanged(items, r, port);
      ToggleTwice(watched, port);
      assert r[i := r[i].(isWatched := port in watched)] == items;
    }
  }

  /** Lists with the same ports position by position have the same first index. */
  lemma {:induction false} FirstIndexUnchanged(a: seq<PortInfo>, b: seq<PortInfo>, port: int)
    requires |a| == |b| && forall k :: 0 <= k < |a| ==> a[k].port == b[k].port
    ensures FirstIndexOfPort(a, port) == FirstIndexOfPort(b, port)
    decreases |a|
  {
    if a != [] && a[0].port != port {
      FirstIndexUnchanged(a[1..], b[1..], port);
    }
  }

  /** On a list with one entry per port, the toggles keep every flag in
      agreement with its set. */
  lemma TogglesKeepFlagsMatch(items: seq<PortInfo>, favorites: set<int>, watched: set<int>, port: int)
    requires UniquePorts(items) && FlagsMatch(items, favorites, watched)
    ensures var (r, f) := FavoriteToggled(items, favorites, port); UniquePorts(r) && FlagsMatch(r, f, watched)
    ensures var (r, w) := WatchToggled(items, watched, port); UniquePorts(r) && FlagsMatch(r, favorites, w)
  {
    var i := FirstIndexOfPort(items, port);
    if i < |items| {
      var (r, f) := FavoriteToggled(items, favorites, port);
      forall j | 0 <= j < |r| ensures (r[j].isFavorite <==> r[j].port in f) && (r[j].isWatched <==> r[j].port in watched) {
        if j != i {
          assert items[j].port != port;
        }
      }
      var (r2, w) := WatchToggled(items, watched, port);
      forall j | 0 <= j < |r2| ensures (r2[j].isFavorite <==> r2[j].port in favorites) && (r2[j].isWatched <==> r2[j].port in w) {
        if j != i {
          assert items[j].port != port;
        }
      }
    }
  }

  /** On a list with one entry per port, a successful kill removes exactly
      that port and keeps every other entry in order; a failed kill or an
      unlisted port changes nothing. */
  lemma KilledSpec(items: seq<PortInfo>, favorites: set<int>, watched: set<int>, port: int, killOk: bool)
    requires UniquePorts(items)
    ensures var r := Killed(items, port, killOk);
      UniquePorts(r) &&
      (FlagsMatch(items, favorites, watched) ==> FlagsMatch(r, favorites, watched)) &&
      (killOk ==> PortsOf(r) == PortsOf(items) - {port}) &&
      (!killOk ==> r == items) &&
      (port !in PortsOf(items) ==> r == items) &&
      forall x :: x in items && x.port != port ==> x in r
  {
    var i := FirstIndexOfPort(items, port);
    var r := Killed(items, port, killOk);
    if i == |items| {
      assert port !in PortsOf(items);
    } else if killOk {
      assert r == items[..i] + items[i + 1..];
      forall k | 0 <= k < |r| ensures r[k] == items[if k < i then k else k + 1] {
      }
      forall x | x in PortsOf(items) - {port} ensures x in PortsOf(r) {
        var k :| 0 <= k < |items| && items[k].port == x;
        assert k != i;
        assert r[if k < i then k else k - 1] == items[k];
      }
      forall x | x in PortsOf(r) ensures x in PortsOf(items) - {port} {
        var k :| 0 <= k < |r| && r[k].port == x;
        assert items[if k < i then k else k + 1].port == x;
      }
      forall x | x in items && x.port != port ensures x in r {
        var k :| 0 <= k < |items| && items[k] == x;
        assert r[if k < i then k else k - 1] == x;
      }
    }
  }
}
