/** The plain records of the Blazor application: a tunnel, a watched port and
    a scanned listening port. Their properties become datatype fields; an
    object initialiser `new C { F = v }` becomes a default value updated with
    `.(f := v)`. */
module Models {
  import opened Common

  /** A tunnel record. Times are whole seconds on one clock; the default
      `DateTime` is time 0. */
  datatype CloudflareTunnel = CloudflareTunnel(
    port: int,
    tunnelUrl: string,
    status: string,
    lastError: Option<string>,
    startTime: int,
    processId: int,
    uptime: string,
    tunnelName: string)
  {
    /** The derived `IsActive` property. */
    predicate IsActive() {
      status == "Active"
    }
  }

  /** A record as `new CloudflareTunnel()` leaves it. */
  function NewTunnel(): (t: CloudflareTunnel)
    ensures t.tunnelUrl == "" && t.status == "" && t.uptime == "" && t.tunnelName == ""
    ensures t.lastError == None
    ensures t.port == 0 && t.processId == 0 && t.startTime == 0
    ensures !t.IsActive()
  {
    CloudflareTunnel(0, "", "", None, 0, 0, "", "")
  }

  /** A watched port; `id` stands for the Guid the record receives. */
  datatype WatchedPort = WatchedPort(id: int, port: int, notifyOnStart: bool, notifyOnStop: bool)

  /** A record as `new WatchedPort { Port = port }` leaves it. */
  function NewWatchedPort(id: int, port: int): (w: WatchedPort)
    ensures w.id == id && w.port == port && w.notifyOnStart && w.notifyOnStop
  {
    WatchedPort(id, port, true, true)
  }

  /** One row of the port list. */
  datatype PortInfo = PortInfo(
    port: int,
    processName: string,
    pid: int,
    address: string,
    user: string,
    command: string,
    isActive: bool,
    isFavorite: bool,
    isWatched: bool,
    processType: Option<string>)
}
