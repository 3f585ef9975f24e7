/** What the Blazor tunnel service sees of the machine, as values: the file
    system and `where` for locating cloudflared, the process table, and one
    launched cloudflared process's observable behaviour. Also the pure
    helpers built on them (the binary lookup and the uptime text), the
    errors the service throws, and the outcome of the 20-second wait for a
    URL as a function of the launched process. */
module TunnelHost {
  import opened Common
  import opened Strings
  import opened TunnelOutput

  // ---------------------------------------------------------------------
  // Locating the binary
  // ---------------------------------------------------------------------

  /** The outcome of running `where cloudflared`: it could not be run, or it
      ran with an exit code and a standard output. */
  datatype WhereResult = WhereFailed | WhereDone(exitCode: int, output: string)

  /** `existing` is the set of paths `File.Exists` accepts; `File.Exists("")`
      is false, so the empty path is missing whatever the set holds. */
  datatype FileSystem = FileSystem(existing: set<string>, localAppData: string, where: WhereResult)

  const CloudflaredUnder: string := "cloudflared\\cloudflared.exe"

  /** `Path.Combine` on Windows in .NET Core and later, for a relative second
      part: a backslash is inserted unless the first part is empty or already
      ends in a backslash or a slash. */
  function Combine(a: string, b: string): string {
    if a == [] then b
    else if a[|a| - 1] == '\\' || a[|a| - 1] == '/' then a + b
    else a + "\\" + b
  }

  /** The fixed candidate list, in order. */
  function Candidates(fs: FileSystem): seq<string> {
    [ "C:\\Program Files\\cloudflared\\cloudflared.exe",
      "C:\\Program Files (x86)\\cloudflared\\cloudflared.exe",
      "C:\\ProgramData\\chocolatey\\bin\\cloudflared.exe",
      Combine(fs.localAppData, CloudflaredUnder),
      "cloudflared.exe" ]
  }

  /** The first entry of `paths` that exists. */
  function FirstExisting(paths: seq<string>, existing: set<string>): (r: Option<string>)
    ensures r.Some? ==> exists i :: 0 <= i < |paths| && paths[i] == r.value && r.value in existing
                          && forall j :: 0 <= j < i ==> paths[j] !in existing
    ensures r.None? ==> forall i :: 0 <= i < |paths| ==> paths[i] !in existing
  {
    if paths == [] then None
    else if paths[0] in existing then Some(paths[0])
    else
      var r := FirstExisting(paths[1..], existing);
      assert forall i :: 1 <= i < |paths| ==> paths[i] == paths[1..][i - 1];
      r
  }

  /** The first line of `where`'s output, trimmed. */
  function WherePath(output: string): string {
    Trim(BeforeChar(output, '\n'))
  }

  /** `GetCloudflaredPath`: the first existing entry among all candidates but
      the last, else the first line `where` prints when it succeeds with
      non-blank output and that path exists. */
  function CloudflaredPath(fs: FileSystem): Option<string> {
    var present := fs.existing - {""};
    var explicit := FirstExisting(Candidates(fs)[..4], present);
    if explicit.Some? then explicit
    else
      match fs.where
      case WhereDone(code, out) =>
        if code == 0 && !IsWhiteSpaceOnly(out) && WherePath(out) in present then Some(WherePath(out)) else None
      case WhereFailed => None
  }

  /** The path taken from `where` is its first line with the white space
      around it removed: it neither starts nor ends with white space, and it
      is empty exactly when that line is blank. */
  lemma WherePathTrimmed(output: string)
    ensures var p := WherePath(output); p != [] ==> !IsWhiteSpace(p[0]) && !IsWhiteSpace(p[|p| - 1])
    ensures WherePath(output) == [] <==> IsWhiteSpaceOnly(BeforeChar(output, '\n'))
  {
    TrimIsCore(BeforeChar(output, '\n'));
  }

  /** A path found exists and is not empty; an existing explicit candidate
      wins over `where`, the earliest one first. */
  lemma CloudflaredPathSpec(fs: FileSystem)
    ensures CloudflaredPath(fs).Some? ==> CloudflaredPath(fs).value in fs.existing && CloudflaredPath(fs).value != ""
    ensures forall i :: 0 <= i < 4 && Candidates(fs)[i] in fs.existing ==>
      CloudflaredPath(fs).Some? && CloudflaredPath(fs).value in Candidates(fs)[..i + 1]
  {
    var c := Candidates(fs)[..4];
    forall i | 0 <= i < 4 && Candidates(fs)[i] in fs.existing
      ensures CloudflaredPath(fs).Some? && CloudflaredPath(fs).value in Candidates(fs)[..i + 1]
    {
      assert c[i] == Candidates(fs)[i];
      assert c[i] != "";
      var r := FirstExisting(c, fs.existing - {""});
      var k :| 0 <= k < |c| && c[k] == r.value && r.value in fs.existing - {""}
        && forall j :: 0 <= j < k ==> c[j] !in fs.existing - {""};
      assert k <= i;
      assert Candidates(fs)[..i + 1][k] == r.value;
    }
  }

  /** The bare `cloudflared.exe` entry is never consulted, so on its own it
      yields nothing. */
  lemma BareNameNotConsulted(fs: FileSystem)
    ensures fs.existing == {"cloudflared.exe"} && fs.where.WhereFailed? ==> CloudflaredPath(fs).None?
  {
    var c := Candidates(fs)[..4];
    if fs.existing == {"cloudflared.exe"} {
      forall i | 0 <= i < 4 ensures c[i] != "cloudflared.exe" {
        if i == 3 {
          assert |CloudflaredUnder| == 27;
          assert |Combine(fs.localAppData, CloudflaredUnder)| >= 27;
        }
      }
    }
  }

  // ---------------------------------------------------------------------
  // The uptime text
  // ---------------------------------------------------------------------

  /** Integer division truncating toward zero, as C# does. */
  function TruncDiv(a: int, b: int): int
    requires b > 0
  {
    if a >= 0 then a / b else -((-a) / b)
  }

  function TruncRem(a: int, b: int): int
    requires b > 0
  {
    a - TruncDiv(a, b) * b
  }

  /** The `Days`, `Hours`, `Minutes` and `Seconds` of a `TimeSpan` of whole seconds. */
  datatype Span = Span(days: int, hours: int, minutes: int, seconds: int)

  function Components(total: int): (c: Span)
    ensures c.days * 86400 + c.hours * 3600 + c.minutes * 60 + c.seconds == total
    ensures total >= 0 ==> c.days >= 0 && 0 <= c.hours < 24 && 0 <= c.minutes < 60 && 0 <= c.seconds < 60
    ensures total <= 0 ==> c.days <= 0 && -24 < c.hours <= 0 && -60 < c.minutes <= 0 && -60 < c.seconds <= 0
  {
    var d := TruncDiv(total, 86400);
    var th := TruncDiv(total, 3600);
    var tm := TruncDiv(total, 60);
    var n: nat := if total >= 0 then total else -total;
    MagnitudeParts(n);
    Span(d, TruncRem(th, 24), TruncRem(tm, 60), TruncRem(total, 60))
  }

  /** Days, hours, minutes and seconds of a non-negative number of seconds. */
  lemma MagnitudeParts(n: nat)
    ensures n / 3600 == (n / 60) / 60 && n / 86400 == (n / 3600) / 24
    ensures (n / 86400) * 86400 + ((n / 3600) % 24) * 3600 + ((n / 60) % 60) * 60 + n % 60 == n
  {
    var s, m := n % 60, n / 60;
    var mm, h := m % 60, m / 60;
    var hh, d := h % 24, h / 24;
    assert n == 60 * m + s;
    assert m == 60 * h + mm;
    assert h == 24 * d + hh;
    assert n == 3600 * h + 60 * mm + s;
    assert n == 86400 * d + 3600 * hh + 60 * mm + s;
  }

  /** `FormatUptime` over an uptime of `total` whole seconds. */
  function FormatUptime(total: int): string {
    var c := Components(total);
    if total >= 86400 then
      IntToString(c.days) + "d " + IntToString(c.hours) + "h " + IntToString(c.minutes) + "m"
    else if total >= 3600 then
      IntToString(c.hours) + "h " + IntToString(c.minutes) + "m " + IntToString(c.seconds) + "s"
    else
      IntToString(c.minutes) + "m " + IntToString(c.seconds) + "s"
  }

  /** An uptime of at least a day shows its days, hours and minutes. */
  lemma FormatUptimeDays(d: int, h: int, m: int, sec: int)
    requires d >= 1 && 0 <= h < 24 && 0 <= m < 60 && 0 <= sec < 60
    ensures FormatUptime(d * 86400 + h * 3600 + m * 60 + sec)
      == IntToString(d) + "d " + IntToString(h) + "h " + IntToString(m) + "m"
  {
    var c := Components(d * 86400 + h * 3600 + m * 60 + sec);
    assert c.days == d && c.hours == h && c.minutes == m;
  }

  /** An uptime of at least an hour and less than a day shows its hours,
      minutes and seconds. */
  lemma FormatUptimeHours(h: int, m: int, sec: int)
    requires 1 <= h < 24 && 0 <= m < 60 && 0 <= sec < 60
    ensures FormatUptime(h * 3600 + m * 60 + sec)
      == IntToString(h) + "h " + IntToString(m) + "m " + IntToString(sec) + "s"
  {
    var c := Components(h * 3600 + m * 60 + sec);
    assert c.days == 0;
    assert c.hours == h && c.minutes == m && c.seconds == sec;
  }

  /** A shorter uptime shows its minutes and seconds. */
  lemma FormatUptimeMinutes(m: int, sec: int)
    requires 0 <= m < 60 && 0 <= sec < 60
    ensures FormatUptime(m * 60 + sec) == IntToString(m) + "m " + IntToString(sec) + "s"
  {
    var c := Components(m * 60 + sec);
    assert c.days == 0 && c.hours == 0;
    assert c.minutes == m && c.seconds == sec;
  }

  // ---------------------------------------------------------------------
  // Processes
  // ---------------------------------------------------------------------

  datatype OsProcess = OsProcess(hasExited: bool, commandLine: Option<string>, startTime: int)

  /** The process table at one moment: what is known of each live id, and
      the ids `GetProcessesByName("cloudflared")` lists, in its order. */
  datatype Os = Os(procs: map<int, OsProcess>, cloudflared: seq<int>)

  /** A process that is gone counts as exited. */
  predicate HasExited(os: Os, pid: int) {
    pid !in os.procs || os.procs[pid].hasExited
  }

  /** `GetProcessCommandLine`: none when the query finds nothing. */
  function CommandLine(os: Os, pid: int): Option<string> {
    if pid in os.procs then os.procs[pid].commandLine else None
  }

  function StartTimeOf(os: Os, pid: int): int {
    if pid in os.procs then os.procs[pid].startTime else 0
  }

  /** The argument cloudflared is started with for `port`. */
  function UrlArgument(port: int): string {
    "--url localhost:" + IntToString(port)
  }

  /** The command line contains `--url localhost:<port>` as a substring, so a
      longer port whose digits start with those of `port` (8080 for 80) also
      matches `port`. */
  predicate RunsTunnelFor(os: Os, pid: int, port: int) {
    CommandLine(os, pid).Some? && Contains(CommandLine(os, pid).value, UrlArgument(port))
  }

  /** A tunnel for the port `10 * port + d` counts as a tunnel for `port`. */
  lemma LongerPortRunsTunnelFor(os: Os, pid: int, port: nat, d: nat)
    requires port > 0 && d < 10 && RunsTunnelFor(os, pid, 10 * port + d)
    ensures RunsTunnelFor(os, pid, port)
  {
    AppendDigitRendering(port, d);
    assert UrlArgument(10 * port + d) == UrlArgument(port) + [DigitChar(d)];
    ContainsShorter(CommandLine(os, pid).value, UrlArgument(port), [DigitChar(d)]);
  }

  /** The cloudflared serving port 8080 counts as serving port 80. */
  lemma Tunnel8080RunsFor80(os: Os, pid: int)
    requires RunsTunnelFor(os, pid, 8080)
    ensures RunsTunnelFor(os, pid, 80)
  {
    LongerPortRunsTunnelFor(os, pid, 808, 0);
    LongerPortRunsTunnelFor(os, pid, 80, 8);
  }

  /** A launched cloudflared: either `Process.Start` throws with a message,
      or it runs as `pid`, printing `startup` during the one-second pause,
      possibly having exited by then (with `exitCode`), then printing
      `ticks[k]` before the `k`-th poll of the wait loop, and reporting
      `HasExited` from poll `exitAt` on. */
  datatype Launch =
    | LaunchFailed(message: string)
    | Launched(pid: int, startup: seq<string>, exitedAtStartup: bool, exitCode: int,
               ticks: seq<seq<string>>, exitAt: Option<nat>)

  function TickLines(l: Launch, k: nat): seq<string>
    requires l.Launched?
  {
    if k < |l.ticks| then l.ticks[k] else []
  }

  /** Every line delivered before poll `k`. */
  function LinesBefore(l: Launch, k: nat): seq<string>
    requires l.Launched?
  {
    if k == 0 then [] else LinesBefore(l, k - 1) + TickLines(l, k - 1)
  }

  predicate ExitedBy(l: Launch, k: nat)
    requires l.Launched?
  {
    l.exitAt.Some? && l.exitAt.value <= k
  }

  // ---------------------------------------------------------------------
  // Errors
  // ---------------------------------------------------------------------

  datatype TunnelError =
    | AlreadyExists(port: int)
    | NotFound(port: int)
    | NotInstalled
    | LaunchError(message: string)
    | ExitedWithCode(code: int)
    | CloudflaredError(line: string)
    | Timeout

  /** The exception message. */
  function Message(e: TunnelError): string {
    match e
    case AlreadyExists(p) => "Tunnel for port " + IntToString(p) + " already exists"
    case NotFound(p) => "No tunnel found for port " + IntToString(p)
    case NotInstalled => "cloudflared is not installed"
    case LaunchError(m) => m
    case ExitedWithCode(c) => "Cloudflared process exited with code " + IntToString(c)
    case CloudflaredError(line) => "Cloudflared error: " + line
    case Timeout => "Timeout waiting for tunnel URL"
  }

  // ---------------------------------------------------------------------
  // The wait for a URL
  // ---------------------------------------------------------------------

  /** 20 seconds of 500-millisecond polls. */
  const MaxPolls: nat := 40

  datatype WaitOutcome = GotUrl(url: string) | WaitFailed(error: TunnelError)

  /** The pending URL once the batches before poll `k` have arrived, from
      the "" it is reset to before the loop: the last URL of the latest
      batch that has one. */
  function UrlBefore(l: Launch, k: nat): string
    requires l.Launched?
  {
    if k == 0 then ""
    else
      var found := UrlAfterLines(None, TickLines(l, k - 1));
      if found.Some? then found.value else UrlBefore(l, k - 1)
  }

  function ErrorBefore(l: Launch, k: nat): string
    requires l.Launched?
  {
    if k == 0 then ""
    else
      var found := ErrorAfterLines(None, TickLines(l, k - 1));
      if found.Some? then found.value else ErrorBefore(l, k - 1)
  }

  /** Batch by batch or all at once: the pending values are those the
      output callbacks leave after every line delivered so far. */
  lemma {:induction false} PendingIsLastOfAllLines(l: Launch, k: nat)
    requires l.Launched?
    ensures UrlBefore(l, k) == UrlAfterLines(Some(""), LinesBefore(l, k)).value
    ensures ErrorBefore(l, k) == ErrorAfterLines(Some(""), LinesBefore(l, k)).value
  {
    if k > 0 {
      PendingIsLastOfAllLines(l, k - 1);
      var before, batch := LinesBefore(l, k - 1), TickLines(l, k - 1);
      AfterLinesAppend(Some(""), Some(""), before, batch);
      AfterLinesFromNone(UrlAfterLines(Some(""), before), ErrorAfterLines(Some(""), before), batch);
    }
  }

  /** The pending URL and error at poll `k`. */
  function PendingUrl(l: Launch, k: nat): string
    requires l.Launched?
  {
    UrlBefore(l, k + 1)
  }

  function PendingError(l: Launch, k: nat): string
    requires l.Launched?
  {
    ErrorBefore(l, k + 1)
  }

  /** Nothing decides poll `k`. */
  predicate Quiet(l: Launch, k: nat)
    requires l.Launched?
  {
    PendingUrl(l, k) == "" && PendingError(l, k) == "" && !ExitedBy(l, k)
  }

  /** How a poll that is not quiet ends the wait: URL first, then the
      error, then the exit. */
  function Verdict(l: Launch, k: nat): WaitOutcome
    requires l.Launched?
  {
    if PendingUrl(l, k) != "" then GotUrl(PendingUrl(l, k))
    else if PendingError(l, k) != "" then WaitFailed(CloudflaredError(PendingError(l, k)))
    else WaitFailed(ExitedWithCode(l.exitCode))
  }

  /** The loop from poll `k` on. */
  function WaitFrom(l: Launch, k: nat): WaitOutcome
    requires l.Launched?
    decreases MaxPolls - k
  {
    if k >= MaxPolls then WaitFailed(Timeout)
    else if !Quiet(l, k) then Verdict(l, k)
    else WaitFrom(l, k + 1)
  }

  function Wait(l: Launch): WaitOutcome
    requires l.Launched?
  {
    WaitFrom(l, 0)
  }

  /** The wait times out exactly when every remaining poll is quiet. */
  lemma {:induction false} WaitTimesOutIffQuiet(l: Launch, k: nat)
    requires l.Launched?
    ensures WaitFrom(l, k) == WaitFailed(Timeout) <==> forall j :: k <= j < MaxPolls ==> Quiet(l, j)
    decreases MaxPolls - k
  {
    if k < MaxPolls {
      if Quiet(l, k) {
        WaitTimesOutIffQuiet(l, k + 1);
        if forall j :: k + 1 <= j < MaxPolls ==> Quiet(l, j) {
          assert forall j :: k <= j < MaxPolls ==> Quiet(l, j);
        }
      }
    }
  }

  /** The first poll that is not quiet decides the wait. */
  lemma {:induction false} FirstLoudPollDecides(l: Launch, k: nat, j: nat)
    requires l.Launched?
    requires k <= j < MaxPolls && !Quiet(l, j)
    requires forall i :: k <= i < j ==> Quiet(l, i)
    ensures WaitFrom(l, k) == Verdict(l, j)
    decreases j - k
  {
    if k < j {
      assert Quiet(l, k);
      assert WaitFrom(l, k) == WaitFrom(l, k + 1);
      FirstLoudPollDecides(l, k + 1, j);
    } else {
      assert WaitFrom(l, k) == Verdict(l, k);
    }
  }

  /** A process that prints nothing and never exits times out. */
  lemma SilentProcessTimesOut(pid: int)
    ensures Wait(Launched(pid, [], false, 0, [], None)) == WaitFailed(Timeout)
  {
    var l := Launched(pid, [], false, 0, [], None);
    forall j | 0 <= j < MaxPolls ensures Quiet(l, j) {
      SilentLines(l, j + 1);
    }
    WaitTimesOutIffQuiet(l, 0);
  }

  lemma {:induction false} SilentLines(l: Launch, k: nat)
    requires l.Launched? && l.ticks == []
    ensures UrlBefore(l, k) == "" && ErrorBefore(l, k) == ""
    decreases k
  {
    if k > 0 {
      SilentLines(l, k - 1);
    }
  }

  /** A URL line and an error line arriving before the same poll give
      success, whichever is printed first: the URL is checked first. */
  lemma UrlBeatsErrorOnTheSameTick(pid: int, url: string, err: string)
    requires FindUrl(url) == Some(url)
    requires IsErrorLine(err) && FindUrl(err).None?
    ensures Wait(Launched(pid, [], false, 0, [[err, url]], None)) == GotUrl(url)
  {
    var a := Launched(pid, [], false, 0, [[err, url]], None);
    assert TickLines(a, 0) == [err, url];
    assert UrlAfterLines(None, [err, url]) == Some(url);
    assert PendingUrl(a, 0) == url;
  }

  lemma UrlBeatsEarlierErrorLineOnTheSameTick(pid: int, url: string, err: string)
    requires FindUrl(url) == Some(url)
    requires IsErrorLine(err) && FindUrl(err).None?
    ensures Wait(Launched(pid, [], false, 0, [[url, err]], None)) == GotUrl(url)
  {
    var b := Launched(pid, [], false, 0, [[url, err]], None);
    assert TickLines(b, 0) == [url, err];
    assert [url, err][..1] == [url];
    assert [url][..0] == [];
    assert UrlAfterLines(None, [url, err]) == Some(url);
    assert PendingUrl(b, 0) == url;
  }

  /** An error line arriving one poll before the URL line ends the wait
      with that error. */
  lemma ErrorBeforeUrlFails(pid: int, url: string, err: string)
    requires IsErrorLine(err) && FindUrl(err).None?
    ensures Wait(Launched(pid, [], false, 0, [[err], [url]], None)) == WaitFailed(CloudflaredError(err))
  {
    var c := Launched(pid, [], false, 0, [[err], [url]], None);
    assert TickLines(c, 0) == [err];
    assert [err][..0] == [];
    assert UrlAfterLines(None, [err]) == None;
    assert ErrorAfterLines(None, [err]) == Some(err);
    assert UrlBefore(c, 0) == "";
    assert PendingUrl(c, 0) == "";
    assert PendingError(c, 0) == err;
    assert |err| > 0;
  }
}
