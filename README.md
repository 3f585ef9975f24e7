# PortKiller core in Dafny

PortKiller lists the TCP ports listening on a Windows machine. It kills the processes that own them and marks ports as favourites or watched. It can also expose a local port to the internet through a Cloudflare quick tunnel: a `cloudflared` child process that prints a `https://….trycloudflare.com` URL.

This project models the core of the Blazor application and of the Windows view model and proves properties about that model:

- **Tunnels** (`Tunnels.dfy`): the Blazor `TunnelService`.
  - It keeps four port-keyed dictionaries: tunnel records, process handles, pending URLs and pending errors.
  - Its operations are create, stop, stop-all, restart, start-up restore, status refresh and process lookup.
  - The pieces they build on are in separate files:
    - `TunnelOutput.dfy`: classifying cloudflared's output lines (the URL pattern and the four error markers);
    - `TunnelHost.dfy`: the machine as values (file system, process table, one launched cloudflared), the 40-poll wait for a URL, the binary lookup and the uptime text.
- **WindowsTunnels** (`WindowsTunnels.dfy`): the Windows `TunnelViewModel`.
  - It runs the same lifecycle over an observable list of records.
  - Its tunnel service and settings service are not part of this model. What they do reaches each operation as a parameter: the exception a call throws, the processes found at start-up.
- **PortScanner** (`PortScanner.dfy`): the Blazor port scanner. It works in these steps:
  - it deduplicates the listeners, keeping the first per port;
  - it parses netstat output for the owning PID;
  - it swaps the port list only when the scan completes;
  - it toggles favourite and watch membership and persists it.
- **PortScannerBackup** (`PortScannerBackup.dfy`): the earlier scanner kept in `backup_Services`.
  - It clears the list first and keeps duplicate ports.
  - Its process lookup ignores the port.
  - `GetPorts` returns the live list.
- **Ports** (`Ports.dfy`): the list operations both scanners share: first entry for a port, the toggles, removal after a kill.
- **Settings** (`Settings.dfy`): the settings file as one stored value holding a three-list document, with read-modify-write saves.
- **Theme** (`Theme.dfy`) and **Notifications** (`Notifications.dfy`): the theme toggle with its change event, and the notification builders with their FIFO queue.
- **Models** (`Models.dfy`): the `CloudflareTunnel`, `WatchedPort` and `PortInfo` records. **Common** and **Strings** hold shared vocabulary: option and result types, ordered keys, and the .NET string operations used.

Stateful services are Dafny classes whose fields the methods update.

- Each method states its whole new state in terms of specification functions of the old state.
- Lemmas then prove what the program promises about those functions.
- Record types the program mutates through shared references are values here. A changed record is written back under its key or position.

Where the code and its intended behaviour differ, the model follows the code:

- Each poll checks the pending URL before the pending error, so a URL and an error arriving before the same poll give success.
- Every URL line overwrites the pending URL, so the last one wins, not the first.
- There are exactly four error markers: "error", "failed", "unable to" and "permission denied".
- The Blazor start-up restore marks saved tunnels without a running process "Inactive". It does not start them again.
- A failed Blazor restart marks only the old, already detached record "Error". The new "Starting"/"Active" record stays registered.
- The orphan clean-up in the Blazor service never kills anything, because its kill is commented out.
- Both port lookups are substring tests, so a longer port whose digits start with those of the port matches too. A cloudflared whose command line holds `--url localhost:8080` counts as the tunnel for port 80, and a netstat line for `0.0.0.0:8080` yields its PID as the owner of port 80.

## Model

| member | source | states |
|---|---|---|
| Models.NewTunnel | platforms/blazor/PortKiller.Blazor/Models/CloudflareTunnel.cs:5-16 | a new record has empty URL, status, uptime and name, no last error, zero port, pid and start time, and is not active |
| Models.NewWatchedPort | platforms/blazor/PortKiller.Blazor/Models/WatchedPort.cs:5-18 | a new watch record is for the given port and notifies on both start and stop |
| Settings.UnreadableReadsEmpty | platforms/blazor/PortKiller.Blazor/Services/SettingsService.cs:32-46 | a missing or unreadable settings file makes every getter return an empty collection |
| Settings.FavoritesAreTheStoredList | platforms/blazor/PortKiller.Blazor/Services/SettingsService.cs:60-64 | the favourites read back are exactly the integers of the stored list, each once, however often the list repeats them |
| Settings.SaveFavoritesRoundTrip | platforms/blazor/PortKiller.Blazor/Services/SettingsService.cs:66-71 | after a successful save the favourites read back are the set saved and the other two lists are unchanged; a failed write leaves the file as it was |
| Settings.SaveWatchedPortsRoundTrip | platforms/blazor/PortKiller.Blazor/Services/SettingsService.cs:79-84 | the same round trip for the watch list |
| Settings.SaveActiveTunnelsRoundTrip | platforms/blazor/PortKiller.Blazor/Services/SettingsService.cs:92-97 | the same round trip for the tunnel list |
| Settings.ActiveTunnelsLastWriteWins | platforms/blazor/PortKiller.Blazor/Services/SettingsService.cs:92-97 | of two saves of the tunnel list only the later one shows |
| Settings.ClearedReadsEmpty | platforms/blazor/PortKiller.Blazor/Services/SettingsService.cs:99-111 | after a successful clear every getter reads empty; a failed delete leaves the file as it was |
| Settings.SettingsStore.constructor | platforms/blazor/PortKiller.Blazor/Services/SettingsService.cs:15-23 | the service starts over the given settings file |
| Settings.SettingsStore.SaveSettingsData | platforms/blazor/PortKiller.Blazor/Services/SettingsService.cs:48-58 | the file holds the document when the write goes through and is unchanged when it fails; nothing is thrown |
| Settings.SettingsStore.SaveFavorites | platforms/blazor/PortKiller.Blazor/Services/SettingsService.cs:66-71 | the file after loading the document, replacing the favourites and writing it back |
| Settings.SettingsStore.SaveWatchedPorts | platforms/blazor/PortKiller.Blazor/Services/SettingsService.cs:79-84 | the file after loading the document, replacing the watch list and writing it back |
| Settings.SettingsStore.SaveActiveTunnels | platforms/blazor/PortKiller.Blazor/Services/SettingsService.cs:92-97 | the file after loading the document, replacing the tunnel list and writing it back |
| Settings.SettingsStore.ClearAllSettings | platforms/blazor/PortKiller.Blazor/Services/SettingsService.cs:99-111 | an existing file is deleted when the delete goes through, and kept when it fails |
| Theme.Toggled | platforms/blazor/PortKiller.Blazor/Services/ThemeService.cs:26-29 | "dark" toggles to "light", and any other name toggles to "dark" |
| Theme.ToggledDiffers | platforms/blazor/PortKiller.Blazor/Services/ThemeService.cs:26-29 | a toggle always changes the theme, so it always raises the change event |
| Theme.ToggleTwice | platforms/blazor/PortKiller.Blazor/Services/ThemeService.cs:26-29 | toggling twice from "dark" or "light" restores it; from any other name it ends on "light" |
| Theme.ThemeService.constructor | platforms/blazor/PortKiller.Blazor/Services/ThemeService.cs:5 | the initial theme is "dark" and no event has fired |
| Theme.ThemeService.SetCurrentTheme | platforms/blazor/PortKiller.Blazor/Services/ThemeService.cs:8-19 | the theme takes the value, and the event fires once exactly when the value differs from the current one |
| Theme.ThemeService.SetTheme | platforms/blazor/PortKiller.Blazor/Services/ThemeService.cs:21-24 | as the setter: setting the current value again fires nothing |
| Theme.ThemeService.ToggleTheme | platforms/blazor/PortKiller.Blazor/Services/ThemeService.cs:26-29 | the theme becomes the toggled one and the event fires exactly once |
| Theme.ThemeService.GetMasaThemeClass | platforms/blazor/PortKiller.Blazor/Services/ThemeService.cs:34-37 | the class is "theme--dark" exactly when the theme is dark, and otherwise "theme--light" |
| Theme.ThemeService.ThemeFlags | platforms/blazor/PortKiller.Blazor/Services/ThemeService.cs:31-32 | dark and light never hold together, and both are false exactly for a name other than the two known ones |
| Notifications.DefaultNotification | platforms/blazor/PortKiller.Blazor/Services/NotificationService.cs:82-89 | a new notification is of type "info" with the information icon, empty message and details, stamped now |
| Notifications.KindAndIcon | platforms/blazor/PortKiller.Blazor/Services/NotificationService.cs:9-71 | each builder has its fixed type and icon: success/rocket, warning/warning sign, success/globe, info/plug, success/arrows, danger/cross |
| Notifications.Details | platforms/blazor/PortKiller.Blazor/Services/NotificationService.cs:31-60 | the tunnel-created notification carries the URL; the tunnel-stopped and restarted ones keep empty details; the process ones name the process |
| Notifications.MessagesNamePort | platforms/blazor/PortKiller.Blazor/Services/NotificationService.cs:9-71 | every message contains the port number in decimal |
| Notifications.PortStartedMessageIdentifiesPort | platforms/blazor/PortKiller.Blazor/Services/NotificationService.cs:9-18 | two port-started messages are equal only for equal 32-bit ports |
| Notifications.NotificationService.constructor | platforms/blazor/PortKiller.Blazor/Services/NotificationService.cs:7 | the queue starts empty, nothing has been delivered, and the invariant `Valid` (subscribers got exactly the queue, in order) holds |
| Notifications.NotificationService.AddNotification | platforms/blazor/PortKiller.Blazor/Services/NotificationService.cs:73-77 | one notification appended at the tail of the queue and the same value handed to the subscribers, so the deliveries stay equal to the queue in call order (`Valid` kept) |
| Notifications.NotificationService.NotifyPortStarted | platforms/blazor/PortKiller.Blazor/Services/NotificationService.cs:9-18 | appends exactly the port-started notification to queue and subscribers and keeps `Valid` |
| Notifications.NotificationService.NotifyPortStopped | platforms/blazor/PortKiller.Blazor/Services/NotificationService.cs:20-29 | appends exactly the port-stopped notification to queue and subscribers and keeps `Valid` |
| Notifications.NotificationService.NotifyTunnelCreated | platforms/blazor/PortKiller.Blazor/Services/NotificationService.cs:31-40 | appends exactly the tunnel-created notification to queue and subscribers and keeps `Valid` |
| Notifications.NotificationService.NotifyTunnelStopped | platforms/blazor/PortKiller.Blazor/Services/NotificationService.cs:42-50 | appends exactly the tunnel-stopped notification to queue and subscribers and keeps `Valid` |
| Notifications.NotificationService.NotifyTunnelRestarted | platforms/blazor/PortKiller.Blazor/Services/NotificationService.cs:52-60 | appends exactly the tunnel-restarted notification to queue and subscribers and keeps `Valid` |
| Notifications.NotificationService.NotifyPortKilled | platforms/blazor/PortKiller.Blazor/Services/NotificationService.cs:62-71 | appends exactly the port-killed notification to queue and subscribers and keeps `Valid` |
| Common.FirstWithKey | platforms/blazor/PortKiller.Blazor/Services/PortScannerService.cs:66-74 | the index found holds an element with the key and no earlier element has it, or no element has it; it names the first listener on a port, the one whose entry the scan keeps |
| Ports.FirstIndexOfPort | platforms/blazor/PortKiller.Blazor/Services/PortScannerService.cs:200 | the index found holds the port and no earlier entry does (`FirstOrDefault`) |
| Ports.FavoriteToggledSpec | platforms/blazor/PortKiller.Blazor/Services/PortScannerService.cs:198-214 | an unlisted port changes nothing; a listed one flips membership, its first entry's flag takes the new membership, and every other entry stays |
| Ports.WatchToggledSpec | platforms/blazor/PortKiller.Blazor/Services/PortScannerService.cs:216-239 | the same for the watched set and flag |
| Ports.FavoriteToggledTwice | platforms/blazor/backup_Services/PortScannerService.cs:91-106 | toggling a port twice restores both the set and the list, when the flag agreed with the set |
| Ports.WatchToggledTwice | platforms/blazor/backup_Services/PortScannerService.cs:108-123 | the same for watching |
| Ports.TogglesKeepFlagsMatch | platforms/blazor/PortKiller.Blazor/Services/PortScannerService.cs:198-239 | on a list with one entry per port, the toggles keep every flag equal to membership |
| Ports.KilledSpec | platforms/blazor/PortKiller.Blazor/Services/PortScannerService.cs:169-196 | a successful kill removes exactly that port and keeps every other entry and its flags; a failed kill or an unlisted port changes nothing |
| PortScanner.FirstPid | platforms/blazor/PortKiller.Blazor/Services/PortScannerService.cs:146-158 | the PID comes from the first netstat line that contains one of the four local-address forms followed by the port, as a substring (so a line for port 8080 also matches port 80), and whose fifth space-separated token parses as `int.TryParse` reads it (surrounding tabs and other number white space allowed), or there is none such |
| PortScanner.LongerPortMentioned | platforms/blazor/PortKiller.Blazor/Services/PortScannerService.cs:150-155 | a netstat line for port `10 * port + d` matches `port` too and yields the same PID, because the address test is a substring test |
| PortScanner.Line8080MentionsPort80 | platforms/blazor/PortKiller.Blazor/Services/PortScannerService.cs:150-155 | a netstat line for port 8080 yields its PID as the owner of port 80 |
| Strings.ParseIgnoresNumberWhite | platforms/blazor/PortKiller.Blazor/Services/PortScannerService.cs:153-154 | `int.TryParse` reads back the decimal rendering of every 32-bit integer, also with the tabs, line feeds, vertical tabs, form feeds, carriage returns or spaces it skips before and after the digits |
| PortScanner.NetstatPid | platforms/blazor/PortKiller.Blazor/Services/PortScannerService.cs:146-158 | the loop over netstat's lines returns that first PID |
| PortScanner.GetProcessForPort | platforms/blazor/PortKiller.Blazor/Services/PortScannerService.cs:127-167 | the process of that PID when netstat runs and the id is live; none on every failure |
| PortScanner.Entry | platforms/blazor/PortKiller.Blazor/Services/PortScannerService.cs:76-108 | an entry has the listener's port and address (default "127.0.0.1"), is active and has flags equal to membership; it carries the PID and name of the process that owns the port, or 0 and "Unknown" when none is found; there is none exactly when the owning process's name cannot be read |
| PortScanner.ScanPrefixSpec | platforms/blazor/PortKiller.Blazor/Services/PortScannerService.cs:66-111 | after each listener the new list holds each positive port seen once, with the entry of its first listener |
| PortScanner.ScanPrefixAbandoned | platforms/blazor/PortKiller.Blazor/Services/PortScannerService.cs:120-123 | once the scan has thrown, it stays abandoned |
| PortScanner.ScanSpec | platforms/blazor/PortKiller.Blazor/Services/PortScannerService.cs:56-111 | a completed scan lists every positive listener port exactly once, never port 0, each with the entry of its first listener and flags equal to membership |
| PortScanner.WithoutPort | platforms/blazor/PortKiller.Blazor/Services/PortScannerService.cs:227 | every saved watch record for the port is removed and all others kept |
| Common.KeySetConcat | platforms/blazor/PortKiller.Blazor/Services/PortScannerService.cs:236 | the ports of a concatenated list are those of its two parts, so appending a watch record adds exactly its port and a scan adds exactly the new entry's port |
| PortScanner.PortScannerService.constructor | platforms/blazor/PortKiller.Blazor/Services/PortScannerService.cs:18-23 | the list starts empty and the in-memory sets are those the settings store reads back |
| PortScanner.PortScannerService.LoadSettings | platforms/blazor/PortKiller.Blazor/Services/PortScannerService.cs:25-39 | marks every saved favourite and every saved watched port |
| PortScanner.PortScannerService.GetPorts | platforms/blazor/PortKiller.Blazor/Services/PortScannerService.cs:44-50 | a new list object with the same entries |
| PortScanner.PortScannerService.ScanListener | platforms/blazor/PortKiller.Blazor/Services/PortScannerService.cs:76-108 | one listener's step of the refresh loop yields exactly `Entry` for the service's current favorites and watched ports |
| PortScanner.PortScannerService.RefreshPorts | platforms/blazor/PortKiller.Blazor/Services/PortScannerService.cs:52-125 | the list becomes the completed scan, or stays as it was when the scan throws |
| PortScanner.PortScannerService.KillPort | platforms/blazor/PortKiller.Blazor/Services/PortScannerService.cs:169-196 | the first entry for the port is removed only when the kill went through |
| PortScanner.PortScannerService.ToggleFavorite | platforms/blazor/PortKiller.Blazor/Services/PortScannerService.cs:198-214 | the toggle of list and set, with the new key set saved when the port is listed and nothing saved otherwise; the sets stay equal to what the store reads back |
| PortScanner.PortScannerService.ToggleWatch | platforms/blazor/PortKiller.Blazor/Services/PortScannerService.cs:216-239 | the toggle of list and set; unwatching deletes every saved record for the port, watching appends one default record; the watched set stays equal to what the store reads back |
| PortScannerBackup.AnyProcess | platforms/blazor/backup_Services/PortScannerService.cs:62-72 | the first process whose main module has a file name, whatever the port; when a main module cannot be read the lookup ends with none |
| PortScannerBackup.Entry | platforms/blazor/backup_Services/PortScannerService.cs:36-52 | an entry has the listener's port and address, is active and has flags equal to membership |
| PortScannerBackup.Positive | platforms/blazor/backup_Services/PortScannerService.cs:29-32 | only listeners with a positive port are visited |
| PortScannerBackup.RebuildSpec | platforms/blazor/backup_Services/PortScannerService.cs:34-53 | a completed rebuild holds one entry per positive listener, in listener order, duplicates included |
| PortScannerBackup.RebuildAllOrNothing | platforms/blazor/backup_Services/PortScannerService.cs:39-44 | a rebuild that throws leaves the list empty, since the lookup does not depend on the port |
| PortScannerBackup.DuplicatesKept | platforms/blazor/backup_Services/PortScannerService.cs:34-53 | two listeners on port 80 yield two entries for port 80 |
| PortScannerBackup.RebuildAbandoned | platforms/blazor/backup_Services/PortScannerService.cs:55-58 | once the loop has thrown, the list stays as it was |
| PortScannerBackup.PortScannerService.constructor | platforms/blazor/backup_Services/PortScannerService.cs:12-14 | empty list and empty sets |
| PortScannerBackup.PortScannerService.GetPorts | platforms/blazor/backup_Services/PortScannerService.cs:16-19 | the live list object itself, not a copy |
| PortScannerBackup.PortScannerService.RefreshPorts | platforms/blazor/backup_Services/PortScannerService.cs:21-60 | the list is cleared, then holds what the loop appended before finishing or throwing |
| PortScannerBackup.PortScannerService.KillPort | platforms/blazor/backup_Services/PortScannerService.cs:74-89 | the first entry for the port is removed only when the kill did not throw |
| PortScannerBackup.PortScannerService.ToggleFavorite | platforms/blazor/backup_Services/PortScannerService.cs:91-106 | the toggle of list and favourite set; nothing is persisted |
| PortScannerBackup.PortScannerService.ToggleWatch | platforms/blazor/backup_Services/PortScannerService.cs:108-123 | the toggle of list and watched set; nothing is persisted |
| TunnelOutput.MatchAtSound | platforms/blazor/PortKiller.Blazor/Services/TunnelService.cs:537-538 | a match found at a position is a URL of the pattern occurring there |
| TunnelOutput.MatchAtComplete | platforms/blazor/PortKiller.Blazor/Services/TunnelService.cs:537-538 | wherever a URL of the pattern starts, the match at that position is exactly that URL |
| TunnelOutput.FindUrlSpec | platforms/blazor/PortKiller.Blazor/Services/TunnelService.cs:537-538 | the URL found is in the line and matches the pattern, and none starts further left; none is found exactly when the line holds no URL of the pattern |
| TunnelOutput.ReadyLineUrl | platforms/blazor/PortKiller.Blazor/Services/TunnelService.cs:537-538 | cloudflared's ready line yields the URL it announces |
| TunnelOutput.UrlAndErrorOnOneLine | platforms/blazor/PortKiller.Blazor/Services/TunnelService.cs:535-561 | one line can yield both a URL and an error |
| TunnelOutput.ErrorMarkerAtStart | platforms/blazor/PortKiller.Blazor/Services/TunnelService.cs:553-560 | a line that starts with an error marker, in any letter case, is an error line |
| TunnelOutput.AfterLinesAppend | platforms/blazor/PortKiller.Blazor/Services/TunnelService.cs:535-561 | feeding lines in two batches is feeding them at once |
| TunnelOutput.LaterUrlWins | platforms/blazor/PortKiller.Blazor/Services/TunnelService.cs:540-546 | a later URL overwrites the pending one, and a line without one keeps it |
| TunnelOutput.LaterErrorWins | platforms/blazor/PortKiller.Blazor/Services/TunnelService.cs:553-560 | a later error line overwrites the pending error, and other lines keep it |
| TunnelOutput.UrlAfterLinesSpec | platforms/blazor/PortKiller.Blazor/Services/TunnelService.cs:540-546 | the pending URL is the starting one when no line has a URL, and otherwise the URL of a line after which no line has one |
| TunnelOutput.FoundIsNonEmpty | platforms/blazor/PortKiller.Blazor/Services/TunnelService.cs:535-561 | no URL or error line found is empty, so an empty pending value means nothing was seen |
| TunnelHost.FirstExisting | platforms/blazor/PortKiller.Blazor/Services/TunnelService.cs:468-472 | the first path of the list that exists, or none when none does |
| TunnelHost.CloudflaredPathSpec | platforms/blazor/PortKiller.Blazor/Services/TunnelService.cs:466-504 | a path found exists and is not empty (`File.Exists("")` is false), and an existing fixed candidate wins over `where`, the earliest first |
| TunnelHost.WherePathTrimmed | platforms/blazor/PortKiller.Blazor/Services/TunnelService.cs:492-494 | the path taken from `where` is its first line with surrounding white space removed: it neither starts nor ends with white space, and it is empty exactly when that line is blank |
| TunnelHost.BareNameNotConsulted | platforms/blazor/PortKiller.Blazor/Services/TunnelService.cs:19-25 | the last candidate, the bare `cloudflared.exe`, is never consulted |
| TunnelHost.Components | platforms/blazor/PortKiller.Blazor/Services/TunnelService.cs:423-437 | days, hours, minutes and seconds add up to the uptime, each within its range |
| TunnelHost.FormatUptimeDays | platforms/blazor/PortKiller.Blazor/Services/TunnelService.cs:425-428 | an uptime of at least a day shows "Dd Hh Mm" |
| TunnelHost.FormatUptimeHours | platforms/blazor/PortKiller.Blazor/Services/TunnelService.cs:429-432 | at least an hour and less than a day shows "Hh Mm Ss" |
| TunnelHost.FormatUptimeMinutes | platforms/blazor/PortKiller.Blazor/Services/TunnelService.cs:433-436 | a shorter uptime shows "Mm Ss" |
| TunnelHost.PendingIsLastOfAllLines | platforms/blazor/PortKiller.Blazor/Services/TunnelService.cs:155-180 | the pending values a poll reads are those the output callbacks leave after every line so far |
| TunnelHost.WaitTimesOutIffQuiet | platforms/blazor/PortKiller.Blazor/Services/TunnelService.cs:158-180 | the wait throws the timeout exactly when none of the 40 polls sees a URL, an error or an exit |
| TunnelHost.FirstLoudPollDecides | platforms/blazor/PortKiller.Blazor/Services/TunnelService.cs:158-178 | the first poll that sees something decides the wait, checking URL, then error, then exit |
| TunnelHost.SilentProcessTimesOut | platforms/blazor/PortKiller.Blazor/Services/TunnelService.cs:180 | a process that prints nothing and never exits times out |
| TunnelHost.UrlBeatsErrorOnTheSameTick | platforms/blazor/PortKiller.Blazor/Services/TunnelService.cs:160-170 | an error line followed by a URL line before the same poll gives success |
| TunnelHost.UrlBeatsEarlierErrorLineOnTheSameTick | platforms/blazor/PortKiller.Blazor/Services/TunnelService.cs:160-170 | a URL line followed by an error line before the same poll gives success |
| TunnelHost.ErrorBeforeUrlFails | platforms/blazor/PortKiller.Blazor/Services/TunnelService.cs:166-170 | an error line one poll before the URL line fails the wait with that error |
| Tunnels.DefaultNameIdentifiesPort | platforms/blazor/PortKiller.Blazor/Services/TunnelService.cs:133 | distinct ports get distinct default names `port-<port>-tunnel` |
| Tunnels.StartOutcomeSpec | platforms/blazor/PortKiller.Blazor/Services/TunnelService.cs:148-180 | success needs the binary found, the process launched and still running after the first second, and its URL seen at a poll before which all were quiet; a timeout happens exactly when every poll was quiet |
| Tunnels.StartedRecordSpec | platforms/blazor/PortKiller.Blazor/Services/TunnelService.cs:148-180 | on success the record is "Active" with the process id and the URL; it shows "Active" exactly when the process was up, even before any URL; the saved copy on failure is the record before it became "Active" |
| Tunnels.FirstLoudPoll | platforms/blazor/PortKiller.Blazor/Services/TunnelService.cs:158-165 | a URL found was the pending URL at the first poll that was not quiet |
| Tunnels.FirstNotQuiet | platforms/blazor/PortKiller.Blazor/Services/TunnelService.cs:158-178 | the first poll from a point on that sees something |
| Tunnels.OthersAfter | platforms/blazor/PortKiller.Blazor/Services/TunnelService.cs:535-561 | output for one port touches no other port's pending values |
| Tunnels.FeedStep | platforms/blazor/PortKiller.Blazor/Services/TunnelService.cs:535-561 | each output line acts as the classifier says: a URL overwrites the pending URL and the record's URL, an error line the pending error |
| Tunnels.KillsOfTracked | platforms/blazor/PortKiller.Blazor/Services/TunnelService.cs:270-275 | every pid sent a kill was one the service held for a stopped port |
| Tunnels.StoppedAllSpec | platforms/blazor/PortKiller.Blazor/Services/TunnelService.cs:263-304 | stopping distinct ports one after another removes them from all four dictionaries and kills their handles, in order |
| Tunnels.StopAllSpec | platforms/blazor/PortKiller.Blazor/Services/TunnelService.cs:290-304 | stopping the snapshot of all ports leaves no record; exactly the snapshot's handles are dropped and killed |
| Tunnels.FirstCandidate | platforms/blazor/PortKiller.Blazor/Services/TunnelService.cs:68-95 | the first pid whose command line contains `--url localhost:<port>` as a substring, so a longer port such as 8080 also matches port 80 (and, for a tracked one, that is running), or none |
| Tunnels.ProcessForPortSpec | platforms/blazor/PortKiller.Blazor/Services/TunnelService.cs:66-98 | a process found has `--url localhost:<port>` in its command line, as a substring, which a tunnel for a longer port such as 8080 also satisfies for 80; none is found exactly when no live tracked handle and no cloudflared process has it |
| TunnelHost.LongerPortRunsTunnelFor | platforms/blazor/PortKiller.Blazor/Services/TunnelService.cs:74-89 | a cloudflared for port `10 * port + d` also counts as the tunnel for `port`, because the command-line test is a substring test |
| TunnelHost.Tunnel8080RunsFor80 | platforms/blazor/PortKiller.Blazor/Services/TunnelService.cs:74-89 | the cloudflared for port 8080 counts as the tunnel for port 80 |
| Tunnels.RestoredKeys | platforms/blazor/PortKiller.Blazor/Services/TunnelService.cs:39-58 | after the restore every saved port has a record |
| Tunnels.RestoredOther | platforms/blazor/PortKiller.Blazor/Services/TunnelService.cs:39-58 | a port not saved keeps its record and its handle |
| Tunnels.RestoredRecords | platforms/blazor/PortKiller.Blazor/Services/TunnelService.cs:43-57 | each restored record is "Active" with a tracked handle running its tunnel, or "Inactive" with pid 0; its URL and name are those of the last saved record of its port |
| Tunnels.RefreshedIdempotent | platforms/blazor/PortKiller.Blazor/Services/TunnelService.cs:405-420 | refreshing one record twice at the same moment is refreshing it once |
| Tunnels.RefreshedAllSpec | platforms/blazor/PortKiller.Blazor/Services/TunnelService.cs:403-421 | the refresh keeps the ports, stops exactly the records whose tracked process has exited, leaves untracked records alone, and is idempotent |
| Tunnels.FindCandidate | platforms/blazor/PortKiller.Blazor/Services/TunnelService.cs:68-95 | the loop returns the first candidate |
| Tunnels.TunnelService.constructor | platforms/blazor/PortKiller.Blazor/Services/TunnelService.cs:27-31 | four empty dictionaries over a fresh settings service |
| Tunnels.TunnelService.GetTunnels | platforms/blazor/PortKiller.Blazor/Services/TunnelService.cs:61-64 | one record per tunnel, each the record stored under its own port, in strictly ascending port order, and every stored record appears |
| Tunnels.TunnelService.SaveActiveTunnels | platforms/blazor/PortKiller.Blazor/Services/TunnelService.cs:306-310 | every record is saved as the tunnel list |
| Tunnels.TunnelService.ParseOutput | platforms/blazor/PortKiller.Blazor/Services/TunnelService.cs:535-561 | a URL line becomes the pending URL and the record's URL, and the record is saved; an error line becomes the pending error |
| Tunnels.TunnelService.FeedLines | platforms/blazor/PortKiller.Blazor/Services/TunnelService.cs:220-236 | a batch of output lines leaves the last URL and the last error line as pending values |
| Tunnels.TunnelService.WaitForUrl | platforms/blazor/PortKiller.Blazor/Services/TunnelService.cs:155-180 | the poll loop ends as the wait specification says; on success the record gets the URL and is saved, on failure the records are unchanged |
| Tunnels.TunnelService.PollOnce | platforms/blazor/PortKiller.Blazor/Services/TunnelService.cs:158-178 | one poll: nothing when quiet, else the verdict of that poll |
| Tunnels.TunnelService.Poll | platforms/blazor/PortKiller.Blazor/Services/TunnelService.cs:158-177 | one turn of the wait loop while nothing is pending (also TunnelService.cs:370-389): the output of the half second arrives, the pending URL and error become those of that poll, and a URL found is written to the record and saved; nothing else changes |
| Tunnels.TunnelService.AdoptUrl | platforms/blazor/PortKiller.Blazor/Services/TunnelService.cs:160-164 | the record's URL becomes the pending URL of its port and the records are saved (also TunnelService.cs:372-376); the pending values and the handles are unchanged |
| Tunnels.TunnelService.ActivateAndWait | platforms/blazor/PortKiller.Blazor/Services/TunnelService.cs:148-180 | the record becomes "Active" with the process id, the port's pending URL and error are reset, and the wait ends as the wait specification says (also TunnelService.cs:360-392): with the URL written and saved on success, and with nothing saved on failure; other ports' pending values are untouched |
| Tunnels.TunnelService.StartCloudflared | platforms/blazor/PortKiller.Blazor/Services/TunnelService.cs:194-261 | not installed, launch failure or early exit give their errors; a launched process's handle is registered, even when it then fails |
| Tunnels.TunnelService.StartAndWait | platforms/blazor/PortKiller.Blazor/Services/TunnelService.cs:148-180 | the start and the wait end in the start outcome, with the record and the saved list as the specification functions give them |
| Tunnels.TunnelService.Open | platforms/blazor/PortKiller.Blazor/Services/TunnelService.cs:135-180 | insert the "Starting" record, save it, then start and wait |
| Tunnels.TunnelService.CreateTunnel | platforms/blazor/PortKiller.Blazor/Services/TunnelService.cs:125-192 | an existing port throws and changes nothing; otherwise success returns the "Active" record with the supplied or default name; any failure removes the record but keeps the registered handle |
| Tunnels.TunnelService.DiscardFailed | platforms/blazor/PortKiller.Blazor/Services/TunnelService.cs:182-189 | the failed record is dropped and the registry saved |
| Tunnels.TunnelService.StopTunnel | platforms/blazor/PortKiller.Blazor/Services/TunnelService.cs:263-288 | an unknown port throws and changes nothing; otherwise the port leaves all four dictionaries whatever the kill does |
| Tunnels.TunnelService.StopNext | platforms/blazor/PortKiller.Blazor/Services/TunnelService.cs:293-303 | one more port of the snapshot stopped |
| Tunnels.TunnelService.StopAllTunnels | platforms/blazor/PortKiller.Blazor/Services/TunnelService.cs:290-304 | every snapshotted port is stopped, leaving no record |
| Tunnels.TunnelService.StopEach | platforms/blazor/PortKiller.Blazor/Services/TunnelService.cs:293-303 | the loop stops every port of the snapshot |
| Tunnels.TunnelService.RestartTunnel | platforms/blazor/PortKiller.Blazor/Services/TunnelService.cs:312-401 | an unknown port throws; otherwise the port is stopped and a fresh unnamed "Starting" record opened; on failure the old record is "Error" with the message and the new record stays; one record per port |
| Tunnels.TunnelService.GetProcessForPort | platforms/blazor/PortKiller.Blazor/Services/TunnelService.cs:66-98 | the process found for the port, tracked handles first |
| Tunnels.TunnelService.Initialize | platforms/blazor/PortKiller.Blazor/Services/TunnelService.cs:33-59 | the saved records restored in order, each lookup seeing the handles registered before it |
| Tunnels.TunnelService.RestoreNext | platforms/blazor/PortKiller.Blazor/Services/TunnelService.cs:41-57 | one saved record restored |
| Tunnels.TunnelService.UpdateTunnelStatus | platforms/blazor/PortKiller.Blazor/Services/TunnelService.cs:403-421 | every record refreshed against its tracked process; nothing else changes |
| Tunnels.TunnelService.RefreshPort | platforms/blazor/PortKiller.Blazor/Services/TunnelService.cs:407-419 | one record refreshed |
| WindowsTunnels.CallbacksSpec | platforms/windows/PortKiller/ViewModels/TunnelViewModel.cs:288-322 | a URL makes the record "Active" with the URL; an error sets the last error and makes the record "Error" unless it is "Active"; a URL and an error in either order end "Active" |
| WindowsTunnels.ActiveCountSpec | platforms/windows/PortKiller/ViewModels/TunnelViewModel.cs:45 | the count is the number of "Active" records: the full length exactly when all are, zero exactly when none is |
| WindowsTunnels.PersistedSpec | platforms/windows/PortKiller/ViewModels/TunnelViewModel.cs:440-444 | exactly the "Active" and "Starting" records are persisted, and no "Active" one is lost |
| WindowsTunnels.PersistedAppend | platforms/windows/PortKiller/ViewModels/TunnelViewModel.cs:440-444 | the records are persisted in list order |
| WindowsTunnels.IndexOf | platforms/windows/PortKiller/ViewModels/TunnelViewModel.cs:181-202 | the position of the record a callback belongs to, or none |
| WindowsTunnels.WithoutSpec | platforms/windows/PortKiller/ViewModels/TunnelViewModel.cs:356-379 | removing a record removes it and nothing else, and lowers the count by one exactly when it was "Active" |
| WindowsTunnels.ReplacedSpec | platforms/windows/PortKiller/ViewModels/TunnelViewModel.cs:288-322 | updating one record touches only that record and keeps identities unique |
| WindowsTunnels.AfterStartSpec | platforms/windows/PortKiller/ViewModels/TunnelViewModel.cs:249-351 | a start adds at most one record, for the port, at the end; a record for the port not in error blocks it, one in error does not; the saved list holds the new "Starting" record |
| WindowsTunnels.RestoredListSpec | platforms/windows/PortKiller/ViewModels/TunnelViewModel.cs:83-136 | one record per saved record, in order: "Active" with the saved URL and the process exactly when one is found, "Error" when the start throws, else "Starting" |
| WindowsTunnels.RestoredFresh | platforms/windows/PortKiller/ViewModels/TunnelViewModel.cs:83-136 | the restored records have fresh identities |
| WindowsTunnels.OrphansSpec | platforms/windows/PortKiller/ViewModels/TunnelViewModel.cs:138-154 | exactly the unmatched cloudflared processes whose command line names `tunnel` and `--url` are killed; a matched one never is |
| WindowsTunnels.AllStoppingSpec | platforms/windows/PortKiller/ViewModels/TunnelViewModel.cs:420-424 | every record is marked "Stopping" in place, and none of them is then persisted |
| WindowsTunnels.ShortenUrlSpec | platforms/windows/PortKiller/ViewModels/TunnelViewModel.cs:521-524 | a quick-tunnel URL loses its scheme and nothing else |
| WindowsTunnels.TunnelViewModel.constructor | platforms/windows/PortKiller/ViewModels/TunnelViewModel.cs:47-64 | an empty list over the given installation flag and saved list |
| WindowsTunnels.TunnelViewModel.SaveActiveTunnels | platforms/windows/PortKiller/ViewModels/TunnelViewModel.cs:440-444 | the persisted list becomes the "Active" and "Starting" records, in order |
| WindowsTunnels.TunnelViewModel.StartTunnel | platforms/windows/PortKiller/ViewModels/TunnelViewModel.cs:249-351 | the list after the installed and duplicate guards and the start; the new record is saved before the start |
| WindowsTunnels.TunnelViewModel.OnUrl | platforms/windows/PortKiller/ViewModels/TunnelViewModel.cs:288-309 | the callback's record, if still listed, gets the URL and "Active", and the list is saved |
| WindowsTunnels.TunnelViewModel.OnError | platforms/windows/PortKiller/ViewModels/TunnelViewModel.cs:311-322 | the callback's record, if still listed, gets the error, "Error" unless it is "Active"; nothing is saved |
| WindowsTunnels.TunnelViewModel.SetStatus | platforms/windows/PortKiller/ViewModels/TunnelViewModel.cs:358 | a listed record takes the status |
| WindowsTunnels.TunnelViewModel.Fail | platforms/windows/PortKiller/ViewModels/TunnelViewModel.cs:337-350 | a listed record is marked "Error" with the message |
| WindowsTunnels.TunnelViewModel.Remove | platforms/windows/PortKiller/ViewModels/TunnelViewModel.cs:366 | the record leaves the list |
| WindowsTunnels.TunnelViewModel.StopTunnel | platforms/windows/PortKiller/ViewModels/TunnelViewModel.cs:356-379 | on success the record leaves the list and the list is saved; on failure it stays in "Error" with the message |
| WindowsTunnels.TunnelViewModel.RestartTunnel | platforms/windows/PortKiller/ViewModels/TunnelViewModel.cs:384-411 | the record is stopped and removed without a save, then a new start is made for its port; a failed stop leaves it in "Error" |
| WindowsTunnels.TunnelViewModel.StopAllTunnels | platforms/windows/PortKiller/ViewModels/TunnelViewModel.cs:416-435 | after a stop-all that does not throw the list is empty and an empty list is saved; if it throws, every record is left "Stopping" |
| WindowsTunnels.TunnelViewModel.MarkAllStopping | platforms/windows/PortKiller/ViewModels/TunnelViewModel.cs:420-424 | every record marked "Stopping" |
| WindowsTunnels.TunnelViewModel.MarkStopping | platforms/windows/PortKiller/ViewModels/TunnelViewModel.cs:422 | one record marked "Stopping" |
| WindowsTunnels.TunnelViewModel.Initialize | platforms/windows/PortKiller/ViewModels/TunnelViewModel.cs:69-160 | a record for each saved record, then the orphaned processes killed; nothing is saved |
| WindowsTunnels.TunnelViewModel.RestoreAll | platforms/windows/PortKiller/ViewModels/TunnelViewModel.cs:83-136 | the loop adds the restored records and returns the process ids it matched |
| WindowsTunnels.TunnelViewModel.RestoreNext | platforms/windows/PortKiller/ViewModels/TunnelViewModel.cs:86-135 | one saved record restored |
| WindowsTunnels.TunnelViewModel.KillOrphans | platforms/windows/PortKiller/ViewModels/TunnelViewModel.cs:138-154 | the clean-up loop kills exactly the orphans, in process order |

## Left out

- Operating-system calls are inputs, not actions. The listener query, netstat, `Process.Start`, `Kill`, `WaitForExit`, WMI command-line queries, `where`, `File.Exists`, and file reads and writes are replaced by values: a `Host`, a `FileSystem`, an `Os`, a `Launch`, a `StoredFile`, or flags such as `killOk` and `writable`.
- Concurrency, locks and the dispatcher are not modelled. Operations run one after another.
  - Output callbacks arriving on reader threads are batches of lines: one batch in the first second after the start, and one before each poll.
  - `ConcurrentDictionary` enumeration order is unspecified; the model enumerates ports in ascending order.
- Time is not modelled as a clock. It arrives as the parameter `now`, in whole seconds, and the 20-second wait is 40 polls of 500 ms. `Task.Delay` and the Windows `DispatcherTimer` are not modelled.
- The regular-expression engine and JSON serialisation are not modelled.
  - The one URL pattern is matched by hand.
  - The settings document is a Dafny value, and a favourite set is written in ascending order.
- `Strings.TryParseInt32`: the sign is `-` or `+`, as in the invariant culture; the signs of another current culture are not modelled.
- `ToLower` is modelled on ASCII letters only. `char.IsWhiteSpace` is modelled by the fixed list of Unicode white-space characters.
- Records are values, so object aliasing is not modelled.
  - In the Blazor service a record changed in place is written back under its port.
  - `Tunnels.TunnelService.RestartTunnel` returns the detached old record, whose "Stopping" and "Error" updates nobody reads, as its `former` result.
  - On Windows a record object is identified by an id standing for its Guid. The backup scanner's live list is returned as the same object.
- Logging, message boxes, clipboard use, browser launch and notification calls are left out.
  - In the view model these are `CopyUrlToClipboard`, `OpenUrlInBrowser` and the notification calls.
  - Property-change events are left out, as is `UpdateUptimes`, which only raises a property-change event.
- `RecheckInstallationAsync`, `IsCloudflaredInstalled` and `GetCloudflaredVersion` run external commands that are not part of this model. The Windows installation flag is the field `installed`.
- The Windows-side `TunnelService`, `SettingsService` and `CloudflareTunnel` are not part of this model.
  - Their effects are parameters: the message of the exception a start, stop or stop-all throws; the processes found for saved ports; the command lines of running processes.
  - The list last handed to the settings service is the field `saved`.
- `CleanupOrphanedTunnelsAsync` in the Blazor service has no observable effect, because its kill is commented out, so it is not modelled. `Tunnels.TunnelService.Initialize` starts after it.
- `GetTunnel` in the Blazor service is a dictionary lookup with no logic and is not modelled.
- `Tunnels.TunnelService.StartCloudflared`: the output handlers parse only lines that are not null or empty. In the model every delivered line is one the handler sees.
- Notification timestamps are the parameter `now` instead of `DateTime.Now`. `Notifications.NotificationService` records what subscribers receive as the sequence `delivered`, not as subscriber calls.
- `Theme.ThemeService` counts change events instead of calling subscribers.
- `PortScanner.PortScannerService.KillPort` and `PortScannerBackup.PortScannerService.KillPort`: whether the process was found and the kill went through is the parameter `killOk`.
- `PortScanner.PortScannerService.ToggleWatch`: the Guid of a new watch record is the parameter `newId`.
