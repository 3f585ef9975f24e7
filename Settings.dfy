/** The settings service: one JSON document with three optional lists,
    read whole and written whole. The file on disk is one stored value;
    whether a write or a delete goes through is the store's `writable`
    flag, and a failed write is swallowed. */
module Settings {
  import opened Common
  import opened Models

  /** The deserialised document; a list the JSON leaves out is `None`. */
  datatype Document = Document(
    favorites: Option<seq<int>>,
    watchedPorts: Option<seq<WatchedPort>>,
    activeTunnels: Option<seq<CloudflareTunnel>>)

  const EmptyDocument := Document(None, None, None)

  /** The settings file: absent, present but not readable as a document
      (I/O failure, malformed JSON or the JSON literal null), or holding one. */
  datatype StoredFile = Missing | Unreadable | Stored(doc: Document)

  /** `LoadSettingsData`: the stored document, or a fresh empty one. */
  function Load(f: StoredFile): Document {
    if f.Stored? then f.doc else EmptyDocument
  }

  /** `SaveSettingsData`: the file after trying to write `d`. */
  function Written(f: StoredFile, writable: bool, d: Document): StoredFile {
    if writable then Stored(d) else f
  }

  /** `GetFavorites`: the stored list as a set. */
  function Favorites(f: StoredFile): set<int> {
    match Load(f).favorites
    case Some(l) => Elements(l)
    case None => {}
  }

  function WatchedPorts(f: StoredFile): seq<WatchedPort> {
    Load(f).watchedPorts.GetOr([])
  }

  function ActiveTunnels(f: StoredFile): seq<CloudflareTunnel> {
    Load(f).activeTunnels.GetOr([])
  }

  /** `SaveFavorites`: a set is written as a list, here in ascending order. */
  function WithFavorites(f: StoredFile, writable: bool, favorites: set<int>): StoredFile {
    Written(f, writable, Load(f).(favorites := Some(SortedKeys(favorites))))
  }

  function WithWatchedPorts(f: StoredFile, writable: bool, watched: seq<WatchedPort>): StoredFile {
    Written(f, writable, Load(f).(watchedPorts := Some(watched)))
  }

  function WithActiveTunnels(f: StoredFile, writable: bool, tunnels: seq<CloudflareTunnel>): StoredFile {
    Written(f, writable, Load(f).(activeTunnels := Some(tunnels)))
  }

  /** `ClearAllSettings`: an existing file is deleted when the delete succeeds. */
  function Cleared(f: StoredFile, writable: bool): StoredFile {
    if f.Missing? || writable then Missing else f
  }

  /** Reading a missing or unreadable file yields empty collections. */
  lemma UnreadableReadsEmpty(f: StoredFile)
    requires !f.Stored?
    ensures Favorites(f) == {} && WatchedPorts(f) == [] && ActiveTunnels(f) == []
  {
  }

  /** The favourites read back are exactly the integers of the stored list,
      each once, however often the list repeats them. */
  lemma FavoritesAreTheStoredList(d: Document, l: seq<int>)
    requires d.favorites == Some(l)
    ensures forall x :: x in Favorites(Stored(d)) <==> x in l
  {
  }

  /** Saving favourites: read back when the write succeeds, the other two
      lists kept, the file untouched when it fails. */
  lemma SaveFavoritesRoundTrip(f: StoredFile, favorites: set<int>)
    ensures Favorites(WithFavorites(f, true, favorites)) == favorites
    ensures WatchedPorts(WithFavorites(f, true, favorites)) == WatchedPorts(f)
    ensures ActiveTunnels(WithFavorites(f, true, favorites)) == ActiveTunnels(f)
    ensures WithFavorites(f, false, favorites) == f
  {
    SortedKeysElements(favorites);
  }

  lemma SaveWatchedPortsRoundTrip(f: StoredFile, watched: seq<WatchedPort>)
    ensures WatchedPorts(WithWatchedPorts(f, true, watched)) == watched
    ensures Favorites(WithWatchedPorts(f, true, watched)) == Favorites(f)
    ensures ActiveTunnels(WithWatchedPorts(f, true, watched)) == ActiveTunnels(f)
    ensures WithWatchedPorts(f, false, watched) == f
  {
  }

  lemma SaveActiveTunnelsRoundTrip(f: StoredFile, tunnels: seq<CloudflareTunnel>)
    ensures ActiveTunnels(WithActiveTunnels(f, true, tunnels)) == tunnels
    ensures Favorites(WithActiveTunnels(f, true, tunnels)) == Favorites(f)
    ensures WatchedPorts(WithActiveTunnels(f, true, tunnels)) == WatchedPorts(f)
    ensures WithActiveTunnels(f, false, tunnels) == f
  {
  }

  /** Writes are whole-document overwrites: of two saves of the tunnel list
      only the later one shows. */
  lemma ActiveTunnelsLastWriteWins(f: StoredFile, writable: bool, a: seq<CloudflareTunnel>, b: seq<CloudflareTunnel>)
    ensures WithActiveTunnels(WithActiveTunnels(f, writable, a), writable, b) == WithActiveTunnels(f, writable, b)
  {
  }

  /** After a successful clear every getter reads empty. */
  lemma ClearedReadsEmpty(f: StoredFile)
    ensures Favorites(Cleared(f, true)) == {} && WatchedPorts(Cleared(f, true)) == [] && ActiveTunnels(Cleared(f, true)) == []
    ensures Cleared(f, false) == f
  {
  }

  /** The settings service over the one settings file. */
  class SettingsStore {
    var file: StoredFile
    var writable: bool

    constructor (file: StoredFile, writable: bool)
      ensures this.file == file && this.writable == writable
    {
      this.file := file;
      this.writable := writable;
    }

    function GetFavorites(): set<int>
      reads this
    {
      Favorites(file)
    }

    function GetWatchedPorts(): seq<WatchedPort>
      reads this
    {
      WatchedPorts(file)
    }

    function GetActiveTunnels(): seq<CloudflareTunnel>
      reads this
    {
      ActiveTunnels(file)
    }

    method SaveSettingsData(d: Document)
      modifies this
      ensures file == Written(old(file), old(writable), d) && writable == old(writable)
    {
      if writable {
        file := Stored(d);
      }
    }

    method SaveFavorites(favorites: set<int>)
      modifies this
      ensures file == WithFavorites(old(file), old(writable), favorites) && writable == old(writable)
    {
      var data := Load(file);
      data := data.(favorites := Some(SortedKeys(favorites)));
      SaveSettingsData(data);
    }

    method SaveWatchedPorts(watched: seq<WatchedPort>)
      modifies this
      ensures file == WithWatchedPorts(old(file), old(writable), watched) && writable == old(writable)
    {
      var data := Load(file);
      data := data.(watchedPorts := Some(watched));
      SaveSettingsData(data);
    }

    method SaveActiveTunnels(tunnels: seq<CloudflareTunnel>)
      modifies this
      ensures file == WithActiveTunnels(old(file), old(writable), tunnels) && writable == old(writable)
    {
      var data := Load(file);
      data := data.(activeTunnels := Some(tunnels));
      SaveSettingsData(data);
    }

    method ClearAllSettings()
      modifies this
      ensures file == Cleared(old(file), old(writable)) && writable == old(writable)
    {
      if !file.Missing? && writable {
        file := Missing;
      }
    }
  }
}
