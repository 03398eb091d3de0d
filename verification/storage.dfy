/** The persistent key-value store (src-tauri/src/storage/mod.rs): a map from
    keys to JSON values, loaded once from `wallet-storage.json` in the
    application data directory and written back whole after every change. */
module Store {
  import opened Wrappers

  datatype StorageError =
    | NoAppDataDir
    | CreateDirFailed
    | ReadFailed
    | WriteFailed
  {
    function Message(): string {
      match this
      case NoAppDataDir => "Failed to get app data directory"
      case CreateDirFailed => "Failed to create app data directory"
      case ReadFailed => "Failed to read storage file"
      case WriteFailed => "Failed to write storage file"
    }
  }

  /** What the storage file holds when it exists and can be read: its text
      parsed as a JSON object, or `None` when it is not one. */
  datatype FileState =
    | Missing
    | Unreadable
    | Text(parsed: Option<map<string, Json>>)

  /** The application data directory as `Storage::new` finds it. */
  datatype AppDir =
    | Unavailable
    | NotCreatable
    | Ready(file: FileState)

  /** The map `Storage::new` starts from: a missing file or one that does not
      parse loads as the empty map; only an unusable directory or an
      unreadable file is an error. */
  function LoadedData(dir: AppDir): (r: Result<map<string, Json>, StorageError>)
    ensures dir.Unavailable? <==> r == Err(NoAppDataDir)
    ensures dir.NotCreatable? <==> r == Err(CreateDirFailed)
    ensures (dir.Ready? && dir.file.Unreadable?) <==> r == Err(ReadFailed)
    ensures dir.Ready? && (dir.file.Missing? || dir.file == Text(None)) ==> r == Ok(map[])
    ensures dir.Ready? && dir.file.Text? && dir.file.parsed.Some? ==> r == Ok(dir.file.parsed.value)
    ensures r.Ok? && r.value != map[] ==> dir == Ready(Text(Some(r.value)))
    ensures r != Err(WriteFailed)
  {
    match dir
    case Unavailable => Err(NoAppDataDir)
    case NotCreatable => Err(CreateDirFailed)
    case Ready(Missing) => Ok(map[])
    case Ready(Unreadable) => Err(ReadFailed)
    case Ready(Text(parsed)) => Ok(parsed.GetOr(map[]))
  }

  /** The store. `lastSaved` is the whole map as last written to the file by
      this instance; `writable` says whether the file system accepts writes. */
  class Storage {
    var data: map<string, Json>
    var lastSaved: Option<map<string, Json>>
    const writable: bool

    constructor (loaded: map<string, Json>, writable: bool)
      ensures data == loaded && lastSaved == None && this.writable == writable
    {
      data := loaded;
      lastSaved := None;
      this.writable := writable;
    }

    /** `Storage::new`: the directory checks, then the load fallback. */
    static method Open(dir: AppDir, writable: bool) returns (r: Result<Storage, StorageError>)
      ensures r.Err? <==> LoadedData(dir).Err?
      ensures r.Err? ==> r.error == LoadedData(dir).error
      ensures r.Ok? ==> fresh(r.value) && r.value.data == LoadedData(dir).value
      ensures r.Ok? ==> r.value.lastSaved == None && r.value.writable == writable
    {
      var loaded := LoadedData(dir);
      if loaded.Err? {
        return Err(loaded.error);
      }
      var s := new Storage(loaded.value, writable);
      return Ok(s);
    }

    /** `get`: the value stored under `key`, if any. */
    function Get(key: string): (r: Option<Json>)
      reads this
      ensures r.Some? <==> key in data
      ensures r.Some? ==> r.value == data[key]
    {
      if key in data then Some(data[key]) else None
    }

    /** `save`: the whole given map is written, or the write fails. */
    method Save(snapshot: map<string, Json>) returns (r: Result<(), StorageError>)
      modifies this
      ensures data == old(data)
      ensures writable ==> r.Ok? && lastSaved == Some(snapshot)
      ensures !writable ==> r == Err(WriteFailed) && lastSaved == old(lastSaved)
    {
      if !writable {
        return Err(WriteFailed);
      }
      lastSaved := Some(snapshot);
      return Ok(());
    }

    /** `set`: insert or overwrite, then persist the whole map. The in-memory
        map is updated even when the write fails. */
    method Set(key: string, value: Json) returns (r: Result<(), StorageError>)
      modifies this
      ensures data == old(data)[key := value]
      ensures Get(key) == Some(value)
      ensures forall k :: k != key ==> Get(k) == old(Get(k))
      ensures writable ==> r.Ok? && lastSaved == Some(data)
      ensures !writable ==> r == Err(WriteFailed) && lastSaved == old(lastSaved)
    {
      data := data[key := value];
      r := Save(data);
    }

    /** `remove`: delete the key if present, then persist the whole map;
        removing an absent key is not an error. */
    method Remove(key: string) returns (r: Result<(), StorageError>)
      modifies this
      ensures data == old(data) - {key}
      ensures Get(key) == None
      ensures forall k :: k != key ==> Get(k) == old(Get(k))
      ensures writable ==> r.Ok? && lastSaved == Some(data)
      ensures !writable ==> r == Err(WriteFailed) && lastSaved == old(lastSaved)
    {
      data := data - {key};
      r := Save(data);
    }
  }
}
