/**
 * The JSON file Loader of persistence/JsonFilePersister.go, reduced to
 * what the engine sees of it. The file system and the JSON decoder are
 * outside the model: the state of the data file is an input.
 */
module JsonFile {
  import opened Wrappers
  import opened Queries
  import opened Persistence

  /** What the data file holds when `Load` looks at it. */
  datatype FileState<T> =
    | Missing                 // no file at the path
    | Unreadable              // the file exists but reading it fails
    | Empty                   // the file has no content
    | Null                    // the content is the JSON literal null: a nil list, no error
    | Malformed               // the content does not decode to a list of records
    | Holds(items: seq<T>)    // the content decodes to `items`

  /**
   * `Load`: an empty path is a configuration error (NO_PATH); a missing
   * file answers the not-exist error; a read failure is READ_FAILED; an
   * empty file, and one holding the JSON literal null, answers neither
   * records nor error; otherwise the decoded list or the decoder's error.
   */
  function Load<T>(path: string, file: FileState<T>): (r: LoadReply<T>)
    ensures r.Err.None? <==> path != "" && (file.Empty? || file.Null? || file.Holds?)
    ensures r.Items.Some? <==> path != "" && file.Holds?
    ensures r.Items.Some? ==> r.Items.value == file.items
    ensures path == "" ==> r.Err == Some(ConfigError("NO_PATH"))
    ensures path != "" && file.Missing? ==> r.Err == Some(NotExist)
  {
    if path == "" then LoadReply(None, Some(ConfigError("NO_PATH")))
    else match file
      case Missing => LoadReply(None, Some(NotExist))
      case Unreadable => LoadReply(None, Some(FileError("READ_FAILED")))
      case Empty => LoadReply(None, None)
      case Null => LoadReply(None, None)
      case Malformed => LoadReply(None, Some(ConvertError))
      case Holds(items) => LoadReply(Some(items), None)
  }

  /**
   * `Open` of a store whose Loader is this file persister: an empty file,
   * or one holding null, opens the store and keeps its records; a missing file or an unset
   * path fails, keeps the records and leaves the Opened flag as it was; a
   * decodable file replaces the records by clones of the decoded ones.
   */
  method OpenFromFile<T(!new)>(p: MemoryPersistence<T>, path: string, file: FileState<T>) returns (err: Option<Error>)
    requires p.HasLoader
    modifies p`Items, p`Opened
    ensures path != "" && (file.Empty? || file.Null?) ==> err.None? && p.Items == old(p.Items) && p.Opened
    ensures path != "" && file.Missing? ==>
            err == Some(NotExist) && p.Items == old(p.Items) && p.Opened == old(p.Opened)
    ensures path == "" ==>
            err == Some(ConfigError("NO_PATH")) && p.Items == old(p.Items) && p.Opened == old(p.Opened)
    ensures path != "" && file.Holds? ==> err.None? && p.Items == CloneAll(file.items, p.Clone) && p.Opened
  {
    err := p.Open(Load(path, file));
  }
}
