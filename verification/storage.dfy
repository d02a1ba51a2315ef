/**
 * The upload folder (`uploads/` for the local service, `/tmp` for the serverless one),
 * seen as the set of paths currently present in it.
 */
module Storage {

  class TempStore {
    var files: set<string>

    constructor (initial: set<string>)
      ensures files == initial
    {
      files := initial;
    }

    /** `file.save(path)` / `image.save(path)` once the write succeeded; an existing file is overwritten. */
    method Save(path: string)
      modifies this
      ensures files == old(files) + {path}
      ensures path in files
    {
      files := files + {path};
    }

    /** `os.path.exists(path)`. */
    method Exists(path: string) returns (present: bool)
      ensures present <==> path in files
    {
      present := path in files;
    }

    /** `os.remove(path)`, which raises unless the path is present. */
    method Remove(path: string)
      requires path in files
      modifies this
      ensures files == old(files) - {path}
      ensures path !in files
    {
      files := files - {path};
    }
  }
}
