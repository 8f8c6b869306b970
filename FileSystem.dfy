/** A snapshot of the file system as the backup code observes it through
    `os.path.exists`, `isdir`, `isfile`, `getsize` and `os.listdir`. Paths are
    the exact strings the code builds; each directory that has been listed
    carries its entries in listing order. `blocked` holds the paths at which
    creating a directory or a file fails for a reason the snapshot does not
    show otherwise (no write permission, a file standing where a parent
    directory should be, a read-only mount). */
module FileSystem {
  import opened Wrappers

  datatype Fs = Fs(
    dirs: set<string>,
    files: map<string, nat>,          // file path to size in bytes
    listing: map<string, seq<string>>, // directory path to its entries
    blocked: set<string>
  )

  predicate Exists(fs: Fs, p: string)
  {
    p in fs.dirs || p in fs.files
  }

  predicate IsDir(fs: Fs, p: string)
  {
    p in fs.dirs
  }

  predicate IsFile(fs: Fs, p: string)
  {
    p in fs.files
  }

  /** `os.listdir(p)`: the entries of `p` in the order the system gives. */
  function Listdir(fs: Fs, p: string): seq<string>
  {
    if p in fs.listing then fs.listing[p] else []
  }

  /** A successful `os.makedirs(p)` / `os.mkdir(p)`: `p` is a directory
      afterwards. */
  function AddDir(fs: Fs, p: string): Fs
  {
    fs.(dirs := fs.dirs + {p})
  }

  /** The exception `os.makedirs(p)` raises for a path that does not exist
      yet, if any. It creates missing parents, so only a blocked path fails. */
  function MakedirsError(fs: Fs, p: string): Option<PyError>
  {
    if p in fs.blocked then Some(OSError) else None
  }

  /** The exception `os.mkdir(p)` raises for a path that is not a directory,
      if any: FileExistsError when a file is in the way. */
  function MkdirError(fs: Fs, p: string): Option<PyError>
  {
    if IsFile(fs, p) then Some(FileExistsError)
    else if p in fs.blocked then Some(OSError)
    else None
  }

  /** The exception `open(p, 'w')` raises, if any: IsADirectoryError when `p`
      is a directory. */
  function OpenError(fs: Fs, p: string): Option<PyError>
  {
    if IsDir(fs, p) then Some(IsADirectoryError)
    else if p in fs.blocked then Some(OSError)
    else None
  }
}
