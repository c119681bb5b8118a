/**
 * The target directory as the engine sees it through `tokio::fs`: whether it exists, and the
 * paths of its entries (each one `directory.join(name)`). Writing a file inserts its path;
 * removing one deletes it.
 */
module Directory {
  import opened Seqs
  import opened Paths

  class ReplayDirectory {
    const path: Path
    var present: bool
    var entries: set<Path>

    /** A directory that does not exist has no entries. */
    ghost predicate Valid()
      reads this
    {
      present || entries == {}
    }

    constructor (path: Path, present: bool, entries: set<Path>)
      requires present || entries == {}
      ensures Valid()
      ensures this.path == path && this.present == present && this.entries == entries
    {
      this.path := path;
      this.present := present;
      this.entries := entries;
    }

    /** `fs::create_dir`, called only when `fs::try_exists` said the directory is absent. */
    method CreateDir()
      requires Valid() && !present
      modifies this
      ensures Valid() && present && entries == {}
    {
      present := true;
    }

    /** `fs::File::create` followed by `write_all`: the path is there afterwards, whatever was there before. */
    method Write(p: Path)
      requires Valid() && present
      modifies this
      ensures Valid() && present && entries == old(entries) + {p}
    {
      entries := entries + {p};
    }

    /** `fs::remove_file` of a listed entry. */
    method RemoveFile(p: Path)
      requires Valid() && p in entries
      modifies this
      ensures Valid() && present == old(present) && entries == old(entries) - {p}
    {
      entries := entries - {p};
    }

    /** `fs::read_dir`: every entry exactly once, in an order the model does not fix. */
    method ReadDir() returns (listing: seq<Path>)
      ensures NoDuplicates(listing)
      ensures forall p :: p in listing <==> p in entries
    {
      var unlisted := entries;
      listing := [];
      while unlisted != {}
        invariant unlisted <= entries
        invariant NoDuplicates(listing)
        invariant forall p :: p in listing <==> p in entries && p !in unlisted
        decreases |unlisted|
      {
        var p :| p in unlisted;
        listing := listing + [p];
        unlisted := unlisted - {p};
      }
    }
  }
}
