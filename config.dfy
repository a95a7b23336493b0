/**
 * The configuration (config/config.go): a root path and a database file
 * name, and the paths composed from them.
 */
module Configs {
  import opened Wrappers
  import opened Paths
  import opened Filenames

  const DefaultStorageSubdir := "storage"

  /** The storage sub-directory made a path: it has no '/', so NewPath appends one. */
  lemma StorageSubdirPath()
    ensures Trailing(Cleaned(DefaultStorageSubdir)).0 == Some("storage/")
  {
    StorageChars();
    NoSlashPath(DefaultStorageSubdir);
  }

  lemma StorageChars()
    ensures DefaultStorageSubdir != [] && '/' !in DefaultStorageSubdir && ':' !in DefaultStorageSubdir
    ensures DefaultStorageSubdir + "/" == "storage/"
  {
  }

  class Config {
    /** Root *Path: None for nil. */
    var root: Option<string>
    /** DB *Filename: None for nil. */
    var db: Option<string>

    constructor (root: Option<string>, db: Option<string>)
      ensures this.root == root && this.db == db
    {
      this.root := root;
      this.db := db;
    }

    /** DbPath: nil without a database name, else the root's string followed by the name. */
    function DbPath(): (r: Option<string>)
      reads this
      ensures r.None? <==> db.None?
      ensures r.Some? ==> |r.value| == |PathString(root)| + |db.value| &&
                          r.value[..|PathString(root)|] == PathString(root) &&
                          r.value[|PathString(root)|..] == db.value
    {
      if db.None? then None else Some(PathString(root) + db.value)
    }

    /** RootPath: the root's string ("<nil>" without a root). */
    function RootPath(): (r: string)
      reads this
      ensures root.Some? ==> r == root.value
    {
      PathString(root)
    }

    /** StoragePath: "storage/" appended to the root; under a normalised root, the root followed by "storage/". */
    method StoragePath() returns (p: Option<string>)
      ensures p == Joined(root, Some("storage/"))
      ensures root.Some? && Normal(root.value) ==> p == Some(root.value + "storage/")
    {
      var sub, err := NewPath(DefaultStorageSubdir);
      StorageSubdirPath();
      p := Append(root, sub);
      if root.Some? && Normal(root.value) {
        assert Normal("storage/") by {
          assert IndexDouble("storage/") == -1;
          assert LastIndex("storage/", ':') == -1;
        }
        AppendJoins(root.value, "storage/");
      }
    }

    /** FilePath: the storage path's string followed by the name's. */
    method FilePath(name: Option<string>) returns (r: string)
      ensures root.Some? && Normal(root.value) ==> r == root.value + "storage/" + FilenameString(name)
      ensures r == PathString(Joined(root, Some("storage/"))) + FilenameString(name)
    {
      var s := StoragePath();
      r := PathString(s) + FilenameString(name);
    }

    /** WithRoot: the root becomes NewPath of `path`, its error dropped; the receiver is returned. */
    method WithRoot(path: string) returns (c: Config)
      modifies this
      ensures c == this && root == Trailing(Cleaned(path)).0 && db == old(db)
      ensures root.Some? ==> Normal(root.value)
    {
      var p, err := NewPath(path);
      root := p;
      c := this;
    }

    /** WithDB: the database name becomes NewFilename of `filename`; the receiver is returned. */
    method WithDB(filename: string) returns (c: Config)
      modifies this
      ensures c == this && db == NewFilename(filename) && root == old(root)
    {
      db := NewFilename(filename);
      c := this;
    }
  }

  /**
   * A root set through WithRoot survives RootPath and composes with a file
   * name as config/config_test.go expects: the normalised root, "storage/",
   * then the name.
   */
  method RootThenFile(path: string, name: string) returns (root: string, file: string)
    requires Normal(path)
    ensures root == path
    ensures name != [] && '/' !in name ==> file == path + "storage/" + name
  {
    var c := new Config(None, None);
    c := c.WithRoot(path);
    NewPathIdempotent(path);
    root := c.RootPath();
    file := c.FilePath(NewFilename(name));
  }
}
