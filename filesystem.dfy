/**
  * The abstract filesystem the synchroniser works on: a finite map from
  * absolute paths (sequences of path components) to entries, the root
  * frontier (FolderActionGroup), and the outcome of the Qt primitives
  * QDir::mkdir, MTFile::copy and MTFile::remove.
  */
module FileSystem {
  type Path = seq<string>

  /** A directory entry: a directory or a regular file with its modification time. */
  datatype Entry = Entry(isDir: bool, mtime: int)

  type Disk = map<Path, Entry>

  /** One root of the frontier: the root's id and the path of the current tree position in it. */
  datatype Root = Root(id: int, path: Path)

  /** FolderActionGroup: an ordered list of (id, path) pairs. */
  type Frontier = seq<Root>

  /**
    * What the model cannot see of a primitive call (permissions, a full disk, ...):
    * whether it would succeed on an otherwise valid request, and the error text
    * MTFile::errorString reports for the file object named by a path.
    */
  datatype Oracles = Oracles(
    mkdirOk: Path -> bool,
    copyOk: (Path, Path) -> bool,
    removeOk: Path -> bool,
    errorText: Path -> string)

  function Parent(p: Path): Path
    requires |p| > 0
  {
    p[..|p| - 1]
  }

  /** QDir(p).exists(): p names an existing directory. */
  predicate DirExists(fs: Disk, p: Path)
  {
    p in fs && fs[p].isDir
  }

  /** Every root of f moved down to its entry `name`. */
  function Moved(f: Frontier, name: string): (g: Frontier)
    ensures |g| == |f|
    ensures forall i :: 0 <= i < |f| ==> g[i] == Root(f[i].id, f[i].path + [name])
  {
    seq(|f|, i requires 0 <= i < |f| => Root(f[i].id, f[i].path + [name]))
  }

  function Ids(f: Frontier): set<int>
  {
    set r | r in f :: r.id
  }

  /**
    * A hidden entry, which entryList leaves out unless QDir::Hidden is asked
    * for: on Unix, a name starting with '.'.
    */
  predicate Hidden(name: string)
  {
    |name| > 0 && name[0] == '.'
  }

  /**
    * QDir(p).entryList(filters, NoDotAndDotDot | Files | AllDirs): the names of
    * the entries directly under p that are not hidden; with AllDirs the name
    * filters apply to files only, so every visible directory is listed
    * (ListingMembers).
    */
  function Listing(fs: Disk, p: Path, filter: string -> bool): set<string>
  {
    set q | q in fs && |q| == |p| + 1 && q[..|p|] == p && !Hidden(q[|p|]) && (fs[q].isDir || filter(q[|p|])) :: q[|p|]
  }

  /** A name is listed under p exactly when p has a visible entry of that name that is a directory or passes the filter. */
  lemma ListingMembers(fs: Disk, p: Path, filter: string -> bool)
    ensures forall n :: n in Listing(fs, p, filter) <==> p + [n] in fs && !Hidden(n) && (fs[p + [n]].isDir || filter(n))
  {
    var names := Listing(fs, p, filter);
    forall n | p + [n] in fs && !Hidden(n) && (fs[p + [n]].isDir || filter(n)) ensures n in names {
      var q := p + [n];
      assert q[..|p|] == p && q[|p|] == n;
    }
    forall n | n in names ensures p + [n] in fs && !Hidden(n) && (fs[p + [n]].isDir || filter(n)) {
      var q :| q in fs && |q| == |p| + 1 && q[..|p|] == p && !Hidden(q[|p|]) && (fs[q].isDir || filter(q[|p|])) && q[|p|] == n;
      assert q == p + [n];
    }
  }

  /** A hidden entry, file or directory, is never listed, whatever the filters say. */
  lemma HiddenNeverListed(fs: Disk, p: Path, filter: string -> bool, n: string)
    requires Hidden(n)
    ensures n !in Listing(fs, p, filter)
  {
    ListingMembers(fs, p, filter);
  }

  /** QDir::mkdir: fails when the parent is not a directory or the path is taken. */
  predicate MkdirSucceeds(o: Oracles, fs: Disk, p: Path)
  {
    |p| > 0 && DirExists(fs, Parent(p)) && p !in fs && o.mkdirOk(p)
  }

  /** MTFile::copy: like QFile::copy, it never overwrites an existing destination. */
  predicate CopySucceeds(o: Oracles, fs: Disk, src: Path, dest: Path)
  {
    src in fs && !fs[src].isDir && |dest| > 0 && DirExists(fs, Parent(dest)) && dest !in fs && o.copyOk(src, dest)
  }

  /** MTFile::remove: removes an existing regular file. */
  predicate RemoveSucceeds(o: Oracles, fs: Disk, p: Path)
  {
    p in fs && !fs[p].isDir && o.removeOk(p)
  }

  /** A newly created directory carries no meaningful time. */
  const NewDir := Entry(true, 0)
}
