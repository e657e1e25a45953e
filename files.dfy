/**
 * An abstract filesystem: the entries that exist, keyed by their absolute
 * components, and the process's working directory. The root always exists
 * as a directory and is not an entry.
 */
module Files {
  import opened Wrappers
  import opened Paths

  /** A directory, or a file whose text can be read (`None` when opening or reading it fails). */
  datatype Entry = Directory | File(text: Option<string>)

  /** `k` names the root or a directory entry of `m`. */
  predicate DirectoryIn(m: map<seq<string>, Entry>, k: seq<string>) {
    k == [] || (k in m && m[k].Directory?)
  }

  /** Every location above an entry is a directory, and the root is not an entry. */
  predicate TreeShaped(m: map<seq<string>, Entry>) {
    [] !in m && forall k, j | k in m && 0 < j < |k| :: k[..j] in m && m[k[..j]].Directory?
  }

  /** No component of `k`, the last included, is a file of `m`. */
  predicate NoFileOnWay(m: map<seq<string>, Entry>, k: seq<string>) {
    forall j | 1 <= j <= |k| :: k[..j] !in m || m[k[..j]].Directory?
  }

  /** In a tree, the locations above a directory are directories. */
  lemma AncestorsAreDirectories(m: map<seq<string>, Entry>, k: seq<string>, i: nat)
    requires TreeShaped(m) && i <= |k| && DirectoryIn(m, k[..i])
    ensures forall j | 1 <= j <= i :: k[..j] in m && m[k[..j]].Directory?
  {
    forall j | 1 <= j < i ensures k[..j] in m && m[k[..j]].Directory? {
      assert k[..i][..j] == k[..j];
    }
  }

  /** Adding the next directory below an existing one keeps the tree shape. */
  lemma AddDirectory(m: map<seq<string>, Entry>, k: seq<string>, i: nat)
    requires TreeShaped(m) && i < |k| && DirectoryIn(m, k[..i])
    ensures TreeShaped(m[k[..i + 1] := Directory])
    ensures DirectoryIn(m[k[..i + 1] := Directory], k[..i + 1])
  {
    var m' := m[k[..i + 1] := Directory];
    AncestorsAreDirectories(m, k, i);
    forall q, j | q in m' && 0 < j < |q| ensures q[..j] in m' && m'[q[..j]].Directory? {
      if q == k[..i + 1] {
        assert q[..j] == k[..j];
      }
    }
  }

  /** The state of the filesystem: its entries and the process's working directory (`None` when `env::current_dir` fails). */
  datatype Disk = Disk(entries: map<seq<string>, Entry>, cwd: Option<seq<string>>) {

    /** Entries form a tree and the working directory is a directory. */
    predicate Valid() {
      TreeShaped(entries) && (cwd.Some? ==> DirectoryIn(entries, cwd.value))
    }

    /** The absolute location that `p` names; relative paths are taken from the working directory. */
    function Resolve(p: Path): (r: Option<seq<string>>)
      ensures r.None? <==> !p.absolute && cwd.None?
    {
      if p.absolute then Some(p.components)
      else if cwd.Some? then Some(cwd.value + p.components)
      else None
    }

    /** `fs::metadata(p)`: the entry at `p`, or `None` when it cannot be found. */
    function Metadata(p: Path): (r: Option<Entry>)
      ensures r.Some? ==> Resolve(p).Some?
    {
      match Resolve(p)
      case None => None
      case Some(k) => if k == [] then Some(Directory) else if k in entries then Some(entries[k]) else None
    }

    /** `Path::exists`. */
    predicate Exists(p: Path) {
      Metadata(p).Some?
    }

    /** `Path::is_dir`. */
    predicate IsDirectory(p: Path) {
      Metadata(p) == Some(Directory)
    }
  }

  /** How far down `k` the filesystem exists: the nearest location on the way to `k` that is an entry, or the root. */
  method NearestExisting(entries: map<seq<string>, Entry>, k: seq<string>) returns (i: nat)
    ensures i <= |k| && (i == 0 || k[..i] in entries)
    ensures forall j | i < j <= |k| :: k[..j] !in entries
  {
    i := |k|;
    while i > 0 && k[..i] !in entries
      invariant i <= |k|
      invariant forall j | i < j <= |k| :: k[..j] !in entries
      decreases i
    {
      i := i - 1;
    }
  }

  /** The filesystem as the analyser and `create_dir_all` see it: state that directory creation changes. */
  class FileSystem {
    var disk: Disk

    ghost predicate Valid()
      reads this
    {
      disk.Valid()
    }

    /** Creates the directories `k[..i + 1]`, ..., `k` below the existing directory `k[..i]`. */
    method CreateBelow(k: seq<string>, i: nat)
      requires TreeShaped(disk.entries) && i <= |k| && DirectoryIn(disk.entries, k[..i])
      requires forall j | i < j <= |k| :: k[..j] !in disk.entries
      modifies this
      ensures TreeShaped(disk.entries) && disk.cwd == old(disk.cwd)
      ensures DirectoryIn(disk.entries, k)
      ensures i == |k| ==> disk.entries == old(disk.entries)
      ensures forall q | q in old(disk.entries) :: q in disk.entries && disk.entries[q] == old(disk.entries)[q]
      ensures forall q | q in disk.entries && q !in old(disk.entries) :: disk.entries[q] == Directory && q != [] && |q| <= |k| && q == k[..|q|]
    {
      var n, m, dirs := |k|, i, disk.entries;
      while m < n
        invariant i <= m <= n
        invariant TreeShaped(dirs)
        invariant DirectoryIn(dirs, k[..m])
        invariant forall j | m < j <= n :: k[..j] !in dirs
        invariant forall q | q in old(disk.entries) :: q in dirs && dirs[q] == old(disk.entries)[q]
        invariant forall q | q in dirs && q !in old(disk.entries) :: dirs[q] == Directory && q != [] && |q| <= m && q == k[..|q|]
        invariant i == n ==> dirs == old(disk.entries)
        invariant disk.cwd == old(disk.cwd)
      {
        AddDirectory(dirs, k, m);
        forall j | m + 1 < j <= n ensures k[..j] != k[..m + 1] {
          assert |k[..j]| != |k[..m + 1]|;
        }
        m := m + 1;
        dirs := dirs[k[..m] := Directory];
      }
      assert k[..m] == k;
      disk := disk.(entries := dirs);
    }

    /**
     * `fs::create_dir_all(p)`: creates every missing directory on the way to `p`.
     * It succeeds when nothing on the way is a file, and in particular when `p`
     * already is a directory, and then changes nothing that existed before.
     */
    method CreateDirAll(p: Path) returns (ok: bool)
      requires Valid()
      modifies this
      ensures Valid() && disk.cwd == old(disk.cwd)
      ensures ok <==> p == Path(false, []) || (disk.Resolve(p).Some? && NoFileOnWay(old(disk.entries), disk.Resolve(p).value))
      ensures ok && p != Path(false, []) ==> disk.IsDirectory(p)
      ensures old(disk.IsDirectory(p)) ==> ok && disk.entries == old(disk.entries)
      ensures !ok ==> disk.entries == old(disk.entries)
      ensures forall q | q in old(disk.entries) :: q in disk.entries && disk.entries[q] == old(disk.entries)[q]
      ensures forall q | q in disk.entries && q !in old(disk.entries) ::
        disk.entries[q] == Directory && disk.Resolve(p).Some? && q != [] && |q| <= |disk.Resolve(p).value| && q == disk.Resolve(p).value[..|q|]
    {
      if p == Path(false, []) {
        return true;
      }
      var target := disk.Resolve(p);
      if target.None? {
        assert !disk.IsDirectory(p);
        return false;
      }
      var k := target.value;
      var n := |k|;
      assert k[..n] == k;
      assert disk.IsDirectory(p) <==> DirectoryIn(disk.entries, k);
      var i := NearestExisting(disk.entries, k);
      if i > 0 && disk.entries[k[..i]].File? {
        assert !NoFileOnWay(disk.entries, k);
        assert i < n || !disk.IsDirectory(p);
        return false;
      }
      AncestorsAreDirectories(disk.entries, k, i);
      assert NoFileOnWay(disk.entries, k);
      CreateBelow(k, i);
      ok := true;
    }
  }
}
