/** The part of java.io.File and its streams the cache code uses: a
    filesystem of plain files and directories, each known by its absolute
    path, and input streams that deliver their content in chunks. */
module Disks {
  import opened Wrappers
  import opened Strings

  type Path = string

  /** File contents; bytes and characters are not told apart. */
  type Content = string

  /** `new File(dir, name).getAbsolutePath()` for an absolute `dir`. */
  function Child(dir: Path, name: string): (p: Path)
    ensures dir <= p && |p| == |dir| + 1 + |name| && p[|dir|] == '/' && p[|dir| + 1..] == name
  {
    dir + "/" + name
  }

  /** `getParentFile()`: the path before the last '/', or None. */
  function Parent(p: Path): (r: Option<Path>)
    ensures r.Some? ==> |r.value| < |p| && r.value <= p
  {
    var k := LastIndexOf(p, '/');
    if k < 0 then None else Some(p[..k])
  }

  /** A child whose name has no '/' lies directly in its directory. */
  lemma ParentOfChild(dir: Path, name: string)
    requires '/' !in name
    ensures Parent(Child(dir, name)) == Some(dir)
  {
    var p := Child(dir, name);
    assert p[|dir|] == '/';
    assert forall j :: |dir| < j < |p| ==> p[j] == name[j - |dir| - 1];
    var k := LastIndexOf(p, '/');
    assert k == |dir|;
    assert p[..k] == dir;
  }

  /** Children with different names are different paths. */
  lemma ChildInjective(dir: Path, a: string, b: string)
    requires Child(dir, a) == Child(dir, b)
    ensures a == b
  {
    assert a == Child(dir, a)[|dir| + 1..];
  }

  /** An input stream: the chunks its `read` calls return, and whether the
      read after the last chunk throws IOException instead of reporting
      the end. */
  datatype Stream = Stream(id: nat, chunks: seq<Content>, fails: bool)

  function Concat(chunks: seq<Content>): Content {
    if chunks == [] then [] else chunks[0] + Concat(chunks[1..])
  }

  lemma {:induction false} ConcatAppend(a: seq<Content>, b: seq<Content>)
    ensures Concat(a + b) == Concat(a) + Concat(b)
  {
    if a == [] {
      assert a + b == b;
    } else {
      assert (a + b)[1..] == a[1..] + b;
      ConcatAppend(a[1..], b);
    }
  }

  /** The index of the first path of `ps` that is in `present`, or None
      when none is: the "first existing file, in order" of a lookup loop. */
  function FirstPresent(ps: seq<Path>, present: set<Path>): (r: Option<nat>)
    ensures r.Some? ==> r.value < |ps| && ps[r.value] in present
    ensures r.Some? ==> forall j :: 0 <= j < r.value ==> ps[j] !in present
    ensures r.None? <==> forall j :: 0 <= j < |ps| ==> ps[j] !in present
  {
    if ps == [] then None
    else if ps[0] in present then Some(0)
    else match FirstPresent(ps[1..], present)
      case None => None
      case Some(k) => Some(k + 1)
  }

  /** When `File.renameTo` moves a file: the source is a plain file, the
      target is not a directory and its parent directory exists. */
  predicate CanRename(files: map<Path, Content>, dirs: set<Path>, from: Path, to: Path) {
    from in files && to !in dirs && Parent(to).Some? && Parent(to).value in dirs
  }

  /** Some file or directory lies directly in `d`. */
  ghost predicate HasEntries(files: map<Path, Content>, dirs: set<Path>, d: Path) {
    exists q :: q in files.Keys + dirs && Parent(q) == Some(d)
  }

  /** Every file outside `touched` is as it was, with the same content. */
  ghost predicate FilesKeptBesides(files0: map<Path, Content>, files: map<Path, Content>, touched: set<Path>) {
    forall q :: q !in touched ==> (q in files <==> q in files0) && (q in files ==> files[q] == files0[q])
  }

  /** The directories left by `File.delete(p)`: an empty directory at `p`
      goes, anything else stays. */
  ghost function DirsAfterDelete(files: map<Path, Content>, dirs: set<Path>, p: Path): set<Path> {
    if p in dirs && !HasEntries(files, dirs, p) then dirs - {p} else dirs
  }

  /** The files left by the cache `clear(dir)` loop: a plain file at `dir`
      goes, and for a directory every file directly in it. */
  ghost function ClearedFiles(files: map<Path, Content>, dirs: set<Path>, dir: Path): map<Path, Content> {
    if dir in dirs then map q | q in files && Parent(q) != Some(dir) :: files[q]
    else files - {dir}
  }

  /** The directories left once the entries of `dir` are deleted: a
      subdirectory of `dir` stays exactly when something lies in it. */
  ghost function ChildrenCleared(files: map<Path, Content>, dirs: set<Path>, dir: Path): set<Path> {
    set d | d in dirs && (Parent(d) == Some(dir) ==> HasEntries(files, dirs, d))
  }

  /** The directories left by the cache `clear(dir)` loop: then `dir`
      itself goes unless one of its subdirectories stayed. */
  ghost function ClearedDirs(files: map<Path, Content>, dirs: set<Path>, dir: Path): set<Path> {
    if dir in dirs then
      var left := ChildrenCleared(files, dirs, dir);
      if exists d :: d in left && Parent(d) == Some(dir) then left else left - {dir}
    else dirs
  }

  /** The entry-by-entry description of deleting a directory's entries
      amounts to the two functions above. */
  lemma ChildrenClearedState(files0: map<Path, Content>, dirs0: set<Path>, files1: map<Path, Content>, dirs1: set<Path>, dir: Path)
    requires dir in dirs0
    requires forall q :: q in files1 <==> q in files0 && Parent(q) != Some(dir)
    requires forall q :: q in files1 ==> files1[q] == files0[q]
    requires dirs1 <= dirs0
    requires forall d :: d in dirs0 && Parent(d) != Some(dir) ==> d in dirs1
    requires forall d :: d in dirs0 && Parent(d) == Some(dir) ==> (d in dirs1 <==> HasEntries(files0, dirs0, d))
    ensures files1 == ClearedFiles(files0, dirs0, dir) && dirs1 == ChildrenCleared(files0, dirs0, dir)
  {
  }

  /** Deleting the entries of `dir` and then `dir` itself leaves
      `ClearedFiles` and `ClearedDirs`. */
  lemma DirCleared(files0: map<Path, Content>, dirs0: set<Path>, files1: map<Path, Content>, dirs1: set<Path>,
                   files: map<Path, Content>, dirs: set<Path>, dir: Path)
    requires dir in dirs0 && dir in dirs1 && dir !in files1
    requires forall q :: q in files1 <==> q in files0 && Parent(q) != Some(dir)
    requires forall q :: q in files1 ==> files1[q] == files0[q]
    requires dirs1 <= dirs0
    requires forall d :: d in dirs0 && Parent(d) != Some(dir) ==> d in dirs1
    requires forall d :: d in dirs0 && Parent(d) == Some(dir) ==> (d in dirs1 <==> HasEntries(files0, dirs0, d))
    requires files == files1 - {dir} && dirs == DirsAfterDelete(files1, dirs1, dir)
    ensures forall q :: q in files <==> q in files0 && Parent(q) != Some(dir)
    ensures forall q :: q in files ==> files[q] == files0[q]
    ensures files == ClearedFiles(files0, dirs0, dir) && dirs == ClearedDirs(files0, dirs0, dir)
  {
    assert files == files1;
    ChildrenClearedState(files0, dirs0, files1, dirs1, dir);
    assert HasEntries(files1, dirs1, dir) <==> exists d :: d in dirs1 && Parent(d) == Some(dir);
  }

  /** What the cache `clear(dir)` loop leaves of the directories, entry by
      entry: only `dir` and its subdirectories can go, a subdirectory goes
      exactly when nothing lies in it, and `dir` goes exactly when all of
      them do. */
  lemma ClearedDirsMeaning(files: map<Path, Content>, dirs: set<Path>, dir: Path)
    requires dir in dirs
    ensures ClearedDirs(files, dirs, dir) <= dirs
    ensures forall d :: d in dirs && d != dir && Parent(d) != Some(dir) ==> d in ClearedDirs(files, dirs, dir)
    ensures forall d :: d in dirs && Parent(d) == Some(dir) ==> (d in ClearedDirs(files, dirs, dir) <==> HasEntries(files, dirs, d))
    ensures dir !in ClearedDirs(files, dirs, dir) <==> forall d :: d in dirs && Parent(d) == Some(dir) ==> !HasEntries(files, dirs, d)
  {
    var left := ChildrenCleared(files, dirs, dir);
    assert dir in left by {
      assert Parent(dir) != Some(dir);
    }
    if d :| d in dirs && Parent(d) == Some(dir) && HasEntries(files, dirs, d) {
      assert d in left;
    }
  }

  /** Two prefixes of one path are prefixes of one another. */
  lemma PrefixesComparable(a: Path, b: Path, q: Path)
    requires a <= q && b <= q
    ensures a <= b || b <= a
  {
    if |a| <= |b| {
      assert a == q[..|a|] && b[..|a|] == q[..|a|];
    } else {
      assert b == q[..|b|] && a[..|b|] == q[..|b|];
    }
  }

  /** An entry lying in a directory that lies in `p` has `p` as a prefix. */
  lemma ParentPrefix(q: Path, d: Path, p: Path)
    requires Parent(q) == Some(d) && Parent(d) == Some(p)
    ensures p <= q && |p| < |d| < |q|
  {
    assert d == q[..|d|] && p == d[..|p|];
    assert q[..|d|][..|p|] == q[..|p|];
  }

  /** Making `c` a directory and dropping a file there changes what lies
      in another directory only when `c` lies in it. */
  lemma EntriesBesides(files: map<Path, Content>, dirs: set<Path>, c: Path)
    ensures forall d :: Parent(c) != Some(d) ==> (HasEntries(files - {c}, dirs + {c}, d) <==> HasEntries(files, dirs, d))
  {
  }

  /** Deleting entries of `dir` leaves what lies in a subdirectory of it
      untouched. */
  lemma EntriesKept(files0: map<Path, Content>, dirs0: set<Path>, files1: map<Path, Content>, dirs1: set<Path>,
                    dir: Path, gone: set<Path>, d: Path)
    requires Parent(d) == Some(dir)
    requires forall q :: q in gone ==> Parent(q) == Some(dir)
    requires forall q :: q in files1 <==> q in files0 && q !in gone
    requires dirs1 <= dirs0
    requires forall q :: q in dirs0 && q !in gone ==> q in dirs1
    ensures HasEntries(files1, dirs1, d) <==> HasEntries(files0, dirs0, d)
  {
    assert forall q :: Parent(q) == Some(d) ==> q !in gone;
  }

  /** Midway through deleting the `listed` entries of `dir`: those `done`
      are gone, except the subdirectories that still hold entries. */
  ghost predicate ChildrenDeleting(files0: map<Path, Content>, dirs0: set<Path>, dir: Path, listed: set<Path>, done: set<Path>,
                                   files: map<Path, Content>, dirs: set<Path>) {
    && (forall q :: q in listed <==> q in files0.Keys + dirs0 && Parent(q) == Some(dir))
    && done <= listed
    && (forall q :: q in files <==> q in files0 && q !in done)
    && (forall q :: q in files ==> files[q] == files0[q])
    && dirs <= dirs0
    && (forall d :: d in dirs0 && d !in done ==> d in dirs)
    && (forall d :: d in dirs0 && d in done ==> (d in dirs <==> HasEntries(files0, dirs0, d)))
  }

  /** One more entry deleted: a file goes, a directory only when empty. */
  lemma ChildDeleted(files0: map<Path, Content>, dirs0: set<Path>, dir: Path, listed: set<Path>, done: set<Path>,
                     files: map<Path, Content>, dirs: set<Path>, q: Path)
    requires ChildrenDeleting(files0, dirs0, dir, listed, done, files, dirs)
    requires q in listed && q !in done
    ensures var empty := q in dirs && !HasEntries(files, dirs, q);
            ChildrenDeleting(files0, dirs0, dir, listed, done + {q}, files - {q}, if empty then dirs - {q} else dirs)
  {
    if q in dirs {
      EntriesKept(files0, dirs0, files, dirs, dir, done, q);
    }
  }

  class Disk {
    var files: map<Path, Content>
    var dirs: set<Path>
    /** the streams closed so far, in order */
    var closed: seq<nat>

    ghost predicate Valid()
      reads this
    {
      forall p :: p in files ==> p !in dirs
    }

    constructor (files0: map<Path, Content>, dirs0: set<Path>)
      requires forall p :: p in files0 ==> p !in dirs0
      ensures Valid() && files == files0 && dirs == dirs0 && closed == []
    {
      files, dirs, closed := files0, dirs0, [];
    }

    predicate Exists(p: Path)
      reads this
    {
      p in files || p in dirs
    }

    /** Every path `exists()` is true for. */
    function Present(): (ps: set<Path>)
      reads this
      ensures forall p :: p in ps <==> Exists(p)
    {
      files.Keys + dirs
    }

    /** A directory holding no file and no directory. */
    predicate IsEmptyDir(p: Path)
      reads this
    {
      p in dirs && (forall q :: q in files ==> Parent(q) != Some(p)) && (forall q :: q in dirs ==> Parent(q) != Some(p))
    }

    /** An empty directory is one with no entries, so `delete` leaves
        the directories `DirsAfterDelete` names. */
    lemma EmptyDirHasNoEntries(p: Path)
      ensures IsEmptyDir(p) <==> p in dirs && !HasEntries(files, dirs, p)
      ensures (if IsEmptyDir(p) then dirs - {p} else dirs) == DirsAfterDelete(files, dirs, p)
    {
    }

    /** `File.delete`: removes a file or an empty directory. */
    method Delete(p: Path) returns (ok: bool)
      requires Valid()
      modifies this`files, this`dirs
      ensures Valid()
      ensures ok <==> old(p in files) || old(IsEmptyDir(p))
      ensures files == old(files) - {p} && dirs == (if old(IsEmptyDir(p)) then old(dirs) - {p} else old(dirs))
    {
      if p in files {
        files := files - {p};
        return true;
      }
      if IsEmptyDir(p) {
        dirs := dirs - {p};
        return true;
      }
      return false;
    }

    /** `File.mkdirs` for a missing directory whose parent chain is taken
        to be creatable; it fails for an existing path. */
    method Mkdirs(p: Path) returns (ok: bool)
      requires Valid()
      modifies this
      ensures Valid() && files == old(files) && closed == old(closed)
      ensures ok <==> !old(Exists(p))
      ensures dirs == if ok then old(dirs) + {p} else old(dirs)
    {
      if Exists(p) {
        return false;
      }
      dirs := dirs + {p};
      ok := true;
    }

    /** `File.renameTo` for a plain file; an existing target file is
        replaced, a target directory or a missing parent directory refuses
        the rename. */
    method RenameTo(from: Path, to: Path) returns (ok: bool)
      requires Valid()
      modifies this
      ensures Valid() && dirs == old(dirs) && closed == old(closed)
      ensures ok <==> CanRename(old(files), old(dirs), from, to)
      ensures ok ==> files == (old(files) - {from})[to := old(files)[from]]
      ensures !ok ==> files == old(files)
    {
      if from !in files || to in dirs || Parent(to).None? || Parent(to).value !in dirs {
        return false;
      }
      files := (files - {from})[to := files[from]];
      ok := true;
    }

    /** `new FileOutputStream(p)`: creates or truncates the file; fails
        (FileNotFoundException) for a directory or a missing parent. */
    method Create(p: Path) returns (ok: bool)
      requires Valid()
      modifies this
      ensures Valid() && dirs == old(dirs) && closed == old(closed)
      ensures ok <==> p !in old(dirs) && Parent(p).Some? && Parent(p).value in old(dirs)
      ensures files == if ok then old(files)[p := []] else old(files)
    {
      if p in dirs || Parent(p).None? || Parent(p).value !in dirs {
        return false;
      }
      files := files[p := []];
      ok := true;
    }

    /** The copy loop `while ((read = in.read(buffer)) != -1)
        out.write(buffer, 0, read)` into an open file: every chunk is
        appended in order, and the result says whether the end was reached
        (false when the final read throws). */
    method CopyStream(s: Stream, p: Path) returns (ok: bool)
      requires Valid() && p in files
      modifies this
      ensures Valid() && dirs == old(dirs) && closed == old(closed)
      ensures files == old(files)[p := old(files)[p] + Concat(s.chunks)]
      ensures ok <==> !s.fails
    {
      var i := 0;
      assert old(files)[p] + Concat(s.chunks[..0]) == old(files)[p];
      while i < |s.chunks|
        invariant 0 <= i <= |s.chunks|
        invariant p in files && dirs == old(dirs) && closed == old(closed)
        invariant files - {p} == old(files) - {p}
        invariant files[p] == old(files)[p] + Concat(s.chunks[..i])
      {
        ConcatAppend(s.chunks[..i], [s.chunks[i]]);
        assert s.chunks[..i + 1] == s.chunks[..i] + [s.chunks[i]];
        assert Concat([s.chunks[i]]) == s.chunks[i] + Concat([]);
        files := files[p := files[p] + s.chunks[i]];
        i := i + 1;
      }
      assert s.chunks[..i] == s.chunks;
      assert files == (files - {p})[p := files[p]];
      ok := !s.fails;
    }

    /** `new FileOutputStream(p)` followed by the copy loop; the result
        says whether the file could be opened. */
    method CreateAndCopy(p: Path, s: Stream) returns (created: bool, copied: bool)
      requires Valid()
      modifies this
      ensures Valid() && dirs == old(dirs) && closed == old(closed)
      ensures created <==> p !in old(dirs) && Parent(p).Some? && Parent(p).value in old(dirs)
      ensures files == if created then old(files)[p := Concat(s.chunks)] else old(files)
      ensures copied <==> created && !s.fails
    {
      created := Create(p);
      copied := false;
      if created {
        copied := CopyStream(s, p);
        assert [] + Concat(s.chunks) == Concat(s.chunks);
      }
    }

    /** Writing `data` to an open file appends it. */
    method Write(p: Path, data: Content)
      requires Valid() && p in files
      modifies this
      ensures Valid() && dirs == old(dirs) && closed == old(closed)
      ensures files == old(files)[p := old(files)[p] + data]
    {
      files := files[p := files[p] + data];
    }

    /** `close()` on the input stream with this id. */
    method Close(id: nat)
      modifies this
      ensures files == old(files) && dirs == old(dirs) && closed == old(closed) + [id]
    {
      closed := closed + [id];
    }

    /** A cache root getter: a plain file in the way is deleted, and a
        missing directory is created. */
    method EnsureDir(p: Path)
      requires Valid()
      modifies this
      ensures Valid() && closed == old(closed)
      ensures p in dirs && files == old(files) - {p}
      ensures dirs == old(dirs) + {p}
    {
      if p in files {
        var _ := Delete(p);
      }
      if !Exists(p) {
        var _ := Mkdirs(p);
      }
    }

    /** The entries `listFiles()` returns for a directory: every file and
        directory lying directly in it. */
    ghost function Children(dir: Path): set<Path>
      reads this
    {
      set q | q in files.Keys + dirs && Parent(q) == Some(dir)
    }

    /** Deletes, one by one, every entry `listFiles()` returns for the
        directory `dir`; a non-empty subdirectory refuses. */
    method DeleteChildren(dir: Path)
      requires Valid() && dir in dirs
      modifies this`files, this`dirs
      ensures Valid() && dir in dirs
      ensures forall q :: q in files <==> q in old(files) && Parent(q) != Some(dir)
      ensures forall q :: q in files ==> files[q] == old(files)[q]
      ensures dirs <= old(dirs)
      ensures forall d :: d in old(dirs) && Parent(d) != Some(dir) ==> d in dirs
      ensures forall d :: d in old(dirs) && Parent(d) == Some(dir) ==> (d in dirs <==> HasEntries(old(files), old(dirs), d))
    {
      var todo := set q | q in files.Keys + dirs && Parent(q) == Some(dir);
      ghost var listed := todo;
      while todo != {}
        invariant Valid() && todo <= listed && dir in dirs
        invariant ChildrenDeleting(old(files), old(dirs), dir, listed, listed - todo, files, dirs)
        decreases |todo|
      {
        var q :| q in todo;
        assert IsEmptyDir(q) <==> q in dirs && !HasEntries(files, dirs, q);
        ChildDeleted(old(files), old(dirs), dir, listed, listed - todo, files, dirs, q);
        var _ := Delete(q);
        assert listed - (todo - {q}) == (listed - todo) + {q};
        todo := todo - {q};
      }
    }

    /** The cache `clear(dir)` loop: when `dir` exists, delete every entry
        `listFiles()` returns (a non-empty subdirectory refuses), then
        `dir` itself. For a plain file `listFiles()` returns null and only
        the file is deleted. */
    method ClearDir(dir: Path)
      requires Valid()
      modifies this
      ensures Valid() && closed == old(closed)
      ensures !old(Exists(dir)) ==> files == old(files) && dirs == old(dirs)
      ensures old(dir in files) ==> files == old(files) - {dir} && dirs == old(dirs)
      ensures old(dir in dirs) ==> forall q :: q in files <==> q in old(files) && Parent(q) != Some(dir)
      ensures forall q :: q in files ==> files[q] == old(files)[q]
      ensures dirs <= old(dirs)
      ensures forall d :: d in old(dirs) && d != dir && Parent(d) != Some(dir) ==> d in dirs
      ensures old(dir in dirs) && (forall d :: d in old(dirs) ==> Parent(d) != Some(dir)) ==> dir !in dirs
      ensures old(dir in dirs) ==>
                forall d :: d in old(dirs) && Parent(d) == Some(dir) ==> (d in dirs <==> HasEntries(old(files), old(dirs), d))
      ensures old(dir in dirs) ==>
                (dir !in dirs <==> forall d :: d in old(dirs) && Parent(d) == Some(dir) ==> !HasEntries(old(files), old(dirs), d))
      ensures files == ClearedFiles(old(files), old(dirs), dir) && dirs == ClearedDirs(old(files), old(dirs), dir)
    {
      if !Exists(dir) {
        assert files - {dir} == files;
        return;
      }
      if dir in files {
        var _ := Delete(dir);
        return;
      }
      ClearExistingDir(dir);
    }

    /** The directory case of `clear(dir)`: every entry of `dir` is
        deleted (a non-empty subdirectory refuses), then `dir` itself. */
    method ClearExistingDir(dir: Path)
      requires Valid() && dir in dirs
      modifies this`files, this`dirs
      ensures Valid()
      ensures forall q :: q in files <==> q in old(files) && Parent(q) != Some(dir)
      ensures forall q :: q in files ==> files[q] == old(files)[q]
      ensures dirs <= old(dirs)
      ensures forall d :: d in old(dirs) && d != dir && Parent(d) != Some(dir) ==> d in dirs
      ensures (forall d :: d in old(dirs) ==> Parent(d) != Some(dir)) ==> dir !in dirs
      ensures forall d :: d in old(dirs) && Parent(d) == Some(dir) ==> (d in dirs <==> HasEntries(old(files), old(dirs), d))
      ensures dir !in dirs <==> forall d :: d in old(dirs) && Parent(d) == Some(dir) ==> !HasEntries(old(files), old(dirs), d)
      ensures files == ClearedFiles(old(files), old(dirs), dir) && dirs == ClearedDirs(old(files), old(dirs), dir)
    {
      ghost var files0, dirs0 := files, dirs;
      DeleteChildren(dir);
      ghost var files1, dirs1 := files, dirs;
      EmptyDirHasNoEntries(dir);
      var _ := Delete(dir);
      DirCleared(files0, dirs0, files1, dirs1, files, dirs, dir);
      ClearedDirsMeaning(files0, dirs0, dir);
    }
  }
}
