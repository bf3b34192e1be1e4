/** `AXrLottieCacheManager`: the network and local cache roots, the cache
    files in them, writing a stream to a (temp) cache file, promoting a
    temp file once it has parsed, and clearing both roots. */
module CacheManagers {
  import opened Wrappers
  import opened Strings
  import opened Extensions
  import opened Disks
  import opened CacheNames

  /** The suffix of a local JSON copy, after the ".json" extension. */
  const LOCAL_CACHE_SUFFIX: string := ".cache"

  /** `fetchLocalFromCache`'s file: `<name>.json.cache` in the local root. */
  function LocalCacheFile(root: Path, name: string): Path {
    Child(root, FindCacheName(name, JSON, false, false) + LOCAL_CACHE_SUFFIX)
  }

  lemma LocalCacheFileInRoot(root: Path, name: string)
    ensures Parent(LocalCacheFile(root, name)) == Some(root)
    ensures LocalCacheFile(root, name) != root
  {
    var n := FindCacheName(name, JSON, false, false) + LOCAL_CACHE_SUFFIX;
    assert n == CacheNameHead(name, false) + (JSON_EXTENSION + LOCAL_CACHE_SUFFIX);
    assert '/' !in JSON_EXTENSION + LOCAL_CACHE_SUFFIX;
    ParentOfChild(root, n);
  }

  /** The effect of a root getter on the disk: a plain file at the root is
      gone and the root is a directory. */
  ghost predicate RootEnsured(files0: map<Path, Content>, dirs0: set<Path>, files1: map<Path, Content>, dirs1: set<Path>, root: Path) {
    files1 == files0 - {root} && dirs1 == dirs0 + {root}
  }

  /** The paths `loadTempFile` works with: the temp JSON file and its
      promotion target, both directly in the root. */
  lemma PromotedJsonFile(root: Path, cache: string, fromNetwork: bool)
    ensures CacheFile(root, cache, JSON, fromNetwork, true) != root
    ensures CacheFile(root, cache, JSON, fromNetwork, false) != root
    ensures PromotedPath(root, FindCacheName(cache, JSON, fromNetwork, true)) == CacheFile(root, cache, JSON, fromNetwork, false)
  {
    CacheFileInRoot(root, cache, JSON, fromNetwork, true);
    CacheFileInRoot(root, cache, JSON, fromNetwork, false);
    JsonExtensionHasNoTemp();
    PromotedCacheFile(root, cache, JSON, fromNetwork);
  }

  /** Clearing the local root and then the network root, whatever the two
      paths: the files left are exactly those outside and at neither root,
      and only the roots and their subdirectories can lose their
      directory. */
  lemma ClearRoots(files: map<Path, Content>, dirs: set<Path>, local: Path, network: Path)
    ensures var files1 := ClearedFiles(files - {local}, dirs + {local}, local);
            var dirs1 := ClearedDirs(files - {local}, dirs + {local}, local);
            var files2 := ClearedFiles(files1 - {network}, dirs1 + {network}, network);
            var dirs2 := ClearedDirs(files1 - {network}, dirs1 + {network}, network);
            && (forall q :: q in files2 ==> files2[q] == files[q])
            && (forall q :: q in files2 <==>
                  q in files && q != local && q != network && Parent(q) != Some(local) && Parent(q) != Some(network))
            && dirs2 <= dirs + {local, network}
            && (forall d ::
                  (d in dirs && d != local && d != network && Parent(d) != Some(local) && Parent(d) != Some(network)) ==> d in dirs2)
            && ((forall d :: d in dirs ==> Parent(d) != Some(local) && Parent(d) != Some(network)) ==>
                  local !in dirs2 && network !in dirs2)
  {
    var filesA, dirsA := files - {local}, dirs + {local};
    ClearedDirsMeaning(filesA, dirsA, local);
    var files1 := ClearedFiles(filesA, dirsA, local);
    var dirs1 := ClearedDirs(filesA, dirsA, local);
    ClearedDirsMeaning(files1 - {network}, dirs1 + {network}, network);
  }

  /** Clearing the local root and then the network root, when neither
      path is a prefix of the other: each root's subdirectories stay
      exactly when something lay in them, and each root stays exactly when
      one of its subdirectories does. */
  lemma ClearUnrelatedRoots(files: map<Path, Content>, dirs: set<Path>, local: Path, network: Path)
    requires !(local <= network) && !(network <= local)
    ensures var files1 := ClearedFiles(files - {local}, dirs + {local}, local);
            var dirs1 := ClearedDirs(files - {local}, dirs + {local}, local);
            var dirs2 := ClearedDirs(files1 - {network}, dirs1 + {network}, network);
            && (forall d :: d in dirs && Parent(d) == Some(local) ==> (d in dirs2 <==> HasEntries(files, dirs, d)))
            && (forall d :: d in dirs && Parent(d) == Some(network) ==> (d in dirs2 <==> HasEntries(files, dirs, d)))
            && (local !in dirs2 <==> forall d :: d in dirs && Parent(d) == Some(local) ==> !HasEntries(files, dirs, d))
            && (network !in dirs2 <==> forall d :: d in dirs && Parent(d) == Some(network) ==> !HasEntries(files, dirs, d))
  {
    var filesA, dirsA := files - {local}, dirs + {local};
    EntriesBesides(files, dirs, local);
    ClearedDirsMeaning(filesA, dirsA, local);
    var files1 := ClearedFiles(filesA, dirsA, local);
    var dirs1 := ClearedDirs(filesA, dirsA, local);
    var filesB, dirsB := files1 - {network}, dirs1 + {network};
    ClearedDirsMeaning(filesB, dirsB, network);
    var dirs2 := ClearedDirs(filesB, dirsB, network);
    forall d | Parent(d) == Some(local)
      ensures d in dirs2 <==> d in dirs1
    {
      if d == network || Parent(d) == Some(network) {
        PrefixesComparable(local, network, d);
        assert false;
      }
    }
    assert local in dirs2 <==> local in dirs1 by {
      assert Parent(local) != Some(network);
    }
    forall d | Parent(d) == Some(network)
      ensures d in dirsB <==> d in dirs
      ensures HasEntries(filesB, dirsB, d) <==> HasEntries(files, dirs, d)
    {
      LocalClearSparesNetwork(files, dirs, local, network, d);
    }
  }

  /** Clearing the local root touches neither a subdirectory of an
      unrelated network root nor what lies in it. */
  lemma LocalClearSparesNetwork(files: map<Path, Content>, dirs: set<Path>, local: Path, network: Path, d: Path)
    requires !(local <= network) && !(network <= local) && Parent(d) == Some(network)
    ensures var files1 := ClearedFiles(files - {local}, dirs + {local}, local);
            var dirs1 := ClearedDirs(files - {local}, dirs + {local}, local);
            && (d in dirs1 + {network} <==> d in dirs)
            && (HasEntries(files1 - {network}, dirs1 + {network}, d) <==> HasEntries(files, dirs, d))
  {
    ClearedDirsMeaning(files - {local}, dirs + {local}, local);
    var files1 := ClearedFiles(files - {local}, dirs + {local}, local);
    var dirs1 := ClearedDirs(files - {local}, dirs + {local}, local);
    if d == local || Parent(d) == Some(local) {
      PrefixesComparable(local, network, d);
      assert false;
    }
    forall q | Parent(q) == Some(d)
      ensures q in files1 - {network} <==> q in files
      ensures q in dirs1 + {network} <==> q in dirs
    {
      ParentPrefix(q, d, network);
      if q == local || Parent(q) == Some(local) {
        PrefixesComparable(local, network, q);
        assert false;
      }
    }
  }

  /** The cache file written after the root getter, seen from before the
      getter. */
  lemma WrittenInRoot(files0: map<Path, Content>, dirs0: set<Path>, files1: map<Path, Content>, dirs1: set<Path>,
                      files: map<Path, Content>, dirs: set<Path>, root: Path, f: Path, data: Content, fails: bool)
    requires files1 == files0 - {root} && dirs1 == dirs0 + {root} && f != root
    requires f in files <==> !fails && f !in dirs1 && Parent(f).Some? && Parent(f).value in dirs1
    requires f in files ==> files == files1[f := data]
    requires f !in files ==> files == files1 - {f}
    requires dirs == DirsAfterDelete(files1, dirs1, f)
    ensures f in files <==> !fails && f !in dirs0 && Parent(f).Some? && Parent(f).value in dirs0 + {root}
    ensures f in files ==> files == (files0 - {root})[f := data]
    ensures f !in files ==> files == files0 - {root, f}
    ensures Parent(f) == Some(root) ==> (f in files <==> !fails && f !in dirs0)
    ensures Parent(f) == Some(root) ==> dirs == DirsAfterDelete(files0, dirs0, f) + {root}
  {
    assert files1 - {f} == files0 - {root, f};
    if Parent(f) == Some(root) {
      DeleteInEnsuredRoot(files0, dirs0, root, f);
    }
  }

  /** A root getter leaves an empty directory at a file of that root as
      it was, so a later `delete` of the file removes the same entry. */
  lemma DeleteInEnsuredRoot(files: map<Path, Content>, dirs: set<Path>, root: Path, f: Path)
    requires f != root && Parent(f) == Some(root)
    ensures DirsAfterDelete(files - {root}, dirs + {root}, f) == DirsAfterDelete(files, dirs, f) + {root}
  {
    assert Parent(root) != Some(f);
    EntriesBesides(files, dirs, root);
  }

  /** Every listed path lies directly in `root`. */
  ghost predicate AllInRoot(root: Path, ps: seq<Path>) {
    forall j :: 0 <= j < |ps| ==> Parent(ps[j]) == Some(root)
  }

  /** The final network files of extensions without a '/' lie directly in
      the network root. */
  lemma NetworkFilesInRoot(root: Path, url: string, exts: seq<FileExt>)
    requires forall e :: e in exts ==> '/' !in e.extension
    ensures AllInRoot(root, NetworkCacheFiles(root, url, exts))
  {
    forall j | 0 <= j < |exts|
      ensures Parent(NetworkCacheFiles(root, url, exts)[j]) == Some(root)
    {
      CacheFileInRoot(root, url, exts[j], true, false);
    }
  }

  /** Ensuring the network root changes nothing that lies in a listed
      final network file. */
  lemma NetworkFilesBesideRoot(files: map<Path, Content>, dirs: set<Path>, root: Path, url: string, exts: seq<FileExt>)
    ensures forall d :: d in NetworkCacheFiles(root, url, exts) ==>
              (HasEntries(files - {root}, dirs + {root}, d) <==> HasEntries(files, dirs, d))
  {
    forall d | d in NetworkCacheFiles(root, url, exts)
      ensures Parent(root) != Some(d)
    {
      assert |d| > |root|;
    }
    EntriesBesides(files, dirs, root);
  }

  /** Midway through the deletion loop of `fetchURLFromCache`: the first
      `i` listed paths are no longer files, only they can have left the
      directories, and when they all lie in `root` one of them stays a
      directory exactly when something lay in it. */
  ghost predicate TargetsDeleting(files0: map<Path, Content>, dirs0: set<Path>, root: Path, targets: seq<Path>, i: nat,
                                  files: map<Path, Content>, dirs: set<Path>) {
    && i <= |targets|
    && (forall q :: q in files <==> q in files0 && q !in targets[..i])
    && dirs <= dirs0
    && (forall d :: d in dirs0 && d !in targets[..i] ==> d in dirs)
    && (AllInRoot(root, targets) ==>
          forall d :: d in dirs0 && d in targets[..i] ==> (d in dirs <==> HasEntries(files0, dirs0, d)))
  }

  /** One `delete` of the loop keeps that description. */
  lemma TargetDeleted(files0: map<Path, Content>, dirs0: set<Path>, root: Path, targets: seq<Path>, i: nat,
                      files: map<Path, Content>, dirs: set<Path>)
    requires TargetsDeleting(files0, dirs0, root, targets, i, files, dirs) && i < |targets|
    ensures TargetsDeleting(files0, dirs0, root, targets, i + 1,
                            files - {targets[i]}, DirsAfterDelete(files, dirs, targets[i]))
  {
    var t := targets[i];
    var files1, dirs1 := files - {t}, DirsAfterDelete(files, dirs, t);
    assert targets[..i + 1] == targets[..i] + [t];
    assert forall q :: q in targets[..i + 1] <==> q in targets[..i] || q == t;
    if AllInRoot(root, targets) {
      var gone := set q | q in targets[..i];
      forall q | q in gone
        ensures Parent(q) == Some(root)
      {
        var j :| 0 <= j < i && targets[j] == q;
        assert targets[j] == targets[..i][j];
      }
      EntriesKept(files0, dirs0, files, dirs, root, gone, t);
      assert t in dirs0 ==> (t in dirs1 <==> HasEntries(files0, dirs0, t));
    }
  }

  class CacheManager {
    var networkCacheDir: Path
    var localCacheDir: Path
    const disk: Disk

    ghost predicate Valid()
      reads this, disk
    {
      disk.Valid()
    }

    constructor (disk: Disk, networkCacheDir: Path, localCacheDir: Path)
      requires disk.Valid()
      ensures Valid() && this.disk == disk
      ensures this.networkCacheDir == networkCacheDir && this.localCacheDir == localCacheDir
    {
      this.disk := disk;
      this.networkCacheDir := networkCacheDir;
      this.localCacheDir := localCacheDir;
    }

    function Root(fromNetwork: bool): Path
      reads this
    {
      if fromNetwork then networkCacheDir else localCacheDir
    }

    /** `getNetworkCacheParent`. */
    method NetworkCacheParent() returns (root: Path)
      requires Valid()
      modifies disk
      ensures Valid() && root == networkCacheDir && disk.closed == old(disk.closed)
      ensures RootEnsured(old(disk.files), old(disk.dirs), disk.files, disk.dirs, root)
    {
      root := networkCacheDir;
      disk.EnsureDir(root);
    }

    /** `getLocalCacheParent`. */
    method LocalCacheParent() returns (root: Path)
      requires Valid()
      modifies disk
      ensures Valid() && root == localCacheDir && disk.closed == old(disk.closed)
      ensures RootEnsured(old(disk.files), old(disk.dirs), disk.files, disk.dirs, root)
    {
      root := localCacheDir;
      disk.EnsureDir(root);
    }

    /** `getParent`: the network root for network-scoped entries, else the
        local root. */
    method CacheParent(fromNetwork: bool) returns (root: Path)
      requires Valid()
      modifies disk
      ensures Valid() && root == Root(fromNetwork) && disk.closed == old(disk.closed)
      ensures RootEnsured(old(disk.files), old(disk.dirs), disk.files, disk.dirs, root)
    {
      if fromNetwork {
        root := NetworkCacheParent();
      } else {
        root := LocalCacheParent();
      }
    }

    /** `getCachedFile`: the cache file of a key under the root of its scope. */
    method GetCachedFile(cache: string, ext: FileExt, fromNetwork: bool, isTemp: bool) returns (f: Path)
      requires Valid()
      modifies disk
      ensures Valid() && disk.closed == old(disk.closed)
      ensures unchanged(this) && f == CacheFile(Root(fromNetwork), cache, ext, fromNetwork, isTemp)
      ensures RootEnsured(old(disk.files), old(disk.dirs), disk.files, disk.dirs, Root(fromNetwork))
    {
      var root := CacheParent(fromNetwork);
      f := Child(root, FindCacheName(cache, ext, fromNetwork, isTemp));
    }

    /** `writeTempCacheFile`. */
    method WriteTempCacheFile(cache: string, s: Stream, ext: FileExt, fromNetwork: bool) returns (f: Path)
      requires Valid()
      modifies disk
      ensures Valid() && disk.closed == old(disk.closed) + [s.id]
      ensures f == CacheFile(Root(fromNetwork), cache, ext, fromNetwork, true)
      ensures f in disk.files <==>
                !s.fails && f !in old(disk.dirs) && Parent(f).Some? && Parent(f).value in old(disk.dirs) + {Root(fromNetwork)}
      ensures f in disk.files ==> disk.files == (old(disk.files) - {Root(fromNetwork)})[f := Concat(s.chunks)]
      ensures f !in disk.files ==> disk.files == old(disk.files) - {Root(fromNetwork), f}
      ensures '/' !in ext.extension ==> (f in disk.files <==> !s.fails && f !in old(disk.dirs))
      ensures '/' !in ext.extension ==> disk.dirs == DirsAfterDelete(old(disk.files), old(disk.dirs), f) + {Root(fromNetwork)}
      ensures disk.dirs == DirsAfterDelete(old(disk.files) - {Root(fromNetwork)}, old(disk.dirs) + {Root(fromNetwork)}, f)
    {
      f := WriteCacheFile(cache, s, ext, fromNetwork, true);
    }

    /** `writeCacheFile`: the stream is copied into a fresh cache file; a
        failed copy or a failed open deletes the file, and the input stream
        is always closed. The path is returned either way. */
    method WriteCacheFile(cache: string, s: Stream, ext: FileExt, fromNetwork: bool, isTemp: bool) returns (f: Path)
      requires Valid()
      modifies disk
      ensures Valid() && disk.closed == old(disk.closed) + [s.id]
      ensures f == CacheFile(Root(fromNetwork), cache, ext, fromNetwork, isTemp)
      ensures f in disk.files <==>
                !s.fails && f !in old(disk.dirs) && Parent(f).Some? && Parent(f).value in old(disk.dirs) + {Root(fromNetwork)}
      ensures f in disk.files ==> disk.files == (old(disk.files) - {Root(fromNetwork)})[f := Concat(s.chunks)]
      ensures f !in disk.files ==> disk.files == old(disk.files) - {Root(fromNetwork), f}
      ensures '/' !in ext.extension ==> (f in disk.files <==> !s.fails && f !in old(disk.dirs))
      ensures '/' !in ext.extension ==> disk.dirs == DirsAfterDelete(old(disk.files), old(disk.dirs), f) + {Root(fromNetwork)}
      ensures disk.dirs == DirsAfterDelete(old(disk.files) - {Root(fromNetwork)}, old(disk.dirs) + {Root(fromNetwork)}, f)
    {
      ghost var root := Root(fromNetwork);
      ghost var files0, dirs0 := disk.files, disk.dirs;
      f := CacheFileInEnsuredRoot(cache, ext, fromNetwork, isTemp);
      ghost var files1, dirs1 := disk.files, disk.dirs;
      CopyIntoFile(f, s);
      WrittenInRoot(files0, dirs0, files1, dirs1, disk.files, disk.dirs, root, f, Concat(s.chunks), s.fails);
      assert root == Root(fromNetwork);
    }

    /** `getCachedFile` seen from `writeCacheFile`: the file is not its
        root, which is now a directory, and lies directly in it unless the
        extension holds a '/'. */
    method CacheFileInEnsuredRoot(cache: string, ext: FileExt, fromNetwork: bool, isTemp: bool) returns (f: Path)
      requires Valid()
      modifies disk
      ensures Valid() && disk.closed == old(disk.closed)
      ensures f == CacheFile(Root(fromNetwork), cache, ext, fromNetwork, isTemp)
      ensures f != Root(fromNetwork) && Root(fromNetwork) in disk.dirs
      ensures '/' !in ext.extension ==> Parent(f) == Some(Root(fromNetwork))
      ensures disk.dirs == old(disk.dirs) + {Root(fromNetwork)}
      ensures disk.files == old(disk.files) - {Root(fromNetwork)}
    {
      if '/' !in ext.extension {
        CacheFileInRoot(Root(fromNetwork), cache, ext, fromNetwork, isTemp);
      }
      f := GetCachedFile(cache, ext, fromNetwork, isTemp);
      assert |f| > |Root(fromNetwork)|;
    }

    /** The try/finally body of `writeCacheFile` on its file: open, copy,
        delete on any exception, close the input stream. */
    method CopyIntoFile(f: Path, s: Stream)
      requires Valid()
      modifies disk
      ensures Valid() && disk.closed == old(disk.closed) + [s.id]
      ensures f in disk.files <==> !s.fails && f !in old(disk.dirs) && Parent(f).Some? && Parent(f).value in old(disk.dirs)
      ensures f in disk.files ==> disk.files == old(disk.files)[f := Concat(s.chunks)]
      ensures f !in disk.files ==> disk.files == old(disk.files) - {f}
      ensures disk.dirs == DirsAfterDelete(old(disk.files), old(disk.dirs), f)
    {
      disk.EmptyDirHasNoEntries(f);
      var created := disk.Create(f);
      if created {
        ghost var files1 := disk.files;
        var copied := disk.CopyStream(s, f);
        assert [] + Concat(s.chunks) == Concat(s.chunks);
        assert disk.files == files1[f := Concat(s.chunks)];
        if !copied {
          var _ := disk.Delete(f);
        }
      } else {
        if disk.Exists(f) {
          var _ := disk.Delete(f);
        }
      }
      disk.Close(s.id);
    }

    /** `loadTempFile`: when the temp JSON file exists it is renamed to its
        absolute path with every ".temp" removed, which is returned; that is
        the final cache file in the same root when the root's path contains
        no ".temp". */
    method LoadTempFile(cache: string, fromNetwork: bool) returns (r: Option<Path>)
      requires Valid()
      modifies disk
      ensures Valid() && disk.closed == old(disk.closed)
      ensures disk.dirs == old(disk.dirs) + {Root(fromNetwork)}
      ensures var temp := CacheFile(Root(fromNetwork), cache, JSON, fromNetwork, true);
              r.None? <==> temp !in old(disk.files) && temp !in old(disk.dirs)
      ensures r.Some? ==> r.value == PromotedPathAsWritten(Root(fromNetwork), FindCacheName(cache, JSON, fromNetwork, true))
      ensures r.Some? && !Contains(Root(fromNetwork), TEMP_INFIX) ==> r.value == CacheFile(Root(fromNetwork), cache, JSON, fromNetwork, false)
      ensures r.None? ==> disk.files == old(disk.files) - {Root(fromNetwork)}
      ensures var temp := CacheFile(Root(fromNetwork), cache, JSON, fromNetwork, true);
              r.Some? ==>
                disk.files == if CanRename(old(disk.files) - {Root(fromNetwork)}, old(disk.dirs) + {Root(fromNetwork)}, temp, r.value)
                              then (old(disk.files) - {Root(fromNetwork), temp})[r.value := old(disk.files)[temp]]
                              else old(disk.files) - {Root(fromNetwork)}
    {
      ghost var root := Root(fromNetwork);
      ghost var files0 := disk.files;
      var f, target := TempAndTarget(cache, fromNetwork);
      r := RenameIfExists(f, target);
      assert (files0 - {root}) - {f} == files0 - {root, f};
    }

    /** The two paths of `loadTempFile`: the temp JSON file (its root now
        ensured) and its absolute path with ".temp" removed. */
    method TempAndTarget(cache: string, fromNetwork: bool) returns (f: Path, target: Path)
      requires Valid()
      modifies disk
      ensures Valid() && disk.closed == old(disk.closed)
      ensures f == CacheFile(Root(fromNetwork), cache, JSON, fromNetwork, true) && f != Root(fromNetwork)
      ensures target == PromotedPathAsWritten(Root(fromNetwork), FindCacheName(cache, JSON, fromNetwork, true))
      ensures !Contains(Root(fromNetwork), TEMP_INFIX) ==>
                target == CacheFile(Root(fromNetwork), cache, JSON, fromNetwork, false) && target != Root(fromNetwork)
      ensures RootEnsured(old(disk.files), old(disk.dirs), disk.files, disk.dirs, Root(fromNetwork))
    {
      f := GetCachedFile(cache, JSON, fromNetwork, true);
      target := PromotedPathAsWritten(Root(fromNetwork), FindCacheName(cache, JSON, fromNetwork, true));
      PromotedJsonFile(Root(fromNetwork), cache, fromNetwork);
      if !Contains(Root(fromNetwork), TEMP_INFIX) {
        PromotedPathAgrees(Root(fromNetwork), FindCacheName(cache, JSON, fromNetwork, true));
      }
    }

    /** The tail of `loadTempFile` on the two paths: null when the temp file
        is missing, else the file is renamed and the target returned. */
    method RenameIfExists(f: Path, target: Path) returns (r: Option<Path>)
      requires Valid()
      modifies disk
      ensures Valid() && disk.closed == old(disk.closed) && disk.dirs == old(disk.dirs)
      ensures r.None? <==> !old(disk.Exists(f))
      ensures r.Some? ==> r.value == target
      ensures disk.files == if r.Some? && CanRename(old(disk.files), old(disk.dirs), f, target)
                            then (old(disk.files) - {f})[target := old(disk.files)[f]]
                            else old(disk.files)
    {
      if !disk.Exists(f) {
        return None;
      }
      var _ := disk.RenameTo(f, target);
      r := Some(target);
    }

    /** `fetchURLFromCache`: the final network JSON file when it exists;
        otherwise every registered extension's final network file is
        deleted and the result is null. `exts` is the registry's values in
        whatever order its map yields them; each deletion touches its own
        file, so the order does not matter. */
    method FetchURLFromCache(url: string, exts: seq<FileExt>) returns (r: Option<Path>)
      requires Valid()
      modifies disk
      ensures Valid() && disk.closed == old(disk.closed)
      ensures var json := CacheFile(networkCacheDir, url, JSON, true, false);
              (r.Some? <==> old(disk.Exists(json))) && (r.Some? ==> r.value == json)
      ensures r.Some? ==> disk.files == old(disk.files) - {networkCacheDir}
      ensures r.None? ==> forall q :: q in NetworkCacheFiles(networkCacheDir, url, exts) ==> q !in disk.files
      ensures forall q :: q in disk.files ==> q in old(disk.files) && disk.files[q] == old(disk.files)[q]
      ensures forall q :: q in old(disk.files) && q != networkCacheDir && q !in NetworkCacheFiles(networkCacheDir, url, exts) ==> q in disk.files
      ensures networkCacheDir in disk.dirs && disk.dirs <= old(disk.dirs) + {networkCacheDir}
      ensures r.Some? ==> disk.dirs == old(disk.dirs) + {networkCacheDir}
      ensures forall d :: d in old(disk.dirs) && d !in NetworkCacheFiles(networkCacheDir, url, exts) ==> d in disk.dirs
      ensures r.None? && (forall e :: e in exts ==> '/' !in e.extension) ==>
                forall d :: d in old(disk.dirs) && d in NetworkCacheFiles(networkCacheDir, url, exts) ==>
                  (d in disk.dirs <==> HasEntries(old(disk.files), old(disk.dirs), d))
    {
      ghost var files0, dirs0 := disk.files, disk.dirs;
      var json := GetCachedFile(url, JSON, true, false);
      if disk.Exists(json) {
        return Some(json);
      }
      DeleteNetworkFiles(url, exts);
      r := None;
      NetworkFilesBesideRoot(files0, dirs0, networkCacheDir, url, exts);
    }

    /** The deletion loop of `fetchURLFromCache`, once the network root is
        a directory: each extension's final network file is deleted if it
        exists. */
    method DeleteNetworkFiles(url: string, exts: seq<FileExt>)
      requires Valid() && networkCacheDir in disk.dirs
      modifies disk
      ensures Valid() && disk.closed == old(disk.closed)
      ensures forall q :: q in NetworkCacheFiles(networkCacheDir, url, exts) ==> q !in disk.files
      ensures forall q :: q in disk.files ==> q in old(disk.files) && disk.files[q] == old(disk.files)[q]
      ensures forall q :: q in old(disk.files) && q !in NetworkCacheFiles(networkCacheDir, url, exts) ==> q in disk.files
      ensures networkCacheDir in disk.dirs && disk.dirs <= old(disk.dirs)
      ensures forall d :: d in old(disk.dirs) && d !in NetworkCacheFiles(networkCacheDir, url, exts) ==> d in disk.dirs
      ensures (forall e :: e in exts ==> '/' !in e.extension) ==>
                forall d :: d in old(disk.dirs) && d in NetworkCacheFiles(networkCacheDir, url, exts) ==>
                  (d in disk.dirs <==> HasEntries(old(disk.files), old(disk.dirs), d))
    {
      ghost var targets := NetworkCacheFiles(networkCacheDir, url, exts);
      ghost var files0, dirs0 := disk.files, disk.dirs;
      var i := 0;
      while i < |exts|
        invariant 0 <= i <= |exts|
        invariant Valid() && disk.closed == old(disk.closed) && networkCacheDir in disk.dirs
        invariant forall q :: q in disk.files ==> q in files0 && disk.files[q] == files0[q]
        invariant TargetsDeleting(files0, dirs0, networkCacheDir, targets, i, disk.files, disk.dirs)
      {
        TargetDeleted(files0, dirs0, networkCacheDir, targets, i, disk.files, disk.dirs);
        var f := DeleteNetworkFile(url, exts[i]);
        i := i + 1;
      }
      assert targets[..i] == targets;
      if forall e :: e in exts ==> '/' !in e.extension {
        NetworkFilesInRoot(networkCacheDir, url, exts);
      }
    }

    /** One pass of that loop: `getCachedFile` (the root is already a
        directory, so nothing else changes), then `delete` if it exists. */
    method DeleteNetworkFile(url: string, ext: FileExt) returns (f: Path)
      requires Valid() && networkCacheDir in disk.dirs
      modifies disk
      ensures Valid() && disk.closed == old(disk.closed) && networkCacheDir in disk.dirs
      ensures f == CacheFile(networkCacheDir, url, ext, true, false)
      ensures disk.files == old(disk.files) - {f}
      ensures disk.dirs == DirsAfterDelete(old(disk.files), old(disk.dirs), f)
    {
      f := GetCachedFile(url, ext, true, false);
      assert |f| > |networkCacheDir|;
      assert disk.files == old(disk.files) && disk.dirs == old(disk.dirs);
      disk.EmptyDirHasNoEntries(f);
      if disk.Exists(f) {
        var _ := disk.Delete(f);
      }
    }

    /** `fetchLocalFromCache`: the existing `<name>.json.cache` file, or else
        the JSON written there; a failed write deletes it and gives null.
        `writeFails` says whether the writer throws. */
    method FetchLocalFromCache(json: string, name: string, writeFails: bool) returns (r: Option<Path>)
      requires Valid()
      modifies disk
      ensures Valid() && disk.closed == old(disk.closed)
      ensures var f := LocalCacheFile(localCacheDir, name);
              old(disk.Exists(f)) ==> r == Some(f) && disk.files == old(disk.files) - {localCacheDir}
      ensures var f := LocalCacheFile(localCacheDir, name);
              !old(disk.Exists(f)) ==> (r.Some? <==> !writeFails) && (r.Some? ==> r.value == f)
      ensures var f := LocalCacheFile(localCacheDir, name);
              !old(disk.Exists(f)) ==>
                disk.files == if r.Some? then (old(disk.files) - {localCacheDir})[f := json] else old(disk.files) - {localCacheDir}
      ensures disk.dirs == old(disk.dirs) + {localCacheDir}
    {
      var root := LocalCacheParent();
      var f := Child(root, FindCacheName(name, JSON, false, false) + LOCAL_CACHE_SUFFIX);
      LocalCacheFileInRoot(root, name);
      if disk.Exists(f) {
        return Some(f);
      }
      r := WriteLocalCache(json, f, writeFails);
    }

    /** `writeLocalCache`: open, write, close; an IOException deletes the
        file and gives null. */
    method WriteLocalCache(json: string, f: Path, writeFails: bool) returns (r: Option<Path>)
      requires Valid() && f !in disk.files && f !in disk.dirs
      requires Parent(f).Some? && Parent(f).value in disk.dirs
      modifies disk
      ensures Valid() && disk.closed == old(disk.closed) && disk.dirs == old(disk.dirs)
      ensures r.Some? <==> !writeFails
      ensures r.Some? ==> r.value == f && disk.files == old(disk.files)[f := json]
      ensures r.None? ==> disk.files == old(disk.files)
    {
      var ok := disk.Create(f);
      disk.Write(f, json);
      assert [] + json == json;
      if writeFails {
        var _ := disk.Delete(f);
        assert disk.files == old(disk.files);
        return None;
      }
      r := Some(f);
    }

    /** `clear()`: the local root, then the network root, each emptied of
        the files lying directly in it and then deleted itself. */
    method Clear()
      requires Valid()
      modifies disk
      ensures Valid() && disk.closed == old(disk.closed)
      ensures forall q :: q in disk.files ==> q in old(disk.files) && disk.files[q] == old(disk.files)[q]
      ensures forall q :: q in disk.files ==>
                (q != localCacheDir && q != networkCacheDir && Parent(q) != Some(localCacheDir) && Parent(q) != Some(networkCacheDir))
      ensures (forall d :: d in old(disk.dirs) ==> Parent(d) != Some(localCacheDir) && Parent(d) != Some(networkCacheDir)) ==>
                localCacheDir !in disk.dirs && networkCacheDir !in disk.dirs
      ensures forall q :: q in disk.files <==>
                q in old(disk.files) && q != localCacheDir && q != networkCacheDir &&
                Parent(q) != Some(localCacheDir) && Parent(q) != Some(networkCacheDir)
      ensures disk.dirs <= old(disk.dirs) + {localCacheDir, networkCacheDir}
      ensures forall d ::
                (d in old(disk.dirs) && d != localCacheDir && d != networkCacheDir &&
                 Parent(d) != Some(localCacheDir) && Parent(d) != Some(networkCacheDir)) ==> d in disk.dirs
      ensures var files1 := ClearedFiles(old(disk.files) - {localCacheDir}, old(disk.dirs) + {localCacheDir}, localCacheDir);
              var dirs1 := ClearedDirs(old(disk.files) - {localCacheDir}, old(disk.dirs) + {localCacheDir}, localCacheDir);
              disk.files == ClearedFiles(files1 - {networkCacheDir}, dirs1 + {networkCacheDir}, networkCacheDir) &&
              disk.dirs == ClearedDirs(files1 - {networkCacheDir}, dirs1 + {networkCacheDir}, networkCacheDir)
      ensures !(localCacheDir <= networkCacheDir) && !(networkCacheDir <= localCacheDir) ==>
                && (forall d :: d in old(disk.dirs) && (Parent(d) == Some(localCacheDir) || Parent(d) == Some(networkCacheDir)) ==>
                      (d in disk.dirs <==> HasEntries(old(disk.files), old(disk.dirs), d)))
                && (localCacheDir !in disk.dirs <==>
                      forall d :: d in old(disk.dirs) && Parent(d) == Some(localCacheDir) ==> !HasEntries(old(disk.files), old(disk.dirs), d))
                && (networkCacheDir !in disk.dirs <==>
                      forall d :: d in old(disk.dirs) && Parent(d) == Some(networkCacheDir) ==> !HasEntries(old(disk.files), old(disk.dirs), d))
    {
      ghost var files0, dirs0 := disk.files, disk.dirs;
      var local := LocalCacheParent();
      disk.ClearDir(local);
      var network := NetworkCacheParent();
      disk.ClearDir(network);
      ClearRoots(files0, dirs0, localCacheDir, networkCacheDir);
      if !(localCacheDir <= networkCacheDir) && !(networkCacheDir <= localCacheDir) {
        ClearUnrelatedRoots(files0, dirs0, localCacheDir, networkCacheDir);
      }
    }
  }
}
