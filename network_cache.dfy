/** The older `NetworkCache` helper: a registry of the fetchers waiting for
    each URL, and cache files named `<cacheName><ext>` (or
    `<cacheName>.temp<ext>` while being written) directly in the
    application cache directory. */
module NetworkCaches {
  import opened Wrappers
  import opened Strings
  import opened Extensions
  import opened Disks
  import opened CacheNames

  // ---------------------------------------------------------------------
  // Waiting fetchers
  // ---------------------------------------------------------------------

  /** A network fetcher, known by its identity. */
  type FetcherId = nat

  /** A `load(res)` call on a fetcher; `res` is the file, or None for null. */
  datatype Load = Load(fetcher: FetcherId, res: Option<Path>)

  /** A `finishLoading` runnable posted to the main thread. */
  datatype Finish = Finish(res: Option<Path>, url: string, fetcher: FetcherId)

  /** The loads a finish runnable performs, in list order: every listed
      fetcher except the finishing one. */
  function LoadsExcept(list: seq<FetcherId>, fetcher: FetcherId, res: Option<Path>): seq<Load> {
    if list == [] then []
    else (if list[0] != fetcher then [Load(list[0], res)] else []) + LoadsExcept(list[1..], fetcher, res)
  }

  lemma {:induction false} LoadsExceptAppend(a: seq<FetcherId>, b: seq<FetcherId>, fetcher: FetcherId, res: Option<Path>)
    ensures LoadsExcept(a + b, fetcher, res) == LoadsExcept(a, fetcher, res) + LoadsExcept(b, fetcher, res)
  {
    if a == [] {
      assert a + b == b;
    } else {
      assert (a + b)[1..] == a[1..] + b;
      LoadsExceptAppend(a[1..], b, fetcher, res);
    }
  }

  /** Exactly the other registered fetchers are loaded, each with `res`. */
  lemma {:induction false} LoadsExceptMembers(list: seq<FetcherId>, fetcher: FetcherId, res: Option<Path>)
    ensures forall l :: l in LoadsExcept(list, fetcher, res) <==> l.res == res && l.fetcher in list && l.fetcher != fetcher
  {
    if list != [] {
      LoadsExceptMembers(list[1..], fetcher, res);
      assert forall x :: x in list <==> x == list[0] || x in list[1..];
    }
  }

  /** The finishing fetcher never loads its own result, and a list without
      it loads every entry. */
  lemma {:induction false} LoadsExceptLength(list: seq<FetcherId>, fetcher: FetcherId, res: Option<Path>)
    ensures |LoadsExcept(list, fetcher, res)| <= |list|
    ensures fetcher !in list ==> |LoadsExcept(list, fetcher, res)| == |list|
  {
    if list != [] {
      LoadsExceptLength(list[1..], fetcher, res);
    }
  }

  /** The static `loadingUrls` map (None while still null), the runnables
      posted to the main thread and not yet run, and the `load` calls made
      so far. */
  class LoadingRegistry {
    var loadingUrls: Option<map<string, seq<FetcherId>>>
    var posted: seq<Finish>
    var loads: seq<Load>

    constructor ()
      ensures loadingUrls == None && posted == [] && loads == []
    {
      loadingUrls, posted, loads := None, [], [];
    }

    /** The registered lists; a null map registers nothing. */
    function Registered(): map<string, seq<FetcherId>>
      reads this
    {
      if loadingUrls.Some? then loadingUrls.value else map[]
    }

    /** `checkLoading`: the first fetcher of a URL registers `[fetcher]` and
        is told to fetch (false); later ones are appended and told to wait
        (true). */
    method CheckLoading(url: string, fetcher: FetcherId) returns (joined: bool)
      modifies this
      ensures joined <==> url in old(Registered())
      ensures joined ==> loadingUrls == Some(old(Registered())[url := old(Registered())[url] + [fetcher]])
      ensures !joined ==> loadingUrls == Some(old(Registered())[url := [fetcher]])
      ensures posted == old(posted) && loads == old(loads)
    {
      if loadingUrls.None? {
        loadingUrls := Some(map[]);
      }
      var m := loadingUrls.value;
      if url in m {
        loadingUrls := Some(m[url := m[url] + [fetcher]]);
        return true;
      }
      loadingUrls := Some(m[url := [fetcher]]);
      joined := false;
    }

    /** `finishLoading`: nothing for an unregistered URL, else a runnable is
        posted. */
    method FinishLoading(res: Option<Path>, url: string, fetcher: FetcherId)
      modifies this
      ensures loadingUrls == old(loadingUrls) && loads == old(loads)
      ensures posted == if url in old(Registered()) then old(posted) + [Finish(res, url, fetcher)] else old(posted)
    {
      if loadingUrls.None? || url !in loadingUrls.value {
        return;
      }
      posted := posted + [Finish(res, url, fetcher)];
    }

    /** The main thread runs the oldest posted runnable: it loads every
        listed fetcher but the finishing one, in order, then unregisters the
        URL. A URL an earlier runnable already unregistered makes
        `list.size()` throw NullPointerException. */
    method RunPosted() returns (r: Result<()>)
      requires posted != []
      modifies this
      ensures posted == old(posted[1..])
      ensures var t := old(posted[0]);
              t.url in old(Registered()) ==>
                r.Success? && loadingUrls == Some(old(Registered()) - {t.url}) &&
                loads == old(loads) + LoadsExcept(old(Registered())[t.url], t.fetcher, t.res)
      ensures var t := old(posted[0]);
              t.url !in old(Registered()) ==>
                r == Failure(NullPointer) && loadingUrls == old(loadingUrls) && loads == old(loads)
    {
      var t := posted[0];
      posted := posted[1..];
      if loadingUrls.None? || t.url !in loadingUrls.value {
        return Failure(NullPointer);
      }
      var list := loadingUrls.value[t.url];
      var i := 0;
      while i < |list|
        invariant 0 <= i <= |list|
        invariant posted == old(posted[1..]) && loadingUrls == old(loadingUrls)
        invariant loads == old(loads) + LoadsExcept(list[..i], t.fetcher, t.res)
      {
        LoadsExceptAppend(list[..i], [list[i]], t.fetcher, t.res);
        assert list[..i + 1] == list[..i] + [list[i]];
        if list[i] != t.fetcher {
          loads := loads + [Load(list[i], t.res)];
        }
        i := i + 1;
      }
      assert list[..i] == list;
      loadingUrls := Some(loadingUrls.value - {t.url});
      r := Success(());
    }
  }

  // ---------------------------------------------------------------------
  // Cache files
  // ---------------------------------------------------------------------

  /** The network package's `FileExtension`: just its extension string. */
  datatype NetExt = NetExt(extension: string)

  const NET_ZIP: NetExt := NetExt(ZIP_EXTENSION)
  const NET_JSON: NetExt := NetExt(JSON_EXTENSION)

  /** `filenameForUrl`: the caller's cache name and the (temp) extension;
      the URL takes no part. */
  function FilenameForUrl(url: string, cacheName: string, e: NetExt, isTemp: bool): string {
    cacheName + (if isTemp then TEMP_INFIX + e.extension else e.extension)
  }

  /** Two URLs with the same cache name share their files. */
  lemma FilenameIgnoresUrl(url1: string, url2: string, cacheName: string, e: NetExt, isTemp: bool)
    ensures FilenameForUrl(url1, cacheName, e, isTemp) == FilenameForUrl(url2, cacheName, e, isTemp)
  {
  }

  /** Removing ".temp" from a temp name gives the final name, as long as
      neither the cache name nor the extension contains ".temp". */
  lemma FilenamePromotes(url: string, cacheName: string, e: NetExt)
    requires !Contains(cacheName, TEMP_INFIX) && !Contains(e.extension, TEMP_INFIX)
    ensures RemoveAll(FilenameForUrl(url, cacheName, e, true), TEMP_INFIX) == FilenameForUrl(url, cacheName, e, false)
  {
    assert FilenameForUrl(url, cacheName, e, true) == cacheName + TEMP_INFIX + e.extension;
    TempInfixBorderless();
    RemoveAllAcross(cacheName, e.extension, TEMP_INFIX);
    RemoveAllAbsent(cacheName, TEMP_INFIX);
    RemoveAllAbsent(e.extension, TEMP_INFIX);
  }

  /** The final cache file of each extension, in array order. */
  function CachedPaths(dir: Path, url: string, cacheName: string, exts: seq<NetExt>): (ps: seq<Path>)
    ensures |ps| == |exts|
    ensures forall j :: 0 <= j < |exts| ==> ps[j] == Child(dir, FilenameForUrl(url, cacheName, exts[j], false))
  {
    if exts == [] then [] else [Child(dir, FilenameForUrl(url, cacheName, exts[0], false))] + CachedPaths(dir, url, cacheName, exts[1..])
  }

  /** An extension with one '.', at its start. */
  predicate DottedOnce(ext: string) {
    |ext| >= 1 && ext[0] == '.' && '.' !in ext[1..]
  }

  /** A cache hit: the handler rebuilt from the file's suffix, and the file. */
  datatype Cached = Cached(ext: NetExt, file: Path)

  /** `new FileExtension(path.substring(path.lastIndexOf(".")))`: a path
      without '.' makes `substring(-1)` throw. */
  function PairWithSuffix(f: Path): (r: Result<Cached>)
    ensures r.Success? <==> '.' in f
    ensures r.Success? ==> r.value.file == f && EndsWith(f, r.value.ext.extension)
  {
    match SuffixFromLastDot(f)
    case None => Failure(Runtime("StringIndexOutOfBoundsException"))
    case Some(suffix) => Success(Cached(NetExt(suffix), f))
  }

  /** A cache file built from a once-dotted extension gives that extension
      back. */
  lemma PairWithSuffixOfCachedPath(dir: Path, url: string, cacheName: string, e: NetExt)
    requires DottedOnce(e.extension)
    ensures PairWithSuffix(Child(dir, FilenameForUrl(url, cacheName, e, false))) == Success(Cached(e, Child(dir, FilenameForUrl(url, cacheName, e, false))))
  {
    var prefix := dir + "/" + cacheName;
    assert Child(dir, FilenameForUrl(url, cacheName, e, false)) == prefix + e.extension;
    SuffixOfDottedExtension(prefix, e.extension);
  }

  /** The file side of `NetworkCache`, over the application cache
      directory `cacheDir` (`context.getCacheDir()`). */
  class NetworkCache {
    const disk: Disk
    const cacheDir: Path

    constructor (disk: Disk, cacheDir: Path)
      ensures this.disk == disk && this.cacheDir == cacheDir
    {
      this.disk := disk;
      this.cacheDir := cacheDir;
    }

    /** `getCachedFile(context, url, cacheName, extensions)`: the first
        final file, in array order, that exists. */
    method GetCachedFile(url: string, cacheName: string, exts: seq<NetExt>) returns (r: Option<Path>)
      ensures var ps := CachedPaths(cacheDir, url, cacheName, exts);
              var k := FirstPresent(ps, disk.Present());
              r == if k.Some? then Some(ps[k.value]) else None
    {
      ghost var ps := CachedPaths(cacheDir, url, cacheName, exts);
      var i := 0;
      while i < |exts|
        invariant 0 <= i <= |exts|
        invariant forall j :: 0 <= j < i ==> ps[j] !in disk.Present()
      {
        var file := Child(cacheDir, FilenameForUrl(url, cacheName, exts[i], false));
        assert file == ps[i];
        if disk.Exists(file) {
          ghost var k := FirstPresent(ps, disk.Present());
          assert k.Some? && k.value == i by {
            assert ps[i] in disk.Present();
          }
          return Some(file);
        }
        i := i + 1;
      }
      assert FirstPresent(ps, disk.Present()).None?;
      r := None;
    }

    /** `fetch`: null when nothing is cached, else the file paired with the
        extension read back from its suffix. With once-dotted extensions
        that is the extension the file was found under. */
    method Fetch(url: string, cacheName: string, exts: seq<NetExt>) returns (r: Result<Option<Cached>>)
      ensures var ps := CachedPaths(cacheDir, url, cacheName, exts);
              var k := FirstPresent(ps, disk.Present());
              k.None? ==> r == Success(None)
      ensures var ps := CachedPaths(cacheDir, url, cacheName, exts);
              var k := FirstPresent(ps, disk.Present());
              k.Some? ==> r == match PairWithSuffix(ps[k.value])
                               case Success(c) => Success(Some(c))
                               case Failure(e) => Failure(e)
      ensures var ps := CachedPaths(cacheDir, url, cacheName, exts);
              var k := FirstPresent(ps, disk.Present());
              k.Some? && (forall j :: 0 <= j < |exts| ==> DottedOnce(exts[j].extension)) ==>
                r == Success(Some(Cached(exts[k.value], ps[k.value])))
    {
      var f := GetCachedFile(url, cacheName, exts);
      if f.None? {
        return Success(None);
      }
      ghost var ps := CachedPaths(cacheDir, url, cacheName, exts);
      ghost var k := FirstPresent(ps, disk.Present());
      if forall j :: 0 <= j < |exts| ==> DottedOnce(exts[j].extension) {
        PairWithSuffixOfCachedPath(cacheDir, url, cacheName, exts[k.value]);
      }
      match PairWithSuffix(f.value)
      case Success(c) => r := Success(Some(c));
      case Failure(e) => r := Failure(e);
    }

    /** `writeTempCacheFile`: the stream is copied into the temp file; an
        exception from opening the file or from a read propagates, and the
        input stream is closed either way. A partly written file stays. */
    method WriteTempCacheFile(url: string, cacheName: string, s: Stream, e: NetExt) returns (r: Result<Path>)
      requires disk.Valid()
      modifies disk
      ensures disk.Valid() && disk.dirs == old(disk.dirs) && disk.closed == old(disk.closed) + [s.id]
      ensures var f := Child(cacheDir, FilenameForUrl(url, cacheName, e, true));
              var canOpen := f !in old(disk.dirs) && Parent(f).Some? && Parent(f).value in old(disk.dirs);
              (r.Success? <==> canOpen && !s.fails) && (r.Success? ==> r.value == f) &&
              disk.files == if canOpen then old(disk.files)[f := Concat(s.chunks)] else old(disk.files)
    {
      var f := Child(cacheDir, FilenameForUrl(url, cacheName, e, true));
      var created := disk.Create(f);
      if !created {
        disk.Close(s.id);
        return Failure(IO("FileNotFoundException"));
      }
      var copied := disk.CopyStream(s, f);
      assert [] + Concat(s.chunks) == Concat(s.chunks);
      disk.Close(s.id);
      if !copied {
        return Failure(IO("read failed"));
      }
      r := Success(f);
    }

    /** `renameTempFile`: the temp file is renamed to its absolute path
        with every ".temp" removed, directories included (the rename's own
        result is ignored), and that path is returned. */
    method RenameTempFile(url: string, cacheName: string, e: NetExt) returns (r: Path)
      requires disk.Valid()
      modifies disk
      ensures disk.Valid() && disk.dirs == old(disk.dirs) && disk.closed == old(disk.closed)
      ensures r == PromotedPathAsWritten(cacheDir, FilenameForUrl(url, cacheName, e, true))
      ensures !Contains(cacheDir, TEMP_INFIX) && !Contains(cacheName, TEMP_INFIX) && !Contains(e.extension, TEMP_INFIX) ==>
                r == Child(cacheDir, FilenameForUrl(url, cacheName, e, false))
      ensures var temp := Child(cacheDir, FilenameForUrl(url, cacheName, e, true));
              disk.files == if CanRename(old(disk.files), old(disk.dirs), temp, r)
                            then (old(disk.files) - {temp})[r := old(disk.files)[temp]]
                            else old(disk.files)
    {
      var name := FilenameForUrl(url, cacheName, e, true);
      var temp := Child(cacheDir, name);
      r := PromotedPathAsWritten(cacheDir, name);
      if !Contains(cacheDir, TEMP_INFIX) && !Contains(cacheName, TEMP_INFIX) && !Contains(e.extension, TEMP_INFIX) {
        PromotedPathAgrees(cacheDir, name);
        FilenamePromotes(url, cacheName, e);
      }
      var _ := disk.RenameTo(temp, r);
    }
  }
}
