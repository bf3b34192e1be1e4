/** `AXrNetworkCache`: network cache files `lottie_cache_<url><ext>` in a
    provider's cache directory, found by extension order, classified as
    zip or JSON by their suffix, written through a temp file and promoted
    by a rename. */
module AXrNetworkCaches {
  import opened Wrappers
  import opened Strings
  import opened Extensions
  import opened Disks
  import opened CacheNames

  /** `filenameForUrl`: the network prefix, the URL without its non-word
      characters, then the (temp) extension. */
  function FilenameForUrl(url: string, ext: FileExt, isTemp: bool): string {
    NETWORK_PREFIX + StripNonWord(url) + (if isTemp then TempExtension(ext) else ext.extension)
  }

  /** The name agrees with the cache manager's network-scoped name, so both
      classes address the same files. */
  lemma FilenameIsNetworkCacheName(url: string, ext: FileExt, isTemp: bool)
    ensures FilenameForUrl(url, ext, isTemp) == FindCacheName(url, ext, true, isTemp)
  {
    assert CacheNameHead(url, true) == NETWORK_PREFIX + StripNonWord(url);
  }

  /** The handlers `fetchFromCache` tries, in this order. */
  const SUPPORTED: seq<FileExt> := [ZIP, JSON]

  /** The classification of a found file: ZIP when its suffix from the last
      '.' ends in ".zip", else JSON; a path without '.' makes
      `substring(-1)` throw. */
  function Classify(f: Path): (r: Result<FileExt>)
    ensures r.Success? <==> '.' in f
    ensures r.Success? ==> r.value == ZIP || r.value == JSON
    ensures r.Success? ==> (r.value == ZIP <==> EndsWith(SuffixFromLastDot(f).value, ZIP_EXTENSION))
  {
    match SuffixFromLastDot(f)
    case None => Failure(Runtime("StringIndexOutOfBoundsException"))
    case Some(suffix) => if EndsWith(suffix, ZIP_EXTENSION) then Success(ZIP) else Success(JSON)
  }

  /** A network cache file classifies by its own extension when that is
      dotted once. */
  lemma ClassifyCacheFile(root: Path, url: string, ext: FileExt)
    requires |ext.extension| >= 1 && ext.extension[0] == '.' && '.' !in ext.extension[1..]
    ensures Classify(CacheFile(root, url, ext, true, false)) == Success(if EndsWith(ext.extension, ZIP_EXTENSION) then ZIP else JSON)
  {
    var prefix := root + "/" + CacheNameHead(url, true);
    assert CacheFile(root, url, ext, true, false) == prefix + ext.extension;
    SuffixOfDottedExtension(prefix, ext.extension);
  }

  /** The zip file classifies as ZIP and the JSON file as JSON. */
  lemma ClassifySupported(root: Path, url: string)
    ensures Classify(CacheFile(root, url, ZIP, true, false)) == Success(ZIP)
    ensures Classify(CacheFile(root, url, JSON, true, false)) == Success(JSON)
  {
    assert ZIP.extension[1..] == "zip";
    assert JSON.extension[1..] == "json";
    ClassifyCacheFile(root, url, ZIP);
    ClassifyCacheFile(root, url, JSON);
    assert !EndsWith(JSON_EXTENSION, ZIP_EXTENSION) by {
      assert JSON_EXTENSION[|JSON_EXTENSION| - |ZIP_EXTENSION|..] != ZIP_EXTENSION;
    }
  }

  /** Every listed file lies below the root, so none is the root itself. */
  lemma FetchPathsBelowRoot(root: Path, url: string, exts: seq<FileExt>)
    ensures forall j :: 0 <= j < |exts| ==> |NetworkCacheFiles(root, url, exts)[j]| > |root|
  {
  }

  /** A present path with no present path before it is the first. */
  lemma FirstPresentAt(ps: seq<Path>, present: set<Path>, i: nat)
    requires i < |ps| && ps[i] in present && forall j :: 0 <= j < i ==> ps[j] !in present
    ensures FirstPresent(ps, present) == Some(i)
  {
  }

  /** The lookup `fetchFromCache` makes: the zip file when present, else
      the JSON file when present; both classify without error. */
  lemma SupportedFetch(root: Path, url: string, present: set<Path>)
    ensures var zip := CacheFile(root, url, ZIP, true, false);
            var json := CacheFile(root, url, JSON, true, false);
            var ps := NetworkCacheFiles(root, url, SUPPORTED);
            var k := FirstPresent(ps, present);
            (k.None? <==> zip !in present && json !in present) &&
            (k.Some? ==> Classify(ps[k.value]).Success? && ps[k.value] == if zip in present then zip else json)
  {
    var zip := CacheFile(root, url, ZIP, true, false);
    var json := CacheFile(root, url, JSON, true, false);
    var ps := NetworkCacheFiles(root, url, SUPPORTED);
    assert ps == [zip, json];
    FirstOfTwo(zip, json, present);
    ClassifySupported(root, url);
  }

  /** The first present path of a two-path lookup. */
  lemma FirstOfTwo(a: Path, b: Path, present: set<Path>)
    ensures var k := FirstPresent([a, b], present);
            (k.None? <==> a !in present && b !in present) &&
            (k.Some? ==> k.value < 2 && [a, b][k.value] == if a in present then a else b)
  {
    assert [a, b][1..] == [b];
  }

  /** A cache hit: the classifying handler and the file. */
  datatype Hit = Hit(ext: FileExt, file: Path)

  class AXrNetworkCache {
    const disk: Disk
    /** `cacheProvider.getCacheDir()` */
    const cacheDir: Path

    constructor (disk: Disk, cacheDir: Path)
      ensures this.disk == disk && this.cacheDir == cacheDir
    {
      this.disk := disk;
      this.cacheDir := cacheDir;
    }

    /** `parentCacheDir`: a plain file in the way is deleted and a missing
        directory created. */
    method ParentCacheDir() returns (root: Path)
      requires disk.Valid()
      modifies disk
      ensures disk.Valid() && root == cacheDir && disk.closed == old(disk.closed)
      ensures disk.files == old(disk.files) - {cacheDir} && disk.dirs == old(disk.dirs) + {cacheDir}
    {
      root := cacheDir;
      disk.EnsureDir(root);
    }

    /** `getCachedFile`. */
    method GetCachedFile(url: string, ext: FileExt, isTemp: bool) returns (f: Path)
      requires disk.Valid()
      modifies disk
      ensures disk.Valid() && disk.closed == old(disk.closed)
      ensures disk.files == old(disk.files) - {cacheDir} && disk.dirs == old(disk.dirs) + {cacheDir}
      ensures f == CacheFile(cacheDir, url, ext, true, isTemp)
    {
      var root := ParentCacheDir();
      FilenameIsNetworkCacheName(url, ext, isTemp);
      f := Child(root, FilenameForUrl(url, ext, isTemp));
    }

    /** `fetch`: the first extension, in the given order, whose final file
        exists, with the handler its suffix classifies as; null when none
        exists. The file names do not depend on the disk, so they are
        listed before the loop. */
    method Fetch(url: string, exts: seq<FileExt>) returns (r: Result<Option<Hit>>)
      requires disk.Valid()
      modifies disk
      ensures disk.Valid() && disk.closed == old(disk.closed)
      ensures exts == [] ==> disk.files == old(disk.files) && disk.dirs == old(disk.dirs)
      ensures exts != [] ==> disk.files == old(disk.files) - {cacheDir} && disk.dirs == old(disk.dirs) + {cacheDir}
      ensures var ps := NetworkCacheFiles(cacheDir, url, exts);
              var k := FirstPresent(ps, old(disk.Present()));
              (k.None? ==> r == Success(None)) &&
              (k.Some? ==> r == match Classify(ps[k.value])
                                case Success(e) => Success(Some(Hit(e, ps[k.value])))
                                case Failure(x) => Failure(x))
    {
      var ps := NetworkCacheFiles(cacheDir, url, exts);
      FetchPathsBelowRoot(cacheDir, url, exts);
      var k := Probe(ps);
      if k.None? {
        return Success(None);
      }
      match Classify(ps[k.value])
      case Success(e) => r := Success(Some(Hit(e, ps[k.value])));
      case Failure(x) => r := Failure(x);
    }

    /** The `fetch` loop over the listed files: each pass runs
        `parentCacheDir()` and stops at the first file that exists. */
    method Probe(ps: seq<Path>) returns (k: Option<nat>)
      requires disk.Valid() && forall j :: 0 <= j < |ps| ==> |ps[j]| > |cacheDir|
      modifies disk
      ensures disk.Valid() && disk.closed == old(disk.closed)
      ensures ps == [] ==> disk.files == old(disk.files) && disk.dirs == old(disk.dirs)
      ensures ps != [] ==> disk.files == old(disk.files) - {cacheDir} && disk.dirs == old(disk.dirs) + {cacheDir}
      ensures k == FirstPresent(ps, old(disk.Present()))
    {
      ghost var present0 := disk.Present();
      var i := 0;
      while i < |ps|
        invariant 0 <= i <= |ps|
        invariant disk.Valid() && disk.closed == old(disk.closed)
        invariant i == 0 ==> disk.files == old(disk.files) && disk.dirs == old(disk.dirs)
        invariant i > 0 ==> disk.files == old(disk.files) - {cacheDir} && disk.dirs == old(disk.dirs) + {cacheDir}
        invariant forall j :: 0 <= j < i ==> ps[j] !in present0
      {
        var _ := ParentCacheDir();
        assert disk.Exists(ps[i]) <==> ps[i] in present0;
        if disk.Exists(ps[i]) {
          assert FirstPresent(ps, present0) == Some(i) by {
            FirstPresentAt(ps, present0, i);
          }
          return Some(i);
        }
        i := i + 1;
      }
      k := None;
    }

    /** `fetchFromCache`: the zip file if it exists, else the JSON file if
        it exists, else null. */
    method FetchFromCache(url: string) returns (r: Option<Path>)
      requires disk.Valid()
      modifies disk
      ensures disk.Valid() && disk.closed == old(disk.closed)
      ensures disk.files == old(disk.files) - {cacheDir} && disk.dirs == old(disk.dirs) + {cacheDir}
      ensures var zip := CacheFile(cacheDir, url, ZIP, true, false);
              var json := CacheFile(cacheDir, url, JSON, true, false);
              r == if old(disk.Exists(zip)) then Some(zip) else if old(disk.Exists(json)) then Some(json) else None
    {
      ghost var zip := CacheFile(cacheDir, url, ZIP, true, false);
      ghost var json := CacheFile(cacheDir, url, JSON, true, false);
      SupportedFetch(cacheDir, url, disk.Present());
      assert |zip| > |cacheDir| && |json| > |cacheDir|;
      var res := Fetch(url, SUPPORTED);
      if res.Failure? || res.value.None? {
        return None;
      }
      var f := res.value.value.file;
      if !disk.Exists(f) {
        return None;
      }
      r := Some(f);
    }

    /** `writeTempCacheFile`: every exception is caught and logged, the
        partly written file is kept, the input stream is always closed, and
        the temp path is returned. */
    method WriteTempCacheFile(url: string, s: Stream, ext: FileExt) returns (f: Path)
      requires disk.Valid()
      modifies disk
      ensures disk.Valid() && disk.closed == old(disk.closed) + [s.id]
      ensures disk.dirs == old(disk.dirs) + {cacheDir}
      ensures f == CacheFile(cacheDir, url, ext, true, true)
      ensures var canOpen := f !in old(disk.dirs) && Parent(f).Some? && Parent(f).value in old(disk.dirs) + {cacheDir};
              disk.files == if canOpen then (old(disk.files) - {cacheDir})[f := Concat(s.chunks)] else old(disk.files) - {cacheDir}
      ensures '/' !in ext.extension ==> (f in disk.files <==> f !in old(disk.dirs))
    {
      f := GetCachedFile(url, ext, true);
      assert |f| > |cacheDir|;
      CacheFileInRootIfPlain(url, ext);
      var _, _ := disk.CreateAndCopy(f, s);
      disk.Close(s.id);
    }

    lemma CacheFileInRootIfPlain(url: string, ext: FileExt)
      ensures '/' !in ext.extension ==> Parent(CacheFile(cacheDir, url, ext, true, true)) == Some(cacheDir)
    {
      if '/' !in ext.extension {
        CacheFileInRoot(cacheDir, url, ext, true, true);
      }
    }

    /** `renameTempFile`: the temp file is renamed to its absolute path
        with every ".temp" removed, directories included (the rename's
        result is ignored). That is the final cache file when neither the
        directory nor the extension contains ".temp". */
    method RenameTempFile(url: string, ext: FileExt) returns (r: Path)
      requires disk.Valid()
      modifies disk
      ensures disk.Valid() && disk.closed == old(disk.closed)
      ensures disk.dirs == old(disk.dirs) + {cacheDir}
      ensures r == PromotedPathAsWritten(cacheDir, FindCacheName(url, ext, true, true))
      ensures !Contains(cacheDir, TEMP_INFIX) && !Contains(ext.extension, TEMP_INFIX) ==>
                r == CacheFile(cacheDir, url, ext, true, false)
      ensures var temp := CacheFile(cacheDir, url, ext, true, true);
              disk.files == if CanRename(old(disk.files) - {cacheDir}, old(disk.dirs) + {cacheDir}, temp, r)
                            then (old(disk.files) - {cacheDir, temp})[r := old(disk.files)[temp]]
                            else old(disk.files) - {cacheDir}
    {
      ghost var files0 := disk.files;
      var temp := GetCachedFile(url, ext, true);
      assert |temp| > |cacheDir|;
      r := PromotedPathAsWritten(cacheDir, FindCacheName(url, ext, true, true));
      if !Contains(cacheDir, TEMP_INFIX) && !Contains(ext.extension, TEMP_INFIX) {
        PromotedPathAgrees(cacheDir, FindCacheName(url, ext, true, true));
        PromotedCacheFile(cacheDir, url, ext, true);
      }
      var _ := disk.RenameTo(temp, r);
      assert (files0 - {cacheDir}) - {temp} == files0 - {cacheDir, temp};
    }

    /** `clear`: the directory's entries are deleted, then the directory. */
    method Clear()
      requires disk.Valid()
      modifies disk
      ensures disk.Valid() && disk.closed == old(disk.closed)
      ensures forall q :: q in disk.files ==> q in old(disk.files) && disk.files[q] == old(disk.files)[q]
      ensures forall q :: q in disk.files <==> q in old(disk.files) && q != cacheDir && Parent(q) != Some(cacheDir)
      ensures (forall d :: d in old(disk.dirs) ==> Parent(d) != Some(cacheDir)) ==> cacheDir !in disk.dirs
      ensures disk.dirs <= old(disk.dirs) + {cacheDir}
      ensures forall d :: d in old(disk.dirs) && d != cacheDir && Parent(d) != Some(cacheDir) ==> d in disk.dirs
      ensures forall d :: d in old(disk.dirs) && Parent(d) == Some(cacheDir) ==>
                (d in disk.dirs <==> HasEntries(old(disk.files), old(disk.dirs), d))
      ensures cacheDir !in disk.dirs <==>
                forall d :: d in old(disk.dirs) && Parent(d) == Some(cacheDir) ==> !HasEntries(old(disk.files), old(disk.dirs), d)
      ensures disk.files == ClearedFiles(old(disk.files) - {cacheDir}, old(disk.dirs) + {cacheDir}, cacheDir)
      ensures disk.dirs == ClearedDirs(old(disk.files) - {cacheDir}, old(disk.dirs) + {cacheDir}, cacheDir)
    {
      EntriesBesides(disk.files, disk.dirs, cacheDir);
      var root := ParentCacheDir();
      if disk.Exists(root) {
        disk.ClearDir(root);
      }
    }
  }
}
