/** `AXrLottie`: the library's static configuration, as one object. It
    holds the registry of file-type handlers by lower-cased extension, the
    network-cache flag, the default options and the lazily created network
    fetcher and cache manager. */
module Registries {
  import opened Wrappers
  import opened Strings
  import opened Extensions
  import opened Disks
  import opened CacheManagers
  import opened TaskFactories
  import opened Options

  const NETWORK_CACHE_DIR_NAME: string := "lottie_network"
  const LOCAL_CACHE_DIR_NAME: string := "lottie"

  /** An `AXrNetworkFetcher` wrapping a user fetcher (a handle), or the
      built-in `AXrSimpleNetworkFetcher` when `custom` is None. */
  class NetworkFetcher {
    const custom: Option<nat>

    constructor (custom: Option<nat>)
      ensures this.custom == custom
    {
      this.custom := custom;
    }
  }

  /** The key a handler is registered under. */
  function KeyOf(e: FileExt): (k: string)
    ensures |k| == |e.extension|
    ensures forall i :: 0 <= i < |k| ==> k[i] == LowerChar(e.extension[i])
  {
    ToLower(e.extension)
  }

  class Lottie {
    /** getCacheDir() of the application context */
    const appCacheDir: Path
    const disk: Disk
    const factory: TaskFactory
    var fileExtensions: map<string, FileExt>
    var networkCacheEnabled: bool
    var defaultOptions: LottieOptions?
    var networkFetcher: NetworkFetcher?
    var cacheManager: CacheManager?

    ghost predicate Valid()
      reads this, disk, factory, factory.lru
    {
      disk.Valid() && factory.Valid() && (cacheManager != null ==> cacheManager.disk == disk)
    }

    /** The class as loaded: an empty registry, caching enabled and
        nothing created yet. */
    constructor (appCacheDir: Path, disk: Disk, factory: TaskFactory)
      requires disk.Valid() && factory.Valid()
      ensures Valid() && this.appCacheDir == appCacheDir && this.disk == disk && this.factory == factory
      ensures fileExtensions == map[] && networkCacheEnabled
      ensures defaultOptions == null && networkFetcher == null && cacheManager == null
    {
      this.appCacheDir, this.disk, this.factory := appCacheDir, disk, factory;
      fileExtensions, networkCacheEnabled := map[], true;
      defaultOptions, networkFetcher, cacheManager := null, null, null;
    }

    /** `init` (besides loading the native library and the refresh rate):
        register the zip handler, then the JSON handler. */
    method Init()
      modifies this
      ensures fileExtensions == old(fileExtensions)[KeyOf(ZIP) := ZIP][KeyOf(JSON) := JSON]
      ensures KeyOf(JSON) in fileExtensions && fileExtensions[KeyOf(JSON)] == JSON
      ensures KeyOf(ZIP) in fileExtensions && fileExtensions[KeyOf(ZIP)].kind == Zip
      ensures networkCacheEnabled == old(networkCacheEnabled) && defaultOptions == old(defaultOptions)
      ensures networkFetcher == old(networkFetcher) && cacheManager == old(cacheManager)
    {
      AddFileExtension(ZIP);
      AddFileExtension(JSON);
    }

    /** `addFileExtension`: the handler replaces whatever was registered
        under its lower-cased extension. */
    method AddFileExtension(e: FileExt)
      modifies this`fileExtensions
      ensures fileExtensions == old(fileExtensions)[KeyOf(e) := e]
    {
      fileExtensions := fileExtensions[ToLower(e.extension) := e];
    }

    /** `removeFileExtension`: only the handler's lower-cased key goes,
        whichever handler is registered under it. */
    method RemoveFileExtension(e: FileExt)
      modifies this`fileExtensions
      ensures fileExtensions == old(fileExtensions) - {KeyOf(e)}
    {
      fileExtensions := fileExtensions - {ToLower(e.extension)};
    }

    function GetDefaultOptions(): LottieOptions?
      reads this
    {
      defaultOptions
    }

    method SetDefaultOptions(o: LottieOptions?)
      modifies this`defaultOptions
      ensures GetDefaultOptions() == o
    {
      defaultOptions := o;
    }

    method SetNetworkCacheEnabled(enabled: bool)
      modifies this`networkCacheEnabled
      ensures IsNetworkCacheEnabled() == enabled
    {
      networkCacheEnabled := enabled;
    }

    function IsNetworkCacheEnabled(): bool
      reads this
    {
      networkCacheEnabled
    }

    /** `setNetworkFetcher`: a new wrapper around the given fetcher, or
        around a new simple fetcher for null. */
    method SetNetworkFetcher(custom: Option<nat>)
      modifies this`networkFetcher
      ensures networkFetcher != null && fresh(networkFetcher) && networkFetcher.custom == custom
    {
      networkFetcher := new NetworkFetcher(custom);
    }

    /** `getNetworkFetcher`: the fetcher set before, or one over the simple
        fetcher created on the first call and returned from then on. */
    method GetNetworkFetcher() returns (f: NetworkFetcher)
      modifies this`networkFetcher
      ensures old(networkFetcher) != null ==> f == old(networkFetcher) && networkFetcher == f
      ensures old(networkFetcher) == null ==> fresh(f) && f.custom.None? && networkFetcher == f
    {
      if networkFetcher == null {
        networkFetcher := new NetworkFetcher(None);
      }
      f := networkFetcher;
    }

    /** `getLottieCacheManager`: created on the first call over
        `<cacheDir>/lottie_network` and `<cacheDir>/lottie`, then the same
        object on every call. */
    method GetLottieCacheManager() returns (m: CacheManager)
      requires Valid()
      modifies this`cacheManager
      ensures Valid() && cacheManager == m && m.disk == disk
      ensures old(cacheManager) != null ==> m == old(cacheManager)
      ensures old(cacheManager) == null ==>
                fresh(m) && m.networkCacheDir == Child(appCacheDir, NETWORK_CACHE_DIR_NAME)
                && m.localCacheDir == Child(appCacheDir, LOCAL_CACHE_DIR_NAME)
    {
      if cacheManager == null {
        cacheManager := new CacheManager(disk, Child(appCacheDir, NETWORK_CACHE_DIR_NAME), Child(appCacheDir, LOCAL_CACHE_DIR_NAME));
      }
      m := cacheManager;
    }

    /** `setNetworkCacheDir`: a path that is not a directory is refused
        before the cache manager is touched; otherwise the manager (created
        if need be) gets the new network root. */
    method SetNetworkCacheDir(file: Path) returns (r: Result<()>)
      requires Valid()
      modifies this`cacheManager, cacheManager
      ensures Valid()
      ensures r.Failure? <==> file !in disk.dirs
      ensures r.Failure? ==> r.error == IllegalArgument("cache file must be a directory") && cacheManager == old(cacheManager)
      ensures r.Failure? && cacheManager != null ==> cacheManager.networkCacheDir == old(cacheManager.networkCacheDir)
      ensures r.Success? ==> cacheManager != null && cacheManager.networkCacheDir == file
      ensures r.Success? && old(cacheManager) != null ==>
                cacheManager == old(cacheManager) && cacheManager.localCacheDir == old(cacheManager.localCacheDir)
    {
      if file !in disk.dirs {
        return Failure(IllegalArgument("cache file must be a directory"));
      }
      var m := GetLottieCacheManager();
      m.networkCacheDir := file;
      r := Success(());
    }

    /** `setLocalCacheDir`: as `setNetworkCacheDir`, for the local root. */
    method SetLocalCacheDir(file: Path) returns (r: Result<()>)
      requires Valid()
      modifies this`cacheManager, cacheManager
      ensures Valid()
      ensures r.Failure? <==> file !in disk.dirs
      ensures r.Failure? ==> r.error == IllegalArgument("cache file must be a directory") && cacheManager == old(cacheManager)
      ensures r.Failure? && cacheManager != null ==> cacheManager.localCacheDir == old(cacheManager.localCacheDir)
      ensures r.Success? ==> cacheManager != null && cacheManager.localCacheDir == file
      ensures r.Success? && old(cacheManager) != null ==>
                cacheManager == old(cacheManager) && cacheManager.networkCacheDir == old(cacheManager.networkCacheDir)
    {
      if file !in disk.dirs {
        return Failure(IllegalArgument("cache file must be a directory"));
      }
      var m := GetLottieCacheManager();
      m.localCacheDir := file;
      r := Success(());
    }

    /** `setMaxNetworkCacheSize`: resize the shared cache of downloads. */
    method SetMaxNetworkCacheSize(size: int) returns (r: Result<()>)
      requires Valid()
      modifies factory.lru
      ensures Valid()
      ensures r.Failure? <==> size <= 0
      ensures r.Success? ==> factory.lru.maxSize == size
    {
      r := factory.lru.Resize(size);
    }

    /** `clearCache`: forget the tasks in flight and the cached downloads,
        then clear both cache roots on disk. */
    method ClearCache()
      requires Valid()
      modifies factory, factory.lru, this`cacheManager, disk
      ensures Valid() && cacheManager != null
      ensures factory.taskCache == map[] && factory.lru.entries == []
      ensures old(cacheManager) != null ==> cacheManager == old(cacheManager)
      ensures old(cacheManager) == null ==>
                cacheManager.networkCacheDir == Child(appCacheDir, NETWORK_CACHE_DIR_NAME)
                && cacheManager.localCacheDir == Child(appCacheDir, LOCAL_CACHE_DIR_NAME)
      ensures forall q :: q in disk.files ==> q in old(disk.files) && disk.files[q] == old(disk.files)[q]
      ensures var local, network := cacheManager.localCacheDir, cacheManager.networkCacheDir;
              forall q :: q in disk.files <==>
                q in old(disk.files) && q != local && q != network && Parent(q) != Some(local) && Parent(q) != Some(network)
      ensures var local, network := cacheManager.localCacheDir, cacheManager.networkCacheDir;
              && disk.dirs <= old(disk.dirs) + {local, network}
              && (forall d ::
                    (d in old(disk.dirs) && d != local && d != network && Parent(d) != Some(local) && Parent(d) != Some(network)) ==>
                    d in disk.dirs)
              && ((forall d :: d in old(disk.dirs) ==> Parent(d) != Some(local) && Parent(d) != Some(network)) ==>
                    local !in disk.dirs && network !in disk.dirs)
      ensures var local, network := cacheManager.localCacheDir, cacheManager.networkCacheDir;
              var files1 := ClearedFiles(old(disk.files) - {local}, old(disk.dirs) + {local}, local);
              var dirs1 := ClearedDirs(old(disk.files) - {local}, old(disk.dirs) + {local}, local);
              disk.files == ClearedFiles(files1 - {network}, dirs1 + {network}, network) &&
              disk.dirs == ClearedDirs(files1 - {network}, dirs1 + {network}, network)
      ensures var local, network := cacheManager.localCacheDir, cacheManager.networkCacheDir;
              !(local <= network) && !(network <= local) ==>
                && (forall d :: d in old(disk.dirs) && (Parent(d) == Some(local) || Parent(d) == Some(network)) ==>
                      (d in disk.dirs <==> HasEntries(old(disk.files), old(disk.dirs), d)))
                && (local !in disk.dirs <==>
                      forall d :: d in old(disk.dirs) && Parent(d) == Some(local) ==> !HasEntries(old(disk.files), old(disk.dirs), d))
                && (network !in disk.dirs <==>
                      forall d :: d in old(disk.dirs) && Parent(d) == Some(network) ==> !HasEntries(old(disk.files), old(disk.dirs), d))
    {
      factory.ClearCache();
      var m := GetLottieCacheManager();
      m.Clear();
    }
  }

  /** Registering two handlers whose extensions differ only in case keeps
      the later one; removing either then empties that key. */
  lemma SameKeyReplaces(reg: map<string, FileExt>, a: FileExt, b: FileExt)
    requires ToLower(a.extension) == ToLower(b.extension)
    ensures reg[KeyOf(a) := a][KeyOf(b) := b] == reg[KeyOf(b) := b]
    ensures KeyOf(a) !in reg[KeyOf(a) := a][KeyOf(b) := b] - {KeyOf(b)}
  {
  }

  /** Lower-casing makes the key insensitive to the extension's case: two
      extensions get the same key exactly when they agree letter by letter
      up to case. */
  lemma {:induction false} KeyIgnoresCase(a: FileExt, b: FileExt)
    requires |a.extension| == |b.extension|
    requires forall i :: 0 <= i < |a.extension| ==> LowerChar(a.extension[i]) == LowerChar(b.extension[i])
    ensures KeyOf(a) == KeyOf(b)
  {
    var ka, kb := KeyOf(a), KeyOf(b);
    assert |ka| == |kb|;
    forall i | 0 <= i < |ka|
      ensures ka[i] == kb[i]
    {
    }
  }
}
