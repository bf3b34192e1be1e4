/** AXrLottieTaskFactory: starts the download of an animation URL as a
    task, answering from the in-memory cache when it can and sharing the
    task already in flight for the same key. */
module TaskFactories {
  import opened Wrappers
  import opened LottieResults
  import opened TaskCaches

  /** A task, known by identity. */
  type TaskId = nat

  const TASK_URL_PREFIX: string := "url_"

  /** The lottie task key of a URL. */
  function UrlTaskKey(url: string): (k: string)
    ensures TASK_URL_PREFIX <= k && k[|TASK_URL_PREFIX|..] == url
    ensures k != ""
  {
    TASK_URL_PREFIX + url
  }

  /** Different URLs never share a task key. */
  lemma UrlTaskKeyInjective(a: string, b: string)
    requires UrlTaskKey(a) == UrlTaskKey(b)
    ensures a == b
  {
    assert a == UrlTaskKey(a)[|TASK_URL_PREFIX|..];
  }

  /** Where a request is answered from. */
  datatype Route = UseCached(file: File) | JoinInFlight(id: TaskId) | StartNew

  /** The order of `cache`: an in-memory hit when caching is on, then the
      task in flight for the key whatever the cache flag, then a new task. */
  function RouteFor(cache: bool, hit: Option<File>, inFlight: Option<TaskId>): (r: Route)
    ensures r.UseCached? <==> cache && hit.Some?
    ensures r.UseCached? ==> r.file == hit.value
    ensures r.JoinInFlight? <==> !(cache && hit.Some?) && inFlight.Some?
    ensures r.JoinInFlight? ==> r.id == inFlight.value
    ensures r.StartNew? <==> !(cache && hit.Some?) && inFlight.None?
  {
    if cache && hit.Some? then UseCached(hit.value)
    else if inFlight.Some? then JoinInFlight(inFlight.value)
    else StartNew
  }

  /** The lottie task a request gets: a new task resolving to the cached file, the
      task in flight, or a new registered task. */
  datatype Handle = Resolved(id: TaskId, file: File) | Shared(id: TaskId) | Started(id: TaskId)

  class TaskFactory {
    /** tasks in flight, by key */
    var taskCache: map<Key, TaskId>
    /** the shared in-memory cache of finished downloads */
    const lru: LruTaskCache
    var nextTask: TaskId

    ghost predicate Valid()
      reads this, lru
    {
      lru.Valid() && forall k :: k in taskCache ==> taskCache[k] < nextTask
    }

    constructor (cache: LruTaskCache)
      requires cache.Valid()
      ensures Valid() && lru == cache && taskCache == map[] && nextTask == 0
    {
      taskCache := map[];
      lru := cache;
      nextTask := 0;
    }

    /** `fromUrl`: a null or empty URL gives no task; otherwise the request
        is routed under the key "url_" + url. */
    method FromUrl(url: Option<string>, cache: bool) returns (h: Option<Handle>)
      requires Valid()
      modifies this, lru
      ensures Valid()
      ensures url.None? || url.value == "" ==>
        h.None? && taskCache == old(taskCache) && lru.entries == old(lru.entries) && nextTask == old(nextTask)
      ensures url.Some? && url.value != "" ==>
        var key := UrlTaskKey(url.value);
        var route := RouteFor(cache, Lookup(old(lru.entries), key), if key in old(taskCache) then Some(old(taskCache)[key]) else None);
        && h.Some?
        && (route.UseCached? ==> h.value == Resolved(old(nextTask), route.file) && taskCache == old(taskCache))
        && (route.JoinInFlight? ==> h.value == Shared(route.id) && taskCache == old(taskCache))
        && (route.StartNew? ==> h.value == Started(old(nextTask)) && taskCache == old(taskCache)[key := old(nextTask)])
    {
      if url.None? || url.value == "" {
        return None;
      }
      var handle := Cache(cache, UrlTaskKey(url.value));
      h := Some(handle);
    }

    /** `cache(cache, cacheKey, callable)` for a non-empty key. */
    method Cache(cache: bool, cacheKey: Key) returns (h: Handle)
      requires Valid() && cacheKey != ""
      modifies this, lru
      ensures Valid()
      ensures var route := RouteFor(cache, Lookup(old(lru.entries), cacheKey),
                                    if cacheKey in old(taskCache) then Some(old(taskCache)[cacheKey]) else None);
        && (route.UseCached? ==> h == Resolved(old(nextTask), route.file) && taskCache == old(taskCache)
                                 && nextTask == old(nextTask) + 1)
        && (route.JoinInFlight? ==> h == Shared(route.id) && taskCache == old(taskCache))
        && (route.StartNew? ==> h == Started(old(nextTask)) && taskCache == old(taskCache)[cacheKey := old(nextTask)]
                                && nextTask == old(nextTask) + 1)
      ensures cache ==> lru.entries == Touch(old(lru.entries), cacheKey)
      ensures !cache ==> lru.entries == old(lru.entries)
    {
      if cache {
        var cachedFile := lru.Get(Some(cacheKey));
        if cachedFile.Some? {
          h := Resolved(nextTask, cachedFile.value);
          nextTask := nextTask + 1;
          return;
        }
      }
      if cacheKey in taskCache {
        return Shared(taskCache[cacheKey]);
      }
      h := Started(nextTask);
      taskCache := taskCache[cacheKey := nextTask];
      nextTask := nextTask + 1;
    }

    /** The end of the download callable of `fromUrl`: a result with a file
        is put into the in-memory cache under the key. */
    method FetchFinished(cacheKey: Key, result: LottieResult<File>)
      requires Valid()
      modifies lru
      ensures Valid()
      ensures result.value.Some? ==> lru.entries == PutEntries(old(lru.entries), cacheKey, result.value.value, lru.maxSize)
      ensures result.value.None? ==> lru.entries == old(lru.entries)
    {
      if result.value.Some? {
        lru.Put(Some(cacheKey), result.value.value);
      }
    }

    /** The listeners registered on a new task: a success or a failure
        unregisters the key, so a later request starts over. A result with
        neither leaves it registered. */
    method TaskResolved(cacheKey: Key, result: LottieResult<File>)
      requires Valid()
      modifies this
      ensures Valid() && nextTask == old(nextTask)
      ensures result.value.Some? || result.exception.Some? ==> taskCache == old(taskCache) - {cacheKey}
      ensures result.value.None? && result.exception.None? ==> taskCache == old(taskCache)
    {
      if result.value.Some? || result.exception.Some? {
        taskCache := taskCache - {cacheKey};
      }
    }

    /** `clearCache`: forgets the tasks in flight and empties the
        in-memory cache. */
    method ClearCache()
      requires Valid()
      modifies this, lru
      ensures Valid() && taskCache == map[] && lru.entries == [] && nextTask == old(nextTask)
    {
      taskCache := map[];
      lru.Clear();
    }
  }
}
