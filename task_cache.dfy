/** AXrLottieTaskCache: the in-memory cache from a task key to the file
    the lottie task produced, bounded and evicting the least recently used entry
    (an androidx LruCache, modelled by its observable behaviour). */
module TaskCaches {
  import opened Wrappers

  type Key = string
  type File = string

  datatype Entry = Entry(key: Key, file: File)

  const DEFAULT_CACHE_SIZE: int := 20

  /** No key is stored twice. */
  predicate KeysDistinct(es: seq<Entry>) {
    forall i, j :: 0 <= i < j < |es| ==> es[i].key != es[j].key
  }

  /** The file stored under `k`, if any. */
  function Lookup(es: seq<Entry>, k: Key): (r: Option<File>)
    ensures r.Some? <==> exists i :: 0 <= i < |es| && es[i].key == k
    ensures r.Some? ==> Entry(k, r.value) in es
  {
    if es == [] then None
    else if es[0].key == k then Some(es[0].file)
    else
      var r := Lookup(es[1..], k);
      assert forall i :: 0 < i < |es| ==> es[i] == es[1..][i - 1];
      r
  }

  /** The entries without the one stored under `k`, in the same order. */
  function Without(es: seq<Entry>, k: Key): (r: seq<Entry>)
    ensures Lookup(r, k).None?
    ensures |r| <= |es|
    ensures forall e :: e in r ==> e in es
    ensures KeysDistinct(es) ==> KeysDistinct(r)
  {
    if es == [] then []
    else if es[0].key == k then Without(es[1..], k)
    else
      var tail := Without(es[1..], k);
      assert forall e :: e in tail ==> e.key != es[0].key || !KeysDistinct(es) by {
        forall e | e in tail && KeysDistinct(es) ensures e.key != es[0].key {
          var j :| 0 <= j < |es[1..]| && es[1..][j] == e;
          assert es[j + 1] == e;
        }
      }
      [es[0]] + tail
  }

  /** Other keys keep their files when one key is removed. */
  lemma {:induction false} WithoutKeepsOthers(es: seq<Entry>, k: Key, other: Key)
    requires other != k
    ensures Lookup(Without(es, k), other) == Lookup(es, other)
  {
    if es != [] {
      WithoutKeepsOthers(es[1..], k, other);
    }
  }

  /** `trimToSize(max)`: evicts the eldest entries until at most `max` are
      left (all of them for a negative bound). */
  function Trim(es: seq<Entry>, max: int): (r: seq<Entry>)
    ensures max >= 0 ==> |r| <= max
    ensures max < 0 ==> r == []
    ensures |r| <= |es| && r == es[|es| - |r|..]
    ensures |es| <= max ==> r == es
  {
    if max <= 0 then []
    else if |es| <= max then es
    else es[|es| - max..]
  }

  /** `put`: the entry becomes the most recent, replacing any entry under
      the same key, and the eldest are evicted beyond the bound. */
  function PutEntries(es: seq<Entry>, k: Key, f: File, max: int): seq<Entry> {
    Trim(Without(es, k) + [Entry(k, f)], max)
  }

  /** `get` on a hit makes the entry the most recent. */
  function Touch(es: seq<Entry>, k: Key): seq<Entry> {
    match Lookup(es, k)
    case None => es
    case Some(f) => Without(es, k) + [Entry(k, f)]
  }

  /** A suffix of a list with distinct keys has distinct keys. */
  lemma SuffixKeysDistinct(es: seq<Entry>, n: nat)
    requires KeysDistinct(es) && n <= |es|
    ensures KeysDistinct(es[n..])
  {
    assert forall i :: 0 <= i < |es[n..]| ==> es[n..][i] == es[n + i];
  }

  /** Appending an entry under an absent key keeps keys distinct, and the
      new entry is found. */
  lemma AppendFresh(es: seq<Entry>, k: Key, f: File)
    requires KeysDistinct(es) && Lookup(es, k).None?
    ensures KeysDistinct(es + [Entry(k, f)])
    ensures Lookup(es + [Entry(k, f)], k) == Some(f)
    ensures forall other :: other != k ==> Lookup(es + [Entry(k, f)], other) == Lookup(es, other)
  {
    LookupAppend(es, Entry(k, f), k);
    forall other | other != k ensures Lookup(es + [Entry(k, f)], other) == Lookup(es, other) {
      LookupAppend(es, Entry(k, f), other);
    }
  }

  lemma {:induction false} LookupAppend(es: seq<Entry>, e: Entry, k: Key)
    ensures Lookup(es + [e], k) == if Lookup(es, k).Some? then Lookup(es, k) else if e.key == k then Some(e.file) else None
  {
    if es != [] {
      assert (es + [e])[1..] == es[1..] + [e];
      LookupAppend(es[1..], e, k);
    } else {
      assert es + [e] == [e];
    }
  }

  /** The last entry of a list with distinct keys is found under its key. */
  lemma LookupLast(es: seq<Entry>)
    requires KeysDistinct(es) && es != []
    ensures Lookup(es, es[|es| - 1].key) == Some(es[|es| - 1].file)
  {
    var init := es[..|es| - 1];
    var e := es[|es| - 1];
    assert es == init + [e];
    assert Lookup(init, e.key).None?;
    LookupAppend(init, e, e.key);
  }

  /** After `put(k, f)` with a positive bound, `get(k)` finds `f`, the
      bound holds, keys stay distinct and `k` is the most recent entry. */
  lemma GetAfterPut(es: seq<Entry>, k: Key, f: File, max: int)
    requires KeysDistinct(es) && max >= 1
    ensures var r := PutEntries(es, k, f, max);
      && Lookup(r, k) == Some(f) && |r| <= max && KeysDistinct(r)
      && r[|r| - 1] == Entry(k, f)
  {
    var w := Without(es, k);
    AppendFresh(w, k, f);
    var r := PutEntries(es, k, f, max);
    SuffixKeysDistinct(w + [Entry(k, f)], |w| + 1 - |r|);
    assert r[|r| - 1] == Entry(k, f);
    LookupLast(r);
  }

  /** A put leaves every other key's file as it was, or evicts it; when
      the cache was not full, nothing else is evicted. */
  lemma PutKeepsOthers(es: seq<Entry>, k: Key, f: File, max: int, other: Key)
    requires KeysDistinct(es) && max >= 1 && other != k
    ensures var r := Lookup(PutEntries(es, k, f, max), other);
      r.None? || r == Lookup(es, other)
    ensures |Without(es, k)| < max ==> Lookup(PutEntries(es, k, f, max), other) == Lookup(es, other)
  {
    var w := Without(es, k);
    var full := w + [Entry(k, f)];
    assert Lookup(full, other) == Lookup(es, other) by {
      AppendFresh(w, k, f);
      WithoutKeepsOthers(es, k, other);
    }
    var r := Trim(full, max);
    assert r == PutEntries(es, k, f, max);
    var n := |full| - |r|;
    assert r == full[n..];
    if Lookup(r, other).Some? {
      assert KeysDistinct(full) by {
        AppendFresh(w, k, f);
      }
      LookupSuffix(full, n, other);
    }
  }

  /** What a key finds in a suffix of a list with distinct keys is what it
      finds in the whole list. */
  lemma {:induction false} LookupSuffix(es: seq<Entry>, n: nat, k: Key)
    requires KeysDistinct(es) && n <= |es| && Lookup(es[n..], k).Some?
    ensures Lookup(es[n..], k) == Lookup(es, k)
  {
    if n > 0 {
      SuffixKeysDistinct(es, 1);
      assert es[n..] == es[1..][n - 1..];
      LookupSuffix(es[1..], n - 1, k);
      var j :| 0 <= j < |es[1..]| && es[1..][j].key == k;
      assert es[j + 1].key == k;
      assert es[0].key != k;
    }
  }

  /** A `get` hit changes only the recency order: every key finds what it
      found before. */
  lemma {:induction false} TouchKeepsLookups(es: seq<Entry>, k: Key, other: Key)
    requires KeysDistinct(es)
    ensures Lookup(Touch(es, k), other) == Lookup(es, other)
    ensures KeysDistinct(Touch(es, k)) && |Touch(es, k)| == |es|
  {
    var l := Lookup(es, k);
    if l.Some? {
      var w := Without(es, k);
      AppendFresh(w, k, l.value);
      if other != k {
        WithoutKeepsOthers(es, k, other);
      }
      var j :| 0 <= j < |es| && es[j].key == k;
      WithoutOneFewer(es, k, j);
    }
  }

  /** Removing a present key from a list with distinct keys drops one
      entry. */
  lemma {:induction false} WithoutOneFewer(es: seq<Entry>, k: Key, j: nat)
    requires KeysDistinct(es) && j < |es| && es[j].key == k
    ensures |Without(es, k)| == |es| - 1
  {
    SuffixKeysDistinct(es, 1);
    if j > 0 {
      WithoutOneFewer(es[1..], k, j - 1);
    } else {
      WithoutAbsent(es[1..], k);
    }
  }

  lemma {:induction false} WithoutAbsent(es: seq<Entry>, k: Key)
    requires forall i :: 0 <= i < |es| ==> es[i].key != k
    ensures Without(es, k) == es
  {
    if es != [] {
      WithoutAbsent(es[1..], k);
    }
  }

  class LruTaskCache {
    /** the entries, least recently used first */
    var entries: seq<Entry>
    var maxSize: int

    ghost predicate Valid()
      reads this
    {
      KeysDistinct(entries) && maxSize > 0 && |entries| <= maxSize
    }

    /** The cache starts empty with room for 20 entries. */
    constructor ()
      ensures Valid() && entries == [] && maxSize == DEFAULT_CACHE_SIZE
    {
      entries := [];
      maxSize := DEFAULT_CACHE_SIZE;
    }

    /** `get`: a null key finds nothing; a hit becomes the most recent. */
    method Get(cacheKey: Option<Key>) returns (f: Option<File>)
      requires Valid()
      modifies this
      ensures Valid() && maxSize == old(maxSize)
      ensures cacheKey.None? ==> f.None? && entries == old(entries)
      ensures cacheKey.Some? ==> f == Lookup(old(entries), cacheKey.value) && entries == Touch(old(entries), cacheKey.value)
    {
      if cacheKey.None? {
        return None;
      }
      f := Lookup(entries, cacheKey.value);
      TouchKeepsLookups(entries, cacheKey.value, cacheKey.value);
      entries := Touch(entries, cacheKey.value);
    }

    /** `put`: a null key changes nothing. */
    method Put(cacheKey: Option<Key>, composition: File)
      requires Valid()
      modifies this
      ensures Valid() && maxSize == old(maxSize)
      ensures cacheKey.None? ==> entries == old(entries)
      ensures cacheKey.Some? ==> entries == PutEntries(old(entries), cacheKey.value, composition, maxSize)
    {
      if cacheKey.None? {
        return;
      }
      GetAfterPut(entries, cacheKey.value, composition, maxSize);
      var w := Without(entries, cacheKey.value);
      AppendFresh(w, cacheKey.value, composition);
      entries := w + [Entry(cacheKey.value, composition)];
      TrimToSize(maxSize);
    }

    /** `evictAll`. */
    method Clear()
      requires Valid()
      modifies this
      ensures Valid() && entries == [] && maxSize == old(maxSize)
    {
      TrimToSize(-1);
    }

    /** `resize`: the bound must be positive (IllegalArgumentException);
        a smaller bound evicts the eldest entries. */
    method Resize(size: int) returns (ok: Result<()>)
      requires Valid()
      modifies this
      ensures Valid()
      ensures size <= 0 ==> ok.Failure? && ok.error.IllegalArgument? && entries == old(entries) && maxSize == old(maxSize)
      ensures size > 0 ==> ok.Success? && maxSize == size && entries == Trim(old(entries), size)
    {
      if size <= 0 {
        return Failure(IllegalArgument("maxSize <= 0"));
      }
      maxSize := size;
      SuffixKeysDistinct(entries, |entries| - |Trim(entries, size)|);
      TrimToSize(size);
      ok := Success(());
    }

    /** `trimToSize`: evicts the eldest entry while there are more than
        `max`. */
    method TrimToSize(max: int)
      modifies this
      ensures entries == Trim(old(entries), max) && maxSize == old(maxSize)
    {
      ghost var es := entries;
      ghost var n := 0;
      while !(|entries| <= max || entries == [])
        invariant 0 <= n <= |es| && entries == es[n..] && maxSize == old(maxSize)
        invariant n > 0 ==> |es| - n >= max
        decreases |entries|
      {
        entries := entries[1..];
        n := n + 1;
      }
    }
  }
}
