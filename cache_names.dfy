/** Cache file names: the sanitised key, the network prefix, the ".temp"
    infix of a file still being written, and the path a temp file is
    renamed to once its content has parsed. */
module CacheNames {
  import opened Wrappers
  import opened Strings
  import opened Extensions
  import opened Disks

  const NETWORK_PREFIX: string := "lottie_cache_"

  /** The part of a cache name before its extension: the network prefix
      for network-scoped entries, then the key with every run of non-word
      characters removed. It holds neither '.' nor '/'. */
  function CacheNameHead(key: string, fromNetwork: bool): (h: string)
    ensures '.' !in h && '/' !in h
    ensures fromNetwork ==> NETWORK_PREFIX <= h && h[|NETWORK_PREFIX|..] == StripNonWord(key)
    ensures !fromNetwork ==> h == StripNonWord(key)
  {
    StripNonWordHasNoDot(key);
    (if fromNetwork then NETWORK_PREFIX else "") + StripNonWord(key)
  }

  /** `findCacheName`: the head, then the temp extension or the extension. */
  function FindCacheName(key: string, ext: FileExt, fromNetwork: bool, isTemp: bool): string {
    CacheNameHead(key, fromNetwork) + (if isTemp then TempExtension(ext) else ext.extension)
  }

  /** `getCachedFile`: the cache file of a key in a cache root. */
  function CacheFile(root: Path, key: string, ext: FileExt, fromNetwork: bool, isTemp: bool): Path {
    Child(root, FindCacheName(key, ext, fromNetwork, isTemp))
  }

  /** A cache file lies directly in its root unless the extension itself
      holds a '/'. */
  lemma CacheFileInRoot(root: Path, key: string, ext: FileExt, fromNetwork: bool, isTemp: bool)
    requires '/' !in ext.extension
    ensures Parent(CacheFile(root, key, ext, fromNetwork, isTemp)) == Some(root)
    ensures CacheFile(root, key, ext, fromNetwork, isTemp) != root
  {
    var n := FindCacheName(key, ext, fromNetwork, isTemp);
    assert '/' !in TEMP_INFIX;
    assert '/' !in n by {
      var suffix := if isTemp then TempExtension(ext) else ext.extension;
      assert n == CacheNameHead(key, fromNetwork) + suffix;
    }
    ParentOfChild(root, n);
  }

  /** Two keys share a cache file exactly when they agree after removing
      their non-word characters. */
  lemma CacheNameCollision(k1: string, k2: string, ext: FileExt, fromNetwork: bool, isTemp: bool)
    ensures FindCacheName(k1, ext, fromNetwork, isTemp) == FindCacheName(k2, ext, fromNetwork, isTemp)
            <==> StripNonWord(k1) == StripNonWord(k2)
  {
    var h1 := CacheNameHead(k1, fromNetwork);
    var h2 := CacheNameHead(k2, fromNetwork);
    var suffix := if isTemp then TempExtension(ext) else ext.extension;
    if h1 + suffix == h2 + suffix {
      assert h1 == (h1 + suffix)[..|h1|];
      assert |h1| == |h2|;
      assert h2 == (h2 + suffix)[..|h2|];
      if fromNetwork {
        assert StripNonWord(k1) == h1[|NETWORK_PREFIX|..];
      }
    }
  }

  /** The sanitised part of a cache name holds neither '.' nor '/', so a
      name built from a dotted extension has that extension as its suffix
      from the last '.'. */
  lemma CacheNameSuffix(key: string, ext: FileExt, fromNetwork: bool)
    requires |ext.extension| >= 1 && ext.extension[0] == '.' && '.' !in ext.extension[1..]
    ensures SuffixFromLastDot(FindCacheName(key, ext, fromNetwork, false)) == Some(ext.extension)
  {
    SuffixOfDottedExtension(CacheNameHead(key, fromNetwork), ext.extension);
  }

  // ---------------------------------------------------------------------
  // Removing the ".temp" infix
  // ---------------------------------------------------------------------

  /** No proper prefix of `p` is also a suffix of it, so two occurrences of
      `p` never overlap. */
  predicate Borderless(p: string) {
    forall k :: 0 < k < |p| ==> p[..k] != p[|p| - k..]
  }

  lemma TempInfixBorderless()
    ensures Borderless(TEMP_INFIX)
  {
    var p := TEMP_INFIX;
    forall k | 0 < k < |p| ensures p[..k] != p[|p| - k..] {
      assert p[..k][0] == '.';
      assert p[|p| - k..][0] == p[|p| - k] != '.';
    }
  }

  /** One step of the removal scan at a match. */
  lemma RemoveAllAtMatch(s: string, p: string)
    requires 0 < |p| <= |s| && s[..|p|] == p
    ensures RemoveAll(s, p) == RemoveAll(s[|p|..], p)
  {
  }

  /** One step of the removal scan past a character. */
  lemma RemoveAllAtMiss(s: string, p: string)
    requires 0 < |p| <= |s| && s[..|p|] != p
    ensures RemoveAll(s, p) == [s[0]] + RemoveAll(s[1..], p)
  {
  }

  /** A borderless pattern placed after a non-empty string shorter than
      itself does not start at the front of the two. */
  lemma NoStraddle(a: string, p: string, b: string)
    requires Borderless(p) && 0 < |a| < |p|
    ensures (a + p + b)[..|p|] != p
  {
    var k := |p| - |a|;
    assert p[..k] != p[|p| - k..];
    assert (a + p + b)[..|p|][|a|..] == p[..k];
  }

  /** An occurrence of a borderless pattern splits the removal: nothing
      before it can join with it, and the scan restarts right after it. */
  lemma {:induction false} RemoveAllAcross(a: string, b: string, p: string)
    requires |p| > 0 && Borderless(p)
    ensures RemoveAll(a + p + b, p) == RemoveAll(a, p) + RemoveAll(b, p)
    decreases |a|
  {
    if a == [] {
      assert a + p + b == p + b;
      RemoveAllAtMatch(p + b, p);
      assert (p + b)[|p|..] == b;
    } else if |a| >= |p| && a[..|p|] == p {
      RemoveAllAcross(a[|p|..], b, p);
      AcrossAtMatch(a, b, p);
    } else {
      RemoveAllAcross(a[1..], b, p);
      AcrossAtMiss(a, b, p);
    }
  }

  /** The step of `RemoveAllAcross` when `a` starts with the pattern. */
  lemma AcrossAtMatch(a: string, b: string, p: string)
    requires 0 < |p| <= |a| && a[..|p|] == p
    requires RemoveAll(a[|p|..] + p + b, p) == RemoveAll(a[|p|..], p) + RemoveAll(b, p)
    ensures RemoveAll(a + p + b, p) == RemoveAll(a, p) + RemoveAll(b, p)
  {
    var s := a + p + b;
    assert s[..|p|] == p;
    assert s[|p|..] == a[|p|..] + p + b;
    RemoveAllAtMatch(s, p);
    RemoveAllAtMatch(a, p);
  }

  /** The step of `RemoveAllAcross` when `a` does not start with the
      pattern: its first character is kept on both sides. */
  lemma AcrossAtMiss(a: string, b: string, p: string)
    requires |p| > 0 && Borderless(p) && a != [] && !(|a| >= |p| && a[..|p|] == p)
    requires RemoveAll(a[1..] + p + b, p) == RemoveAll(a[1..], p) + RemoveAll(b, p)
    ensures RemoveAll(a + p + b, p) == RemoveAll(a, p) + RemoveAll(b, p)
  {
    var s := a + p + b;
    assert s[1..] == a[1..] + p + b;
    assert s[0] == a[0];
    if |a| >= |p| {
      assert s[..|p|] == a[..|p|];
      RemoveAllAtMiss(a, p);
    } else {
      NoStraddle(a, p, b);
      ShortKept(a, p);
    }
    RemoveAllAtMiss(s, p);
  }

  /** A non-empty string shorter than the pattern is kept, and so is its
      tail. */
  lemma ShortKept(a: string, p: string)
    requires 0 < |a| < |p|
    ensures RemoveAll(a, p) == [a[0]] + RemoveAll(a[1..], p)
  {
    assert RemoveAll(a, p) == a;
    assert RemoveAll(a[1..], p) == a[1..];
    assert a == [a[0]] + a[1..];
  }

  /** Promoting a temp cache name: removing ".temp" gives the final name. */
  lemma PromoteCacheName(key: string, ext: FileExt, fromNetwork: bool)
    requires !Contains(ext.extension, TEMP_INFIX)
    ensures RemoveAll(FindCacheName(key, ext, fromNetwork, true), TEMP_INFIX) == FindCacheName(key, ext, fromNetwork, false)
  {
    var head := CacheNameHead(key, fromNetwork);
    assert FindCacheName(key, ext, fromNetwork, true) == head + TEMP_INFIX + ext.extension;
    TempInfixBorderless();
    RemoveAllAcross(head, ext.extension, TEMP_INFIX);
    NotContainsWithoutHead(head, TEMP_INFIX);
    RemoveAllAbsent(head, TEMP_INFIX);
    RemoveAllAbsent(ext.extension, TEMP_INFIX);
  }

  /** `getAbsolutePath().replace(".temp", "")` as written: the infix is
      removed from the whole path, directories included. */
  function PromotedPathAsWritten(dir: Path, name: string): (p: Path)
    ensures |p| <= |dir| + 1 + |name|
  {
    RemoveAll(Child(dir, name), TEMP_INFIX)
  }

  /** The rename target the comments describe: the same directory, with
      ".temp" removed from the file name only. */
  function PromotedPath(dir: Path, name: string): (p: Path)
    ensures '/' !in name ==> Parent(p).Some? && Parent(p).value == dir
  {
    if '/' !in name then
      assert '/' !in RemoveAll(name, TEMP_INFIX) by {
        RemoveAllSubsequence(name, TEMP_INFIX);
      }
      ParentOfChild(dir, RemoveAll(name, TEMP_INFIX));
      Child(dir, RemoveAll(name, TEMP_INFIX))
    else
      Child(dir, RemoveAll(name, TEMP_INFIX))
  }

  /** Every character of the removal result comes from the input. */
  lemma {:induction false} RemoveAllSubsequence(s: string, p: string)
    requires |p| > 0
    ensures forall c :: c in RemoveAll(s, p) ==> c in s
    decreases |s|
  {
    if |s| >= |p| {
      if s[..|p|] == p {
        RemoveAllSubsequence(s[|p|..], p);
        assert forall c :: c in s[|p|..] ==> c in s;
      } else {
        RemoveAllSubsequence(s[1..], p);
        assert forall c :: c in s[1..] ==> c in s;
      }
    }
  }

  /** The final network cache file of `url` for each extension, in order:
      the files both network caches look for. */
  function NetworkCacheFiles(root: Path, url: string, exts: seq<FileExt>): (ps: seq<Path>)
    ensures |ps| == |exts|
    ensures forall j :: 0 <= j < |exts| ==> ps[j] == CacheFile(root, url, exts[j], true, false)
  {
    if exts == [] then [] else [CacheFile(root, url, exts[0], true, false)] + NetworkCacheFiles(root, url, exts[1..])
  }

  /** A temp cache file is promoted to the final cache file in the same
      directory. */
  lemma PromotedCacheFile(dir: Path, key: string, ext: FileExt, fromNetwork: bool)
    requires !Contains(ext.extension, TEMP_INFIX)
    ensures PromotedPath(dir, FindCacheName(key, ext, fromNetwork, true)) == Child(dir, FindCacheName(key, ext, fromNetwork, false))
  {
    PromoteCacheName(key, ext, fromNetwork);
  }

  /** The whole-path removal agrees with the intended rename when the
      directory does not contain ".temp". */
  lemma PromotedPathAgrees(dir: Path, name: string)
    requires !Contains(dir, TEMP_INFIX)
    ensures PromotedPathAsWritten(dir, name) == PromotedPath(dir, name)
  {
    assert '/' !in TEMP_INFIX;
    RemoveAllChild(dir, name, TEMP_INFIX);
  }

  /** Removing a pattern without '/' from a path whose directory does not
      contain it only touches the file name. */
  lemma RemoveAllChild(dir: Path, name: string, p: string)
    requires |p| > 0 && '/' !in p && !Contains(dir, p)
    ensures RemoveAll(Child(dir, name), p) == Child(dir, RemoveAll(name, p))
  {
    var slash := "/";
    assert Child(dir, name) == dir + (slash + name);
    assert (slash + name)[0] == '/';
    RemoveAllSplit(dir, slash + name, p);
    RemoveAllAbsent(dir, p);
    RemoveAllKeepsPrefix(slash, name, p);
  }

  /** The package directory used below, split around its ".temp". */
  const TEMP_PACKAGE_DIR: Path := "/data/com.temperature/cache"

  /** Removing ".temp" from a file path under that directory: the letters
      ".temp" of "com.temperature" go, the name loses its own. */
  lemma TempPackagePathRemoval(name: string)
    ensures RemoveAll(Child(TEMP_PACKAGE_DIR, name), TEMP_INFIX) == "/data/com" + ("erature/cache/" + RemoveAll(name, TEMP_INFIX))
  {
    var a := "/data/com";
    var b := "erature/cache/" + name;
    assert Child(TEMP_PACKAGE_DIR, name) == a + TEMP_INFIX + b;
    TempInfixBorderless();
    RemoveAllAcross(a, b, TEMP_INFIX);
    NotContainsWithoutHead(a, TEMP_INFIX);
    RemoveAllAbsent(a, TEMP_INFIX);
    RemoveAllKeepsPrefix("erature/cache/", name, TEMP_INFIX);
  }

  /** A cache directory under an application package whose name contains
      ".temp" (here "com.temperature") loses those letters from its own
      path: the rename targets a directory that is not the cache root. */
  lemma PromotedPathAsWrittenMisplaces(name: string)
    ensures PromotedPathAsWritten(TEMP_PACKAGE_DIR, name) != PromotedPath(TEMP_PACKAGE_DIR, name)
  {
    TempPackagePathRemoval(name);
    assert |PromotedPathAsWritten(TEMP_PACKAGE_DIR, name)| == |TEMP_PACKAGE_DIR| - |TEMP_INFIX| + 1 + |RemoveAll(name, TEMP_INFIX)|;
  }

  /** Under that directory the rename target's parent is
      "/data/comerature/cache", a directory nobody creates, so the rename
      of `File.renameTo` fails and the temp file stays where it is. */
  lemma PromotedPathAsWrittenParent(name: string)
    requires '/' !in name
    ensures Parent(PromotedPathAsWritten(TEMP_PACKAGE_DIR, name)) == Some("/data/comerature/cache")
  {
    TempPackagePathRemoval(name);
    var rest := RemoveAll(name, TEMP_INFIX);
    assert '/' !in rest by {
      RemoveAllSubsequence(name, TEMP_INFIX);
    }
    MisplacedParent(rest);
  }

  /** The parent of a name under "/data/com" + "erature/cache/". */
  lemma MisplacedParent(rest: string)
    requires '/' !in rest
    ensures Parent("/data/com" + ("erature/cache/" + rest)) == Some("/data/comerature/cache")
  {
    var dir: Path := "/data/comerature/cache";
    assert "/data/com" + ("erature/cache/" + rest) == Child(dir, rest);
    ParentOfChild(dir, rest);
  }
}
