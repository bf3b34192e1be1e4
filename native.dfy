/** The parts of the native bridge (lottie.cpp) that are plain logic: the
    in-place colour swizzle, the rejection limits and precache path of
    `create`, the frame gate and file-offset bookkeeping of `getFrame`,
    and `destroy`. rlottie, LZ4 and the file reads are oracles: what they
    return is passed in. */
module Natives {
  import opened Wrappers
  import opened Strings
  import opened Disks

  const MAX_FPS: int := 60
  const MAX_FRAMES: int := 600
  const CACHE_DIR_NAME: string := "acache"
  /** The size of the precache header: a "complete" byte and two 32-bit
      sizes. */
  const HEADER_SIZE: nat := 9

  // ---------------------------------------------------------------------
  // convertToCanvasFormat

  /** The byte at `i` after swapping bytes 0 and 2 of every 4-byte group
      below `n`. */
  function SwapAt(s: seq<bv8>, n: nat, i: nat): bv8
    requires n <= |s| && n % 4 == 0 && i < |s|
  {
    if i >= n then s[i]
    else if i % 4 == 0 then s[i + 2]
    else if i % 4 == 2 then s[i - 2]
    else s[i]
  }

  /** The buffer after `convertToCanvasFormat` over its first `n` bytes:
      red and blue change places, green and alpha stay. */
  function Swizzled(s: seq<bv8>, n: nat): (t: seq<bv8>)
    requires n <= |s| && n % 4 == 0
    ensures |t| == |s|
    ensures forall i :: 0 <= i < n && i % 4 == 0 ==> t[i] == s[i + 2] && t[i + 2] == s[i]
    ensures forall i :: 0 <= i < n && i % 2 == 1 ==> t[i] == s[i]
    ensures forall i :: n <= i < |s| ==> t[i] == s[i]
  {
    seq(|s|, i requires 0 <= i < |s| => SwapAt(s, n, i))
  }

  /** Swizzling twice restores the buffer. */
  lemma {:induction false} SwizzleInvolution(s: seq<bv8>, n: nat)
    requires n <= |s| && n % 4 == 0
    ensures Swizzled(Swizzled(s, n), n) == s
  {
    var t := Swizzled(s, n);
    var u := Swizzled(t, n);
    forall i | 0 <= i < |s|
      ensures u[i] == s[i]
    {
      if i < n && i % 4 == 2 {
        assert u[i - 2 + 2] == t[i - 2];
      } else if i < n && i % 4 == 0 {
        assert u[i] == t[i + 2];
      }
    }
  }

  /** `convertToCanvasFormat` on a surface of `totalBytes` =
      height * bytesPerLine bytes; a line is whole pixels. */
  method ConvertToCanvasFormat(buffer: array<bv8>, totalBytes: nat)
    requires totalBytes <= buffer.Length && totalBytes % 4 == 0
    modifies buffer
    ensures buffer[..] == Swizzled(old(buffer[..]), totalBytes)
  {
    ghost var s := buffer[..];
    var i := 0;
    while i < totalBytes
      invariant 0 <= i <= totalBytes && i % 4 == 0
      invariant forall j :: 0 <= j < i ==> buffer[j] == SwapAt(s, totalBytes, j)
      invariant forall j :: i <= j < buffer.Length ==> buffer[j] == s[j]
    {
      var r := buffer[i + 2];
      var g := buffer[i + 1];
      var b := buffer[i];
      buffer[i] := r;
      buffer[i + 1] := g;
      buffer[i + 2] := b;
      i := i + 4;
    }
    assert buffer[..] == Swizzled(s, totalBytes);
  }

  /** Converting a rendered frame twice gives back the renderer's bytes. */
  method ConvertTwice(buffer: array<bv8>, totalBytes: nat)
    requires totalBytes <= buffer.Length && totalBytes % 4 == 0
    modifies buffer
    ensures buffer[..] == old(buffer[..])
  {
    ConvertToCanvasFormat(buffer, totalBytes);
    ConvertToCanvasFormat(buffer, totalBytes);
    SwizzleInvolution(old(buffer[..]), totalBytes);
  }

  // ---------------------------------------------------------------------
  // create

  /** What `rlottie::Animation::loadFromFile` reports: the frame count and
      the frame rate truncated to an int. */
  datatype Animation = Animation(totalFrame: nat, fps: int)

  /** What opening and reading the first byte of the precache file gives:
      no file, no byte, or the byte followed by the two header sizes. */
  datatype CacheProbe = NoFile | NoByte | FirstByte(value: bv8, maxFrameSize: nat, imageSize: nat)

  /** The precache file of `path` for a `w` x `h` surface: `/acache` is
      inserted before the last '/', then `<w>_<h>` and `.s.cache` for a
      fps-limited animation or `.cache` otherwise are appended. */
  function CachePath(path: string, w: int, h: int, limitFps: bool): string {
    var k := LastIndexOf(path, '/');
    var base := if k < 0 then path else path[..k] + "/" + CACHE_DIR_NAME + path[k..];
    base + SizeSuffix(w, h, limitFps)
  }

  /** `<w>_<h>` and the extension of a precache file. */
  function SizeSuffix(w: int, h: int, limitFps: bool): (s: string)
    ensures '/' !in s
  {
    NoSlashInInt(w);
    NoSlashInInt(h);
    IntToString(w) + "_" + IntToString(h) + (if limitFps then ".s.cache" else ".cache")
  }

  lemma NoSlashInInt(n: int)
    ensures '/' !in IntToString(n)
  {
    var s := IntToString(n);
    if n < 0 {
      assert s == ['-'] + NatToDigits(-n);
      assert AllDigits(s[1..]);
    } else {
      assert AllDigits(s);
    }
  }

  /** The precache file lies in the `acache` directory that `create` makes
      next to the source file. */
  lemma CachePathInCacheDir(path: string, w: int, h: int, limitFps: bool)
    requires '/' in path
    ensures var k := LastIndexOf(path, '/');
            Parent(CachePath(path, w, h, limitFps)) == Some(Child(path[..k], CACHE_DIR_NAME))
  {
    var k := LastIndexOf(path, '/');
    SpliceParent(path, k, CACHE_DIR_NAME, SizeSuffix(w, h, limitFps));
  }

  /** Inserting `/d` before the last '/' of a path, then appending a
      suffix without '/', puts the file in `d` under the original parent. */
  lemma SpliceParent(path: string, k: nat, d: string, suffix: string)
    requires k < |path| && path[k] == '/' && '/' !in path[k + 1..] && '/' !in suffix
    ensures Parent(path[..k] + "/" + d + path[k..] + suffix) == Some(Child(path[..k], d))
  {
    var dir := Child(path[..k], d);
    var name := path[k + 1..] + suffix;
    assert path[k..] == "/" + path[k + 1..];
    assert path[..k] + "/" + d + path[k..] + suffix == Child(dir, name);
    ParentOfChild(dir, name);
  }

  /** Limited and unlimited frame rates use different precache files. */
  lemma CachePathSeparatesFpsLimit(path: string, w: int, h: int)
    ensures CachePath(path, w, h, true) != CachePath(path, w, h, false)
  {
    assert |SizeSuffix(w, h, true)| == |SizeSuffix(w, h, false)| + 2;
  }

  /** The field values that `getFrame` reads and changes, per handle. */
  class LottieInfo {
    const frameCount: nat
    const fps: int
    const precache: bool
    const limitFps: bool
    const cacheFile: string
    var createCache: bool
    var maxFrameSize: nat
    var imageSize: nat
    var framesAvailableInCache: nat
    var fileOffset: nat
    /** the size of `decompressBuffer`, None while it is null */
    var decompressBufferSize: Option<nat>
    var nextFrameIsCacheFrame: bool
    /** the frames rlottie rendered straight into a bitmap, in order */
    var rendered: seq<nat>

    /** `create` after a successful load within the limits: with precache
        on, the header of a complete cache file is read and the frames
        are then read from offset 9. */
    constructor (a: Animation, path: string, w: int, h: int, precache: bool, limitFps: bool, probe: CacheProbe)
      ensures frameCount == a.totalFrame && fps == a.fps && this.precache == precache && this.limitFps == limitFps
      ensures cacheFile == if precache then CachePath(path, w, h, limitFps) else ""
      ensures createCache <==> precache && !(probe.FirstByte? && probe.value != 0)
      ensures precache && !createCache ==>
                fileOffset == HEADER_SIZE && maxFrameSize == probe.maxFrameSize && imageSize == probe.imageSize
      ensures !(precache && !createCache) ==> fileOffset == 0 && maxFrameSize == 0 && imageSize == 0
      ensures framesAvailableInCache == 0 && decompressBufferSize.None? && !nextFrameIsCacheFrame && rendered == []
    {
      frameCount, fps, this.precache, this.limitFps := a.totalFrame, a.fps, precache, limitFps;
      cacheFile := if precache then CachePath(path, w, h, limitFps) else "";
      var complete := precache && probe.FirstByte? && probe.value != 0;
      createCache := precache && !complete;
      maxFrameSize := if complete then probe.maxFrameSize else 0;
      imageSize := if complete then probe.imageSize else 0;
      fileOffset := if complete then HEADER_SIZE else 0;
      framesAvailableInCache, decompressBufferSize, nextFrameIsCacheFrame, rendered := 0, None, false, [];
    }

    /** The int array `create` fills: frame count, frame rate, and 1 when
        a cache still has to be made. */
    function MetaData(): (d: seq<int>)
      reads this
      ensures |d| == 3 && d[0] == frameCount && d[1] == fps
      ensures d[2] == 1 <==> createCache
    {
      [frameCount, fps, if createCache then 1 else 0]
    }

    /** How many frames one cached frame stands for. */
    function FramesPerUpdate(): (n: nat)
      ensures n == 2 <==> limitFps && fps >= MAX_FPS
      ensures n == 1 || n == 2
    {
      if !limitFps || fps < MAX_FPS then 1 else 2
    }

    /** `getFrame` answers -1 ("not cached yet") while the cache is being
        built and the frame lies beyond what has been written. */
    predicate NotYetCached(frame: nat)
      reads this
    {
      createCache && precache && frame > 0 && frame / FramesPerUpdate() >= framesAvailableInCache
    }

    /** Whether `getFrame` tries the cache file for a `w` x `h` bitmap
        with the given stride. */
    predicate TriesCache(frame: nat, w: int, h: int, stride: int)
      reads this
    {
      precache && (!createCache || frame > 0) && w * 4 == stride
      && maxFrameSize <= w * h * 4 && imageSize == w * h * 4
    }

    /** The decompression buffer's size once it has been (re)allocated:
        one that is too small is dropped, a new one gets the largest frame
        size plus 10000 while the cache is still being written. */
    function BufferSizeFor(): (n: nat)
      reads this
      ensures n >= maxFrameSize
      ensures decompressBufferSize.Some? && decompressBufferSize.value >= maxFrameSize ==> n == decompressBufferSize.value
    {
      if decompressBufferSize.Some? && decompressBufferSize.value >= maxFrameSize then decompressBufferSize.value
      else maxFrameSize + (if createCache then 10000 else 0)
    }
  }

  /** `getFrame(ptr, frame, bitmap, w, h, stride)` for a frame index the
      drawable passes (never negative). `locks` says whether the bitmap's
      pixels could be locked, `opens` whether the cache file opens, and
      `frameSize` is the size the file stores at the current offset. */
  method GetFrame(info: LottieInfo?, frame: nat, bitmap: bool, w: int, h: int, stride: int,
                  locks: bool, opens: bool, frameSize: nat) returns (r: int)
    modifies info
    ensures info == null || !bitmap ==> r == 0
    ensures info != null && bitmap ==> (r == -1 <==> old(info.NotYetCached(frame)))
    ensures info != null && bitmap && r != -1 ==> r == frame
    ensures info != null && (!bitmap || r == -1 || !locks) ==>
              info.fileOffset == old(info.fileOffset) && info.decompressBufferSize == old(info.decompressBufferSize)
              && info.nextFrameIsCacheFrame == old(info.nextFrameIsCacheFrame) && info.rendered == old(info.rendered)
    ensures info != null ==>
              info.createCache == old(info.createCache) && info.maxFrameSize == old(info.maxFrameSize)
              && info.imageSize == old(info.imageSize) && info.framesAvailableInCache == old(info.framesAvailableInCache)
    ensures info != null && bitmap && r != -1 && locks ==>
              var tried := old(info.TriesCache(frame, w, h, stride)) && opens;
              var size := old(info.BufferSizeFor());
              var loaded := tried && 0 < frameSize <= size;
              && info.decompressBufferSize == (if tried then Some(size) else old(info.decompressBufferSize))
              && info.fileOffset == (if tried && frame + info.FramesPerUpdate() >= info.frameCount then HEADER_SIZE
                                     else if loaded then old(info.fileOffset) + 4 + frameSize
                                     else old(info.fileOffset))
              && var renders := !loaded && (!old(info.nextFrameIsCacheFrame) || !info.precache);
                 info.rendered == (if renders then old(info.rendered) + [frame] else old(info.rendered))
                 && info.nextFrameIsCacheFrame == (old(info.nextFrameIsCacheFrame) || renders)
  {
    if info == null || !bitmap {
      return 0;
    }
    var step := info.FramesPerUpdate();
    if info.createCache && info.precache && frame > 0 {
      if frame / step >= info.framesAvailableInCache {
        return -1;
      }
    }
    if locks {
      var loaded := ReadCachedFrame(info, frame, w, h, stride, opens, frameSize);
      if !loaded {
        if !info.nextFrameIsCacheFrame || !info.precache {
          info.rendered := info.rendered + [frame];
          info.nextFrameIsCacheFrame := true;
        }
      }
    }
    r := frame;
  }

  /** The cache-file branch of `getFrame`. */
  method ReadCachedFrame(info: LottieInfo, frame: nat, w: int, h: int, stride: int, opens: bool, frameSize: nat)
    returns (loaded: bool)
    modifies info`decompressBufferSize, info`fileOffset
    ensures var tried := old(info.TriesCache(frame, w, h, stride)) && opens;
            var size := old(info.BufferSizeFor());
            && loaded == (tried && 0 < frameSize <= size)
            && info.decompressBufferSize == (if tried then Some(size) else old(info.decompressBufferSize))
            && info.fileOffset == (if tried && frame + info.FramesPerUpdate() >= info.frameCount then HEADER_SIZE
                                   else if loaded then old(info.fileOffset) + 4 + frameSize
                                   else old(info.fileOffset))
  {
    loaded := false;
    if info.TriesCache(frame, w, h, stride) && opens {
      if info.decompressBufferSize.Some? && info.decompressBufferSize.value < info.maxFrameSize {
        info.decompressBufferSize := None;
      }
      if info.decompressBufferSize.None? {
        info.decompressBufferSize := Some(info.maxFrameSize + if info.createCache then 10000 else 0);
      }
      if 0 < frameSize <= info.decompressBufferSize.value {
        info.fileOffset := info.fileOffset + 4 + frameSize;
        loaded := true;
      }
      if frame + info.FramesPerUpdate() >= info.frameCount {
        info.fileOffset := HEADER_SIZE;
      }
    }
  }

  /** The handles `create` has returned and `destroy` has not deleted. */
  class NativeHeap {
    var live: set<LottieInfo>

    constructor ()
      ensures live == {}
    {
      live := {};
    }

    /** `create`: 0 (null) when loading fails or the animation has more
        than 60 frames per second or more than 600 frames. */
    method Create(anim: Option<Animation>, path: string, w: int, h: int, precache: bool, limitFps: bool, probe: CacheProbe)
      returns (info: LottieInfo?)
      modifies this
      ensures info == null <==> anim.None? || anim.value.fps > MAX_FPS || anim.value.totalFrame > MAX_FRAMES
      ensures info == null ==> live == old(live)
      ensures info != null ==> fresh(info) && live == old(live) + {info}
                               && info.frameCount == anim.value.totalFrame && info.fps == anim.value.fps
                               && info.cacheFile == (if precache then CachePath(path, w, h, limitFps) else "")
    {
      if anim.None? || anim.value.fps > MAX_FPS || anim.value.totalFrame > MAX_FRAMES {
        return null;
      }
      info := new LottieInfo(anim.value, path, w, h, precache, limitFps, probe);
      live := live + {info};
    }

    /** `destroy`: null is ignored; any other handle must still be live
        (deleting it twice is undefined) and is deleted. */
    method Destroy(ptr: LottieInfo?)
      requires ptr == null || ptr in live
      modifies this
      ensures live == if ptr == null then old(live) else old(live) - {ptr}
    {
      if ptr == null {
        return;
      }
      live := live - {ptr};
    }
  }
}
