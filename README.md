# AXrLottie core, modelled in Dafny

AXrLottie plays Lottie animations on Android. A Java front end drives a native renderer. This project models the parts of the library that decide things, and proves what those decisions guarantee:

- **Frame scheduler (`DrawableModel`, `Drawables`, `FrameStep`).** `AXrLottieDrawable` keeps at most one decode in flight. It steps the current frame by repeat mode, rotates its three bitmap slots and defers destroying the native handle while a decode is pending.
  - `DrawableModel` is the pure step model, one function per runnable and per public operation, together with the invariant they keep.
  - `Drawables.LottieDrawable` is the class whose methods move its fields exactly as those functions say.
  - The native `getFrame` is an oracle parameter that returns a frame index or -1.
- **Worker queue pool (`QueuePools`).** `DispatchQueuePool` chooses a queue for each submission and takes completions and the idle cleanup. The submission count equals the sum of the busy counts, no more queues are created than the cap allows, and the cleanup removes only stale idle queues.
- **Tasks and deduplication (`Tasks`, `TaskFactories`, `TaskCaches`, `NetworkCaches`).**
  - `AXrLottieTask` is set exactly once and replays its result to late listeners.
  - `AXrLottieTaskFactory` keeps one in-flight task per key and puts successful downloads into a bounded LRU cache (`AXrLottieTaskCache`).
  - The older `NetworkCache` dedups loading URLs.
- **Cache files (`CacheNames`, `CacheManagers`, `AXrNetworkCaches`, `Disks`).** Cache names are sanitised, temp files are named and then promoted, and the cache roots are repaired and cleared. The filesystem is a class holding a map from path to bytes and a set of directories.
- **File-type handlers (`Extensions`, `Archives`, `Handlers`).** The `extension/` classes and `ZipCompositionFactory` give content-type and suffix matching, zip-entry selection and the place each handler unpacks to. Gzip and zip decompression are given as inputs.
- **Value objects (`NativeRecords`, `LottieResults`, `Options`, `Builders`, `Lottie2Gifs`, `Registries`).**
  - Markers and layer info are parsed from native string arrays, with the same partial-parse behaviour as the source.
  - `AXrLottieResult` equality is modelled.
  - `AXrLottieOptions` and the drawable `Builder` are modelled.
  - The `AXrLottie2Gif` lifecycle is modelled.
  - The `AXrLottie` registry covers handlers, flags, cache directories and lazy singletons.
- **Native pure logic (`Natives`).** From `lottie.cpp`: the in-place byte swizzle, the `create` limits, the precache path, and the `getFrame` cache gate with its `fileOffset` arithmetic.
- **Support (`Strings`, `Wrappers`).** Java string operations (`replace`, `contains`, `substring` from the last `.`, ASCII lower-casing, `\W+` removal), plus `Option` and `Result`.

All threads are modelled as explicit, interleavable steps. A runnable posted to a handler becomes a queued message, and the step that runs it is a method.

Where the code does something its authors evidently did not intend (see "## Findings"), the classes run the code as written. The corrected definition sits beside it, with the intended property proved about it.

## Model

| member | source | states |
|---|---|---|
| Extensions.MakeExtension | AXrLottie/src/main/java/com/aghajari/rlottie/extension/AXrFileExtension.java:38-43 | a null or empty extension is refused with IllegalArgumentException("extension can not be null!") and every other one is kept unchanged, with the handler's class |
| Extensions.DefaultGZip | AXrLottie/src/main/java/com/aghajari/rlottie/extension/GZipFileExtension.java:39-41 | the no-argument gzip handler has extension ".gz" and is exactly what the checking constructor accepts for ".gz" |
| Extensions.TempExtension | AXrLottie/src/main/java/com/aghajari/rlottie/extension/AXrFileExtension.java:45-47 | the temp extension is ".temp" followed by the handler's extension |
| Extensions.TempExtensionPromotes | AXrLottie/src/main/java/com/aghajari/rlottie/extension/AXrFileExtension.java:45-47 | removing every ".temp" from a temp extension gives back the extension, provided the extension has no ".temp" of its own |
| Extensions.JsonExtensionHasNoTemp | AXrLottie/src/main/java/com/aghajari/rlottie/extension/ZipFileExtension.java:58 | the JSON extension that unpacking targets contains no ".temp", so its temp name can be promoted |
| Extensions.CanParseFile | AXrLottie/src/main/java/com/aghajari/rlottie/extension/AXrFileExtension.java:73-75 | the answer is undefined (the substring call throws) exactly when the name has no '.' |
| Extensions.CanParseOwnName | AXrLottie/src/main/java/com/aghajari/rlottie/extension/AXrFileExtension.java:69-75 | any name that ends in the handler's extension, in any letter case, is accepted by that handler when the extension has a single leading dot |
| Extensions.IsZipContentTwoTests | AXrLottie/src/main/java/com/aghajari/rlottie/extension/ZipCompositionFactory.java:39-43 | the zip content test holds exactly when the lower-cased type contains "application/zip" or "application/x-zip"; the third test adds nothing |
| Extensions.ContentTestsIgnoreCase | AXrLottie/src/main/java/com/aghajari/rlottie/extension/ZipCompositionFactory.java:39-43 | the zip and gzip content tests give the same answer for a content type and its lower-cased form |
| Extensions.CanParseContent | AXrLottie/src/main/java/com/aghajari/rlottie/extension/AXrFileExtension.java:65-67 | only the zip and gzip handlers claim a content type: zip exactly when the zip test holds, gzip exactly when "application/octet-stream", "binary/octet-stream" or "application/x-gzip" occurs in lower case |
| Extensions.WillReadStream | AXrLottie/src/main/java/com/aghajari/rlottie/extension/GZipFileExtension.java:69-72 | a file is reopened as a stream exactly by the gzip handler |
| Extensions.EqualsIsEquivalence | AXrLottie/src/main/java/com/aghajari/rlottie/extension/AXrFileExtension.java:82-90 | handler equality (same class, equal extension) is reflexive, symmetric and transitive and coincides with equality of the handler values |
| Archives.FirstUsable | AXrLottie/src/main/java/com/aghajari/rlottie/extension/ZipCompositionFactory.java:91-111 | the chosen entry is usable (not under "__MACOSX", ".json" in lower case, a plain entry whose data reads) and no earlier entry is; none is chosen exactly when no entry is usable |
| Archives.MacosxNeverSelected | AXrLottie/src/main/java/com/aghajari/rlottie/extension/ZipCompositionFactory.java:93-94 | an entry whose name contains "__MACOSX" is never extracted, even when it names a JSON file |
| Archives.ExtractEntry | AXrLottie/src/main/java/com/aghajari/rlottie/extension/ZipCompositionFactory.java:58-85 | an entry is written exactly when the output's directory can be made, the entry is not a directory and its data reads; a failed mkdirs changes nothing, a directory entry only adds that directory; otherwise the new disk is exactly the old output deleted and re-created with the entry's data, all of it on success and as far as it was copied on a read error (a partial file that stays, with the archive file kept); on success the archive file is deleted; no other file changes and directories change only at the output, its parent and the archive file |
| Archives.MakeEntryDir | AXrLottie/src/main/java/com/aghajari/rlottie/extension/ZipCompositionFactory.java:62-63 | the entry directory is made exactly when it is not a plain file; the directories become exactly the old ones plus it |
| Archives.WriteEntry | AXrLottie/src/main/java/com/aghajari/rlottie/extension/ZipCompositionFactory.java:65-84 | the entry is written exactly when the old output is not a non-empty directory and the data reads; the new files and directories are exactly the old output deleted, then the new contents, which on a read error stay as a partial file with the archive file kept, and on success the archive file deleted |
| Archives.FromZipStream | AXrLottie/src/main/java/com/aghajari/rlottie/extension/ZipCompositionFactory.java:88-118 | the result is the output exactly when the output is writable and some entry is usable; the output then holds the first usable entry's data, the archive file is gone, and the stream is closed on every path; no file other than the output and the archive file changes (only the output on a null result); directories change only at the output, its parent and the archive file; with no selected entry the disk is unchanged |
| Archives.GZipToFile | AXrLottie/src/main/java/com/aghajari/rlottie/extension/GZipFileExtension.java:55-67 | the output path is returned whatever happens; the output holds the inflated data exactly when the header reads and the file can be opened; the stream is closed exactly when the header read |
| Strings.StripNonWord | AXrLottie/src/main/java/com/aghajari/rlottie/AXrLottieCacheManager.java:180 | `replaceAll("\\W+", "")` leaves only word characters ([a-zA-Z_0-9]) and never lengthens the key |
| Strings.StripNonWordKeepsWords | AXrLottie/src/main/java/com/aghajari/rlottie/AXrLottieCacheManager.java:180 | a key made only of word characters is left unchanged |
| Strings.StripNonWordIdempotent | AXrLottie/src/main/java/com/aghajari/rlottie/AXrLottieCacheManager.java:180 | sanitising a sanitised key changes nothing |
| Strings.StripNonWordHasNoDot | AXrLottie/src/main/java/com/aghajari/rlottie/AXrLottieCacheManager.java:180 | a sanitised key holds no '.' and no '/' |
| Strings.StripNonWordAppend | AXrLottie/src/main/java/com/aghajari/rlottie/AXrLottieCacheManager.java:180 | sanitising distributes over concatenation, so each non-word character is removed wherever it stands |
| Strings.LowerChar | AXrLottie/src/main/java/com/aghajari/rlottie/AXrLottie.java:83 | upper-case ASCII letters move down by 32 and every other character is kept |
| Strings.ToLower | AXrLottie/src/main/java/com/aghajari/rlottie/AXrLottie.java:83 | the lower-cased string has the same length and lower-cases each position |
| Strings.ToLowerIdempotent | AXrLottie/src/main/java/com/aghajari/rlottie/extension/ZipCompositionFactory.java:40 | lower-casing twice is lower-casing once |
| Strings.LastIndexOf | AXrLottie/src/main/java/com/aghajari/rlottie/extension/AXrFileExtension.java:74 | -1 exactly when the character is absent; otherwise an index holding the character with none after it |
| Strings.SuffixFromLastDot | AXrLottie/src/main/java/com/aghajari/rlottie/extension/AXrFileExtension.java:74 | undefined exactly when there is no '.'; otherwise a suffix of the string that starts with '.' and holds no other '.' |
| Strings.SuffixOfDottedExtension | AXrLottie/src/main/java/com/aghajari/rlottie/network/NetworkCache.java:93-95 | the suffix from the last '.' of `prefix + ext` is `ext` when `ext` has a single leading dot |
| Strings.RemoveAllAbsent | AXrLottie/src/main/java/com/aghajari/rlottie/AXrLottieCacheManager.java:139 | `replace(p, "")` leaves a string without `p` unchanged |
| Strings.RemoveAllSplit | AXrLottie/src/main/java/com/aghajari/rlottie/AXrLottieCacheManager.java:139 | removal distributes over `a + b` when `b` starts with a character that `p` lacks |
| Strings.RemoveAllKeepsPrefix | AXrLottie/src/main/java/com/aghajari/rlottie/AXrLottieCacheManager.java:139 | a prefix that lacks the first character of `p` is copied through unchanged |
| Strings.Wrap32 | AXrLottie/src/main/java/com/aghajari/rlottie/AXrLottieMarker.java:86-87 | Java int wrap-around: the result is an int, congruent to the input modulo 2^32, and equal to it when it already fits |
| Strings.StringHash | AXrLottie/src/main/java/com/aghajari/rlottie/AXrLottieMarker.java:85 | `String.hashCode` stays inside the int range |
| Strings.ParseInt | AXrLottie/src/main/java/com/aghajari/rlottie/AXrLottieMarker.java:36-37 | `Integer.parseInt` yields an int or fails, and always fails on the empty string |
| Strings.ParseIntOfIntToString | AXrLottie/src/main/java/com/aghajari/rlottie/AXrLottieMarker.java:36-37 | parsing the decimal text of any int gives that int back |
| Strings.ParseIntRejectsNonDigit | AXrLottie/src/main/java/com/aghajari/rlottie/AXrLottieMarker.java:36-37 | text with a non-digit after the first position is refused |
| NativeRecords.ParseFields | AXrLottie/src/main/java/com/aghajari/rlottie/AXrLottieMarker.java:32-41 | a null or empty array keeps the defaults; otherwise the name comes from the first cell, and each frame is assigned only if it and every earlier cell parsed, the rest keeping their defaults |
| NativeRecords.ParseCell | AXrLottie/src/main/java/com/aghajari/rlottie/AXrLottieMarker.java:36 | a cell that parses gives an int |
| NativeRecords.ParseRendered | AXrLottie/src/main/java/com/aghajari/rlottie/AXrLottieMarker.java:35-37 | parsing the rendered triple gives back name, in-frame and out-frame, whatever cells follow |
| NativeRecords.ParseStopsAtBadInFrame | AXrLottie/src/main/java/com/aghajari/rlottie/AXrLottieMarker.java:39-40 | a bad in-frame abandons the parse once the name is set, leaving both frames at their defaults |
| NativeRecords.MarkerFromNative | AXrLottie/src/main/java/com/aghajari/rlottie/AXrLottieMarker.java:28-34 | a null array gives the defaults "", -1, -1 |
| NativeRecords.MarkerHash | AXrLottie/src/main/java/com/aghajari/rlottie/AXrLottieMarker.java:83-89 | the hash is an int, and fails (NullPointerException) exactly when the name is null |
| NativeRecords.MarkerEqualsIsFieldEquality | AXrLottie/src/main/java/com/aghajari/rlottie/AXrLottieMarker.java:70-81 | two markers are equal exactly when all three fields are equal, the names compared null-safely; no marker equals null |
| NativeRecords.MarkerHashAgrees | AXrLottie/src/main/java/com/aghajari/rlottie/AXrLottieMarker.java:83-89 | equal markers with a name have equal hash codes |
| NativeRecords.MarkerRoundTrip | AXrLottie/src/main/java/com/aghajari/rlottie/AXrLottieMarker.java:32-47 | a marker rendered by the native side parses back to the marker the public constructor builds from the same values |
| NativeRecords.LayerInfoFromNative | AXrLottie/src/main/java/com/aghajari/rlottie/AXrLottieLayerInfo.java:23-29 | a null array gives the defaults null, 0, 0 |
| NativeRecords.LayerInfoHash | AXrLottie/src/main/java/com/aghajari/rlottie/AXrLottieLayerInfo.java:73-79 | the hash is an int, and a null name contributes 0 |
| NativeRecords.LayerInfoEqualsAgreesWithHash | AXrLottie/src/main/java/com/aghajari/rlottie/AXrLottieLayerInfo.java:60-79 | layer infos are equal exactly when their fields are, equal ones hash alike (null names included), and none equals null |
| NativeRecords.LayerInfoIgnoresFourthCell | AXrLottie/src/main/java/com/aghajari/rlottie/AXrLottieLayerInfo.java:30-32 | the fourth cell the native side writes per layer has no effect on the parsed layer info |
| LottieResults.FromValue | AXrLottie/src/main/java/com/aghajari/rlottie/decoder/AXrLottieResult.java:39-42 | the value constructor stores the value and leaves the exception null |
| LottieResults.FromException | AXrLottie/src/main/java/com/aghajari/rlottie/decoder/AXrLottieResult.java:44-47 | the exception constructor stores the exception and leaves the value null |
| LottieResults.AnyTwoFailuresEqualAsWritten | AXrLottie/src/main/java/com/aghajari/rlottie/decoder/AXrLottieResult.java:71-73 | as written, any two failure results are equal, whatever their exceptions |
| LottieResults.DifferentFailuresCompareEqualAsWritten | AXrLottie/src/main/java/com/aghajari/rlottie/decoder/AXrLottieResult.java:71-73 | as written, an IOException result equals a NumberFormatException result |
| LottieResults.EqualsMeaning | AXrLottie/src/main/java/com/aghajari/rlottie/decoder/AXrLottieResult.java:60-75 | corrected equality is reflexive and false for null; equal non-null values make results equal; two failures are equal exactly when their exception texts agree; otherwise results are unequal |
| LottieResults.EqualsSymmetricOnConstructed | AXrLottie/src/main/java/com/aghajari/rlottie/decoder/AXrLottieResult.java:30-47 | for results built by the two constructors (never both fields set), corrected equality is symmetric |
| LottieResults.EmptyResultEqualsOnlyItself | AXrLottie/src/main/java/com/aghajari/rlottie/decoder/AXrLottieResult.java:60-75 | a result with neither value nor exception equals only the very same object, not a field-for-field copy |
| Disks.Child | AXrLottie/src/main/java/com/aghajari/rlottie/AXrLottieCacheManager.java:150 | `new File(dir, name)` is the directory, a '/', then the name |
| Disks.Parent | AXrLottie/src/main/java/com/aghajari/rlottie/extension/ZipCompositionFactory.java:62 | a parent is a strictly shorter prefix of the path |
| Disks.ParentOfChild | AXrLottie/src/main/java/com/aghajari/rlottie/AXrLottieCacheManager.java:150 | a child whose name has no '/' lies directly in its directory |
| Disks.ChildInjective | AXrLottie/src/main/java/com/aghajari/rlottie/AXrLottieCacheManager.java:150 | different names in one directory give different files |
| Disks.FirstPresent | AXrLottie/src/main/java/com/aghajari/rlottie/network/NetworkCache.java:146-154 | the index found is of an existing path with none existing before it; nothing is found exactly when no path exists |
| Disks.Disk.Delete | AXrLottie/src/main/java/com/aghajari/rlottie/AXrLottieCacheManager.java:42 | `File.delete` succeeds exactly for a plain file or an empty directory and removes only that path |
| Disks.Disk.Mkdirs | AXrLottie/src/main/java/com/aghajari/rlottie/AXrLottieCacheManager.java:163 | a missing directory is created; an existing path makes it fail and change nothing |
| Disks.Disk.RenameTo | AXrLottie/src/main/java/com/aghajari/rlottie/AXrLottieCacheManager.java:141 | a plain file moves to the target (replacing a file there) exactly when the target is not a directory and its parent directory exists; otherwise nothing changes |
| Disks.Disk.Create | AXrLottie/src/main/java/com/aghajari/rlottie/extension/ZipCompositionFactory.java:70 | `new FileOutputStream` truncates or creates the file exactly when the path is not a directory and its parent directory exists |
| Disks.Disk.CopyStream | AXrLottie/src/main/java/com/aghajari/rlottie/AXrLottieCacheManager.java:111-113 | the copy loop appends every chunk in order and reports whether the stream ended without an IOException |
| Disks.Disk.CreateAndCopy | AXrLottie/src/main/java/com/aghajari/rlottie/AXrLottieCacheManager.java:105-113 | once the output opens, the file holds exactly the stream's data; the copy succeeds exactly when it opened and the stream did not fail |
| Disks.Disk.Write | AXrLottie/src/main/java/com/aghajari/rlottie/AXrLottieCacheManager.java:82 | writing appends the text to the open file |
| Disks.Disk.Close | AXrLottie/src/main/java/com/aghajari/rlottie/AXrLottieCacheManager.java:126 | closing a stream records it and changes no file |
| Disks.Disk.EnsureDir | AXrLottie/src/main/java/com/aghajari/rlottie/AXrLottieCacheManager.java:157-166 | a plain file in the way is deleted and the directory exists afterwards; no other path changes |
| Disks.Disk.DeleteChildren | AXrLottie/src/main/java/com/aghajari/rlottie/AXrLottieCacheManager.java:39-44 | exactly the files lying directly in the directory are deleted, every other file keeps its content, a subdirectory of it goes exactly when nothing lay in it, and every other directory stays |
| Disks.Disk.ClearDir | AXrLottie/src/main/java/com/aghajari/rlottie/AXrLottieCacheManager.java:37-47 | a missing path changes nothing and a plain file is deleted alone; for a directory, exactly its direct files go, each subdirectory goes exactly when nothing lay in it, and the directory itself goes exactly when all of them do; the new disk is `ClearedFiles`/`ClearedDirs` of the old |
| Disks.Disk.ClearExistingDir | AXrLottie/src/main/java/com/aghajari/rlottie/AXrLottieCacheManager.java:39-45 | the directory case of `clear`: its direct children are deleted, then the directory; the new files and directories are exactly `ClearedFiles` and `ClearedDirs` of the old, entry by entry |
| Disks.ClearedDirsMeaning | AXrLottie/src/main/java/com/aghajari/rlottie/AXrLottieCacheManager.java:37-47 | after the clear loop only the directory and its subdirectories can be gone, a subdirectory is gone exactly when nothing lay in it, and the directory exactly when all of its subdirectories are |
| Disks.ChildrenClearedState | AXrLottie/src/main/java/com/aghajari/rlottie/AXrLottieCacheManager.java:39-44 | the entry-by-entry effect of deleting a directory's entries is exactly the cleared file map and directory set |
| Disks.EntriesKept | AXrLottie/src/main/java/com/aghajari/rlottie/AXrLottieCacheManager.java:39-44 | deleting entries of a directory does not change whether something lies in one of its subdirectories |
| Disks.ChildDeleted | AXrLottie/src/main/java/com/aghajari/rlottie/AXrLottieCacheManager.java:40-42 | one more `delete()` in the loop removes a file, or a subdirectory exactly when it is empty, keeping the loop's description |
| Disks.PrefixesComparable | AXrLottie/src/main/java/com/aghajari/rlottie/AXrLottieCacheManager.java:32-35 | two prefixes of one path are prefixes of each other (used to keep two unrelated cache roots apart) |
| Disks.ParentPrefix | AXrLottie/src/main/java/com/aghajari/rlottie/AXrLottieCacheManager.java:39-44 | an entry inside a subdirectory of a directory has the directory's path as a strict prefix |
| CacheNames.CacheNameHead | AXrLottie/src/main/java/com/aghajari/rlottie/AXrLottieCacheManager.java:179-181 | before the extension, a cache name is "lottie_cache_" (network scope only) followed by the key with its non-word characters removed, so it holds neither '.' nor '/' |
| CacheNames.CacheFileInRoot | AXrLottie/src/main/java/com/aghajari/rlottie/AXrLottieCacheManager.java:149-151 | a cache file lies directly in its root and is not the root itself, unless the extension contains a '/' |
| CacheNames.CacheNameCollision | AXrLottie/src/main/java/com/aghajari/rlottie/AXrLottieCacheManager.java:179-181 | two keys share a cache file exactly when they agree once non-word characters are removed |
| CacheNames.CacheNameSuffix | AXrLottie/src/main/java/com/aghajari/rlottie/AXrLottieCacheManager.java:179-181 | the suffix from the last '.' of a final cache name is its extension, whenever the extension has a single leading dot |
| CacheNames.RemoveAllAcross | AXrLottie/src/main/java/com/aghajari/rlottie/AXrLottieCacheManager.java:139 | for a pattern with no border (such as ".temp"), removal across an occurrence of the pattern splits into the removals on either side |
| CacheNames.PromoteCacheName | AXrLottie/src/main/java/com/aghajari/rlottie/AXrLottieCacheManager.java:135-142 | removing ".temp" from a temp cache name gives the final cache name of the same key, scope and extension |
| CacheNames.PromotedPathAsWritten | AXrLottie/src/main/java/com/aghajari/rlottie/AXrLottieCacheManager.java:139 | as written, the ".temp" removal applies to the whole absolute path and never lengthens it |
| CacheNames.PromotedPath | AXrLottie/src/main/java/com/aghajari/rlottie/AXrLottieCacheManager.java:131-143 | corrected: the rename target stays in the temp file's directory, with ".temp" removed from the file name only |
| CacheNames.PromotedCacheFile | AXrLottie/src/main/java/com/aghajari/rlottie/AXrLottieCacheManager.java:131-143 | corrected promotion of a temp cache file yields the final cache file of the same key in the same root |
| CacheNames.PromotedPathAgrees | AXrLottie/src/main/java/com/aghajari/rlottie/AXrLottieCacheManager.java:139 | when the directory path has no ".temp", the as-written whole-path removal gives the corrected target |
| CacheNames.RemoveAllChild | AXrLottie/src/main/java/com/aghajari/rlottie/AXrLottieCacheManager.java:139 | removing a '/'-free pattern absent from the directory path touches only the file name |
| CacheNames.PromotedPathAsWrittenMisplaces | AXrLottie/src/main/java/com/aghajari/rlottie/AXrLottieCacheManager.java:139 | under a directory such as "/data/com.temperature/cache", the as-written target differs from the corrected one: it drops the letters ".temp" from the directory |
| CacheNames.PromotedPathAsWrittenParent | AXrLottie/src/main/java/com/aghajari/rlottie/AXrLottieCacheManager.java:139-141 | under "/data/com.temperature/cache" the as-written rename target lies in "/data/comerature/cache", a directory nothing creates, so the rename fails |
| CacheNames.MisplacedParent | AXrLottie/src/main/java/com/aghajari/rlottie/AXrLottieCacheManager.java:140 | a name without '/' after "/data/comerature/cache/" has that directory as its parent |
| NetworkCaches.LoadsExceptAppend | AXrLottie/src/main/java/com/aghajari/rlottie/network/NetworkCache.java:68-72 | the loads for a list split into the loads for its two halves, in order |
| NetworkCaches.LoadsExceptMembers | AXrLottie/src/main/java/com/aghajari/rlottie/network/NetworkCache.java:68-72 | a finish loads exactly the registered fetchers other than the finishing one, each with the finished file |
| NetworkCaches.LoadsExceptLength | AXrLottie/src/main/java/com/aghajari/rlottie/network/NetworkCache.java:68-72 | no fetcher loads more than once per registration, and with the finishing fetcher absent every registered one loads |
| NetworkCaches.LoadingRegistry.constructor | AXrLottie/src/main/java/com/aghajari/rlottie/network/NetworkCache.java:44 | the map starts null, with nothing posted and nothing loaded |
| NetworkCaches.LoadingRegistry.CheckLoading | AXrLottie/src/main/java/com/aghajari/rlottie/network/NetworkCache.java:46-59 | the answer is true exactly when the URL was already registered; the fetcher is appended to its list, and a first fetcher starts the list `[fetcher]` |
| NetworkCaches.LoadingRegistry.FinishLoading | AXrLottie/src/main/java/com/aghajari/rlottie/network/NetworkCache.java:61-64 | a runnable is posted exactly when the URL is registered; nothing else changes |
| NetworkCaches.LoadingRegistry.RunPosted | AXrLottie/src/main/java/com/aghajari/rlottie/network/NetworkCache.java:66-74 | the oldest runnable loads every other registered fetcher in list order and unregisters the URL; if an earlier runnable already unregistered it, the call fails with NullPointerException and changes nothing |
| NetworkCaches.FilenameIgnoresUrl | AXrLottie/src/main/java/com/aghajari/rlottie/network/NetworkCache.java:160-162 | the URL plays no part in the file name: two URLs with one cache name share their files |
| NetworkCaches.FilenamePromotes | AXrLottie/src/main/java/com/aghajari/rlottie/network/NetworkCache.java:132-139 | removing ".temp" from the temp name gives the final name when neither cache name nor extension contains ".temp" |
| NetworkCaches.CachedPaths | AXrLottie/src/main/java/com/aghajari/rlottie/network/NetworkCache.java:147-148 | one final cache path per extension, in array order |
| NetworkCaches.PairWithSuffix | AXrLottie/src/main/java/com/aghajari/rlottie/network/NetworkCache.java:93-96 | the pairing succeeds exactly when the path has a '.', and then keeps the file and an extension that the path ends with |
| NetworkCaches.PairWithSuffixOfCachedPath | AXrLottie/src/main/java/com/aghajari/rlottie/network/NetworkCache.java:87-97 | a cache file built from an extension with a single leading dot is paired back with that extension |
| NetworkCaches.NetworkCache.GetCachedFile | AXrLottie/src/main/java/com/aghajari/rlottie/network/NetworkCache.java:146-154 | the result is the first final cache file, in array order, that exists, and null when none does |
| NetworkCaches.NetworkCache.Fetch | AXrLottie/src/main/java/com/aghajari/rlottie/network/NetworkCache.java:87-97 | null when nothing is cached; otherwise the found file paired with its suffix, which for extensions with one leading dot is exactly the extension it was found under |
| NetworkCaches.NetworkCache.WriteTempCacheFile | AXrLottie/src/main/java/com/aghajari/rlottie/network/NetworkCache.java:104-126 | the temp file holds the stream's data whenever it opens, a partial file stays on a read error, the stream is always closed, and the path is returned exactly on success |
| NetworkCaches.NetworkCache.RenameTempFile | AXrLottie/src/main/java/com/aghajari/rlottie/network/NetworkCache.java:132-139 | the temp file is renamed to its absolute path with every ".temp" removed, directories included, and the rename happens exactly when the temp file exists and that target's parent directory exists; the target is the final cache file when neither the directory nor the names contain ".temp", and it is returned whether or not the rename worked |
| AXrNetworkCaches.FilenameIsNetworkCacheName | AXrLottie/src/main/java/com/aghajari/rlottie/network/AXrNetworkCache.java:158-160 | the network cache's file name is exactly the cache manager's network-scoped name, so both classes address the same files |
| CacheNames.NetworkCacheFiles | AXrLottie/src/main/java/com/aghajari/rlottie/network/AXrNetworkCache.java:72-73 | one final network cache path of the URL per extension, in the given order; the same list the cache manager deletes in fetchURLFromCache (see also AXrLottieCacheManager.java:63-64) |
| AXrNetworkCaches.Classify | AXrLottie/src/main/java/com/aghajari/rlottie/network/AXrNetworkCache.java:83-88 | a path with a '.' classifies as ZIP exactly when its suffix from the last '.' ends in ".zip", and as JSON otherwise; a path without '.' throws |
| AXrNetworkCaches.ClassifyCacheFile | AXrLottie/src/main/java/com/aghajari/rlottie/network/AXrNetworkCache.java:83-88 | a cache file classifies by its own extension when that has a single leading dot |
| AXrNetworkCaches.ClassifySupported | AXrLottie/src/main/java/com/aghajari/rlottie/network/AXrNetworkCache.java:83-88 | the zip cache file classifies as ZIP and the JSON cache file as JSON |
| AXrNetworkCaches.SupportedFetch | AXrLottie/src/main/java/com/aghajari/rlottie/network/AXrNetworkCache.java:27 | the lookup over [ZIP, JSON] finds nothing exactly when neither file exists; otherwise it finds the zip file if present, else the JSON file, and neither classification throws |
| AXrNetworkCaches.AXrNetworkCache.ParentCacheDir | AXrLottie/src/main/java/com/aghajari/rlottie/network/AXrNetworkCache.java:147-156 | a plain file in the way is replaced by a directory; no other path changes |
| AXrNetworkCaches.AXrNetworkCache.GetCachedFile | AXrLottie/src/main/java/com/aghajari/rlottie/network/AXrNetworkCache.java:143-145 | the result is the network cache file of the URL in the provider's directory, which is ensured to exist |
| AXrNetworkCaches.AXrNetworkCache.Fetch | AXrLottie/src/main/java/com/aghajari/rlottie/network/AXrNetworkCache.java:70-91 | null when no final file exists for any extension; otherwise the first existing one, in the given order, with the handler its suffix classifies as |
| AXrNetworkCaches.AXrNetworkCache.Probe | AXrLottie/src/main/java/com/aghajari/rlottie/network/AXrNetworkCache.java:72-78 | the loop stops at exactly the first listed file that existed |
| AXrNetworkCaches.AXrNetworkCache.FetchFromCache | AXrLottie/src/main/java/com/aghajari/rlottie/network/AXrNetworkCache.java:51-59 | the zip file if it exists, else the JSON file if it exists, else null |
| AXrNetworkCaches.AXrNetworkCache.WriteTempCacheFile | AXrLottie/src/main/java/com/aghajari/rlottie/network/AXrNetworkCache.java:98-124 | errors are swallowed and a partial file is kept; the temp file holds the stream's data whenever it can be opened; the stream is always closed; the temp path is always returned |
| AXrNetworkCaches.AXrNetworkCache.RenameTempFile | AXrLottie/src/main/java/com/aghajari/rlottie/network/AXrNetworkCache.java:130-137 | the temp file is renamed to its absolute path with every ".temp" removed, directories included, and the rename happens exactly when the temp file exists and that target's parent directory exists; the target is the final cache file when neither the cache directory nor the extension contains ".temp", and it is returned whether or not the rename worked |
| AXrNetworkCaches.AXrNetworkCache.Clear | AXrLottie/src/main/java/com/aghajari/rlottie/network/AXrNetworkCache.java:33-44 | afterwards exactly the files outside the directory remain, unchanged; a subdirectory stays exactly when something lay in it, the directory stays exactly when one of them does, and nothing else changes |
| CacheManagers.LocalCacheFileInRoot | AXrLottie/src/main/java/com/aghajari/rlottie/AXrLottieCacheManager.java:74 | the local copy `<name>.json.cache` lies directly in the local root and is not the root |
| CacheManagers.PromotedJsonFile | AXrLottie/src/main/java/com/aghajari/rlottie/AXrLottieCacheManager.java:135-142 | neither the temp JSON file nor the final one is the root, and promoting the temp name gives the final JSON cache file |
| CacheManagers.CacheManager.constructor | AXrLottie/src/main/java/com/aghajari/rlottie/AXrLottieCacheManager.java:27-30 | the two roots are stored as given |
| CacheManagers.CacheManager.NetworkCacheParent | AXrLottie/src/main/java/com/aghajari/rlottie/AXrLottieCacheManager.java:157-166 | afterwards the network root is a directory: a plain file there is deleted, and nothing else changes |
| CacheManagers.CacheManager.LocalCacheParent | AXrLottie/src/main/java/com/aghajari/rlottie/AXrLottieCacheManager.java:168-177 | afterwards the local root is a directory: a plain file there is deleted, and nothing else changes |
| CacheManagers.CacheManager.CacheParent | AXrLottie/src/main/java/com/aghajari/rlottie/AXrLottieCacheManager.java:153-155 | network-scoped entries get the network root and the others the local root, ensured as a directory |
| CacheManagers.CacheManager.GetCachedFile | AXrLottie/src/main/java/com/aghajari/rlottie/AXrLottieCacheManager.java:149-151 | the cache file of the key, scope and extension under the root of its scope |
| CacheManagers.CacheManager.WriteTempCacheFile | AXrLottie/src/main/java/com/aghajari/rlottie/AXrLottieCacheManager.java:97-99 | exactly `writeCacheFile` on the temp name, for every extension: the file is written exactly when the stream reads, the path is no directory and its parent is a directory once the root is ensured; for a '/'-free extension that parent is the root, and the directories become the old ones with the temp path deleted as `File.delete` would and the root added |
| CacheManagers.CacheManager.WriteCacheFile | AXrLottie/src/main/java/com/aghajari/rlottie/AXrLottieCacheManager.java:101-129 | for every extension, the file exists afterwards exactly when the copy succeeded, which needs the path to be no directory and its parent to be a directory once the root is ensured, and then holds exactly the stream's data; a failed copy or open leaves no file; the input stream is always closed; the path is returned either way; for a '/'-free extension the directories are exactly the old ones plus the root, less the file's path if it was an empty directory |
| CacheManagers.CacheManager.CacheFileInEnsuredRoot | AXrLottie/src/main/java/com/aghajari/rlottie/AXrLottieCacheManager.java:102-103 | the file is never its root, which is now a directory; it lies directly in the root when the extension holds no '/'; the directories become exactly the old ones plus that root |
| CacheManagers.CacheManager.CopyIntoFile | AXrLottie/src/main/java/com/aghajari/rlottie/AXrLottieCacheManager.java:104-127 | open, copy, delete on failure, always close the stream: the file remains exactly when the copy succeeded, the path was no directory and its parent a directory, holding the stream's data; the directories lose the path exactly when it was an empty directory |
| CacheManagers.CacheManager.LoadTempFile | AXrLottie/src/main/java/com/aghajari/rlottie/AXrLottieCacheManager.java:135-143 | null exactly when the temp JSON file is missing; otherwise it is renamed to its absolute path with every ".temp" removed, which is returned and is the final JSON cache file when the root's path has no ".temp"; the rename happens exactly when that target's parent directory exists |
| CacheManagers.CacheManager.TempAndTarget | AXrLottie/src/main/java/com/aghajari/rlottie/AXrLottieCacheManager.java:136-140 | the temp JSON file in its ensured root and its absolute path with every ".temp" removed, which is the final JSON cache file when the root's path has no ".temp" |
| CacheManagers.CacheManager.RenameIfExists | AXrLottie/src/main/java/com/aghajari/rlottie/AXrLottieCacheManager.java:138-142 | null exactly when the file is missing; otherwise the target is returned and the file moves there exactly when the rename can happen; nothing else changes |
| CacheManagers.CacheManager.FetchURLFromCache | AXrLottie/src/main/java/com/aghajari/rlottie/AXrLottieCacheManager.java:58-71 | the final network JSON file exactly when it exists, the directories then being the old ones plus the network root; otherwise every registered extension's final network file is deleted and the result is null; no other file is lost or changed, the root is a directory, no directory is added besides it and none outside the listed paths is removed; a listed directory stays exactly when something lay in it |
| CacheManagers.CacheManager.DeleteNetworkFiles | AXrLottie/src/main/java/com/aghajari/rlottie/AXrLottieCacheManager.java:63-68 | afterwards no listed network file exists and every other file remains unchanged; the root stays a directory, no directory is added, those outside the listed paths stay, and a listed directory stays exactly when something lay in it |
| CacheManagers.CacheManager.DeleteNetworkFile | AXrLottie/src/main/java/com/aghajari/rlottie/AXrLottieCacheManager.java:64-67 | exactly that extension's final network file is removed; the directories lose that path exactly when it was an empty directory |
| CacheManagers.CacheManager.FetchLocalFromCache | AXrLottie/src/main/java/com/aghajari/rlottie/AXrLottieCacheManager.java:73-77 | an existing `<name>.json.cache` is returned untouched; otherwise the JSON is written there and returned, or on failure the file is deleted and the result is null; on every path the directories become exactly the old ones plus the local root |
| CacheManagers.CacheManager.WriteLocalCache | AXrLottie/src/main/java/com/aghajari/rlottie/AXrLottieCacheManager.java:79-90 | on success the file holds exactly the JSON and is returned; on failure it is deleted and the result is null |
| CacheManagers.CacheManager.Clear | AXrLottie/src/main/java/com/aghajari/rlottie/AXrLottieCacheManager.java:32-47 | afterwards exactly the files outside and at neither root remain, unchanged, and the new disk is the local clear followed by the network clear; when neither root's path is a prefix of the other, each root's subdirectory stays exactly when something lay in it and each root stays exactly when one of its subdirectories does |
| CacheManagers.ClearRoots | AXrLottie/src/main/java/com/aghajari/rlottie/AXrLottieCacheManager.java:32-35 | clearing both roots in turn leaves exactly the files outside and at neither root, and only the roots and their subdirectories can lose their directory |
| CacheManagers.ClearUnrelatedRoots | AXrLottie/src/main/java/com/aghajari/rlottie/AXrLottieCacheManager.java:32-35 | for roots neither of which is a prefix of the other, a root's subdirectory survives both clears exactly when something lay in it, and a root exactly when one of its subdirectories survives |
| CacheManagers.LocalClearSparesNetwork | AXrLottie/src/main/java/com/aghajari/rlottie/AXrLottieCacheManager.java:32-35 | clearing the local root does not touch a subdirectory of an unrelated network root or what lies in it |
| TaskCaches.Lookup | AXrLottie/src/main/java/com/aghajari/rlottie/network/AXrLottieTaskCache.java:54 | a key finds a file exactly when some entry has that key, and the file found is that entry's |
| TaskCaches.Without | AXrLottie/src/main/java/com/aghajari/rlottie/network/AXrLottieTaskCache.java:61 | after dropping a key it is no longer found, no entry is added, and distinct keys stay distinct |
| TaskCaches.WithoutKeepsOthers | AXrLottie/src/main/java/com/aghajari/rlottie/network/AXrLottieTaskCache.java:61 | dropping one key leaves what every other key finds |
| TaskCaches.Trim | AXrLottie/src/main/java/com/aghajari/rlottie/network/AXrLottieTaskCache.java:72-74 | trimming keeps the most recent entries: at most the bound, none for a negative bound, and all when they already fit |
| TaskCaches.AppendFresh | AXrLottie/src/main/java/com/aghajari/rlottie/network/AXrLottieTaskCache.java:61 | appending under an absent key keeps keys distinct, finds the new file under the key, and changes no other key's file |
| TaskCaches.GetAfterPut | AXrLottie/src/main/java/com/aghajari/rlottie/network/AXrLottieTaskCache.java:54-61 | after `put(k, f)`, `get(k)` finds `f`, the entry count is within the bound, keys stay distinct and `k` is the most recent |
| TaskCaches.PutKeepsOthers | AXrLottie/src/main/java/com/aghajari/rlottie/network/AXrLottieTaskCache.java:61 | a put leaves every other key's file unchanged or evicts it, and evicts nothing when the cache was not full |
| TaskCaches.LookupSuffix | AXrLottie/src/main/java/com/aghajari/rlottie/network/AXrLottieTaskCache.java:61 | what a key finds among the entries kept after eviction is what it found before |
| TaskCaches.TouchKeepsLookups | AXrLottie/src/main/java/com/aghajari/rlottie/network/AXrLottieTaskCache.java:54 | a `get` hit changes only recency: every key finds what it found, and the count is the same |
| TaskCaches.WithoutOneFewer | AXrLottie/src/main/java/com/aghajari/rlottie/network/AXrLottieTaskCache.java:61 | dropping a present key removes exactly one entry |
| TaskCaches.LruTaskCache.constructor | AXrLottie/src/main/java/com/aghajari/rlottie/network/AXrLottieTaskCache.java:37-43 | the cache starts empty with room for 20 entries |
| TaskCaches.LruTaskCache.Get | AXrLottie/src/main/java/com/aghajari/rlottie/network/AXrLottieTaskCache.java:49-55 | a null key finds nothing; otherwise the file stored under the key, which then becomes the most recent entry |
| TaskCaches.LruTaskCache.Put | AXrLottie/src/main/java/com/aghajari/rlottie/network/AXrLottieTaskCache.java:57-62 | a null key changes nothing; otherwise the entry replaces any under that key as the most recent, and the eldest are evicted beyond the bound, which is kept |
| TaskCaches.LruTaskCache.Clear | AXrLottie/src/main/java/com/aghajari/rlottie/network/AXrLottieTaskCache.java:64-66 | every entry is evicted and the bound is kept, so every `get` finds nothing |
| TaskCaches.LruTaskCache.Resize | AXrLottie/src/main/java/com/aghajari/rlottie/network/AXrLottieTaskCache.java:68-74 | a bound of 0 or less is refused with IllegalArgumentException and changes nothing; otherwise it becomes the bound and the eldest entries beyond it are evicted |
| TaskCaches.LruTaskCache.TrimToSize | AXrLottie/src/main/java/com/aghajari/rlottie/network/AXrLottieTaskCache.java:73 | the eldest entries are evicted until no more than the bound remain |
| TaskFactories.UrlTaskKey | AXrLottie/src/main/java/com/aghajari/rlottie/network/AXrLottieTaskFactory.java:60 | the key is "url_" followed by the URL, and so is never empty |
| TaskFactories.UrlTaskKeyInjective | AXrLottie/src/main/java/com/aghajari/rlottie/network/AXrLottieTaskFactory.java:60 | different URLs never share a task key |
| TaskFactories.RouteFor | AXrLottie/src/main/java/com/aghajari/rlottie/network/AXrLottieTaskFactory.java:76-95 | a cached file answers exactly when caching is on and the cache has it; otherwise the lottie task in flight is shared exactly when there is one, whatever the cache flag; otherwise a new task starts |
| TaskFactories.TaskFactory.constructor | AXrLottie/src/main/java/com/aghajari/rlottie/network/AXrLottieTaskFactory.java:44 | no task is in flight at first |
| TaskFactories.TaskFactory.FromUrl | AXrLottie/src/main/java/com/aghajari/rlottie/network/AXrLottieTaskFactory.java:58-69 | a null or empty URL gives no task and changes nothing; any other URL is routed under "url_" + url, and only a new task is registered in flight |
| TaskFactories.TaskFactory.Cache | AXrLottie/src/main/java/com/aghajari/rlottie/network/AXrLottieTaskFactory.java:76-95 | a cache hit yields a fresh task resolved to the cached file, a key in flight yields that very task, and otherwise a fresh task is registered under the key; the in-memory cache is only consulted when caching is on |
| TaskFactories.TaskFactory.FetchFinished | AXrLottie/src/main/java/com/aghajari/rlottie/network/AXrLottieTaskFactory.java:62-67 | a result holding a file is put into the in-memory cache under the key, and nothing else changes |
| TaskFactories.TaskFactory.TaskResolved | AXrLottie/src/main/java/com/aghajari/rlottie/network/AXrLottieTaskFactory.java:89-93 | a success or a failure unregisters the key, so a later request starts over |
| TaskFactories.TaskFactory.ClearCache | AXrLottie/src/main/java/com/aghajari/rlottie/network/AXrLottieTaskFactory.java:46-49 | both the in-flight map and the in-memory cache are empty afterwards |
| Tasks.Insert | AXrLottie/src/main/java/com/aghajari/rlottie/network/AXrLottieTask.java:61 | adding to the insertion-ordered listener set registers the listener, keeps every earlier one in place, changes nothing when it is already present and never creates a duplicate (see also line 107) |
| Tasks.Delete | AXrLottie/src/main/java/com/aghajari/rlottie/network/AXrLottieTask.java:62 | removing a listener drops it and only it, keeps the order of the others, and never creates a duplicate (see also line 118) |
| Tasks.ReAddMovesLast | AXrLottie/src/main/java/com/aghajari/rlottie/network/AXrLottieTask.java:107 | removing a registered listener and adding it back moves it to the end and keeps the set's size (see also line 118) |
| Tasks.DeleteDistinctLength | AXrLottie/src/main/java/com/aghajari/rlottie/network/AXrLottieTask.java:118 | removing a registered listener from a duplicate-free set removes exactly one entry |
| Tasks.ValueNotices | AXrLottie/src/main/java/com/aghajari/rlottie/network/AXrLottieTask.java:167-174 | the success loop calls every listener of the copy once, in order, with the value |
| Tasks.FailureNotices | AXrLottie/src/main/java/com/aghajari/rlottie/network/AXrLottieTask.java:176-187 | the failure loop calls every listener of the copy once, in order, with the exception (an empty copy calls nobody) |
| Tasks.CompletionNeverBoth | AXrLottie/src/main/java/com/aghajari/rlottie/network/AXrLottieTask.java:151-165 | a completed task tells only its success listeners when it has a value, only its failure listeners when it has an exception and no value, and nobody when the result is null or holds neither |
| Tasks.ValueReplay | AXrLottie/src/main/java/com/aghajari/rlottie/network/AXrLottieTask.java:103-105 | a listener added to a task that already has a value is called at once, exactly when there is one |
| Tasks.FailureReplay | AXrLottie/src/main/java/com/aghajari/rlottie/network/AXrLottieTask.java:129-134 | a failure listener added to a task that already failed is called at once, exactly when there is an exception |
| Tasks.SetOutcome | AXrLottie/src/main/java/com/aghajari/rlottie/network/AXrLottieTask.java:89-95 | setting a result fails with IllegalStateException exactly when one is already stored, and otherwise stores the given one (null included) |
| Tasks.SetAtMostOnce | AXrLottie/src/main/java/com/aghajari/rlottie/network/AXrLottieTask.java:89-95 | after a non-null result, every later set fails; a null result leaves the lottie task settable |
| Tasks.CallResult | AXrLottie/src/main/java/com/aghajari/rlottie/network/AXrLottieTask.java:78-83 | a run-now task stores the callable's result, or its exception as a failure result |
| Tasks.FutureResult | AXrLottie/src/main/java/com/aghajari/rlottie/network/AXrLottieTask.java:195-206 | a cancelled future stores nothing; an interrupted or failed one stores its exception as a failure result; otherwise the callable's result |
| Tasks.LottieTask.constructor | AXrLottie/src/main/java/com/aghajari/rlottie/network/AXrLottieTask.java:77-87 | a run-now task has its callable's result set and one notification posted; any other task is handed to the executor with nothing set; no listener is registered |
| Tasks.LottieTask.SetResult | AXrLottie/src/main/java/com/aghajari/rlottie/network/AXrLottieTask.java:89-95 | a second set is refused and changes nothing; otherwise the result is stored and one notification is posted; listeners are untouched |
| Tasks.LottieTask.AddListener | AXrLottie/src/main/java/com/aghajari/rlottie/network/AXrLottieTask.java:102-109 | the listener is called at once only when the lottie task already has a value, then registered at the end of the success set |
| Tasks.LottieTask.RemoveListener | AXrLottie/src/main/java/com/aghajari/rlottie/network/AXrLottieTask.java:117-120 | only that listener leaves the success set; nothing is called |
| Tasks.LottieTask.AddFailureListener | AXrLottie/src/main/java/com/aghajari/rlottie/network/AXrLottieTask.java:128-138 | the listener is called at once only when the lottie task already failed, then registered at the end of the failure set |
| Tasks.LottieTask.RemoveFailureListener | AXrLottie/src/main/java/com/aghajari/rlottie/network/AXrLottieTask.java:146-149 | only that listener leaves the failure set; nothing is called |
| Tasks.LottieTask.RunNotification | AXrLottie/src/main/java/com/aghajari/rlottie/network/AXrLottieTask.java:153-164 | the posted notification makes exactly the calls of a completion on the listeners registered when it starts, and only listeners that remove themselves leave the set that was told |
| Tasks.LottieTask.NotifyAll | AXrLottie/src/main/java/com/aghajari/rlottie/network/AXrLottieTask.java:167-187 | the loop over a copy calls every listener in order even when some remove themselves, and the live set keeps exactly the others |
| Tasks.LottieTask.Done | AXrLottie/src/main/java/com/aghajari/rlottie/network/AXrLottieTask.java:195-206 | a cancelled future sets nothing; otherwise the lottie task's result is set as the future's outcome says, with the at-most-once rule of setResult |
| QueuePools.RemoveFirst | AXrLottie/src/main/java/com/aghajari/rlottie/DispatchQueuePool.java:105 | removing a queue from the busy list drops exactly one entry when it is listed and changes nothing otherwise |
| QueuePools.RemoveFirstAt | AXrLottie/src/main/java/com/aghajari/rlottie/DispatchQueuePool.java:105 | in a list without duplicates, removing a queue cuts it out at its position and keeps the order of the rest |
| QueuePools.CountSumUpdate | AXrLottie/src/main/java/com/aghajari/rlottie/DispatchQueuePool.java:93 | changing one busy queue's count changes the sum of the counts by the same difference (see also line 108) |
| QueuePools.CountSumRemove | AXrLottie/src/main/java/com/aghajari/rlottie/DispatchQueuePool.java:104-105 | dropping a busy queue and its count takes its count off the sum |
| QueuePools.Selection | AXrLottie/src/main/java/com/aghajari/rlottie/DispatchQueuePool.java:74-82 | a busy queue is reused only when one exists, an idle queue is taken only when one exists, and a queue is created only when none is idle |
| QueuePools.SelectionRespectsCap | AXrLottie/src/main/java/com/aghajari/rlottie/DispatchQueuePool.java:74-79 | with a cap of at least one, a queue is created only below the cap, and while queues are busy only when the tasks are more than twice the busy queues |
| QueuePools.KeepRecentMembers | AXrLottie/src/main/java/com/aghajari/rlottie/DispatchQueuePool.java:46-55 | the cleanup keeps exactly the idle queues whose last task is at most 30 s old |
| QueuePools.KeepRecentDistinct | AXrLottie/src/main/java/com/aghajari/rlottie/DispatchQueuePool.java:46-55 | the cleanup introduces no duplicate into the idle list |
| QueuePools.RemoveStale | AXrLottie/src/main/java/com/aghajari/rlottie/DispatchQueuePool.java:46-55 | the in-place loop, with its cursor stepping back after each removal, leaves exactly the recent queues in their order and counts the removed ones |
| QueuePools.Empty | AXrLottie/src/main/java/com/aghajari/rlottie/DispatchQueuePool.java:32-39 | a new pool satisfies the bookkeeping invariant for any cap |
| QueuePools.ExecuteKeepsInv | AXrLottie/src/main/java/com/aghajari/rlottie/DispatchQueuePool.java:72-93 | a submission keeps the invariant: the lists are disjoint and duplicate-free, the busy list and the count map hold the same queues, the total is the sum of the counts, every queue is counted as created and none beyond the cap, and a cleanup is pending |
| QueuePools.ExecuteCountsTask | AXrLottie/src/main/java/com/aghajari/rlottie/DispatchQueuePool.java:74-93 | the chosen queue ends the busy list with one more task, is no longer idle, and a created queue is a new one; the cleanup is scheduled |
| QueuePools.CompleteKeepsInv | AXrLottie/src/main/java/com/aghajari/rlottie/DispatchQueuePool.java:101-109 | a completion keeps the same invariant |
| QueuePools.CompleteMeaning | AXrLottie/src/main/java/com/aghajari/rlottie/DispatchQueuePool.java:101-109 | a queue whose last task completes moves from busy to idle; otherwise it stays busy with one task less; the total drops by one |
| QueuePools.CleanupKeepsInv | AXrLottie/src/main/java/com/aghajari/rlottie/DispatchQueuePool.java:44-56 | dropping stale idle queues keeps the bookkeeping invariant |
| QueuePools.CleanupMeaning | AXrLottie/src/main/java/com/aghajari/rlottie/DispatchQueuePool.java:41-63 | the cleanup keeps the invariant, keeps exactly the recent idle queues, leaves the busy queues alone and reschedules itself exactly when a queue is left |
| QueuePools.QueuePool.constructor | AXrLottie/src/main/java/com/aghajari/rlottie/DispatchQueuePool.java:66-69 | a new pool is empty and keeps the cap it is given |
| QueuePools.QueuePool.Execute | AXrLottie/src/main/java/com/aghajari/rlottie/DispatchQueuePool.java:72-93 | the pool moves to the state of one submission and returns the chosen queue, keeping the invariant |
| QueuePools.QueuePool.Complete | AXrLottie/src/main/java/com/aghajari/rlottie/DispatchQueuePool.java:98-110 | the pool moves to the state of one completion of a task of that queue, keeping the invariant |
| QueuePools.QueuePool.Cleanup | AXrLottie/src/main/java/com/aghajari/rlottie/DispatchQueuePool.java:41-63 | the pool moves to the state of one cleanup at that time, keeping the invariant |
| DrawableModel.FrameTime | AXrLottie/src/main/java/com/aghajari/rlottie/AXrLottieDrawable.java:383 | the float quotient 1000 / fps cast to int: at most 1000 ms for a positive rate, Integer.MAX_VALUE for a zero rate (see also line 404) |
| DrawableModel.TimeBetweenFrames | AXrLottie/src/main/java/com/aghajari/rlottie/AXrLottieDrawable.java:383 | the frame time is never below 33 ms with the frame limit and 16 ms without, and is either that floor or the animation's own frame time (see also line 404) |
| DrawableModel.InitialMeta | AXrLottie/src/main/java/com/aghajari/rlottie/AXrLottieDrawable.java:333-345 | a file source, or cached JSON, keeps the frame limit only for animations of at least 60 fps; JSON loaded directly keeps it as requested; a URL source sets nothing yet (see also lines 367-406) |
| DrawableModel.RecycleResources | AXrLottie/src/main/java/com/aghajari/rlottie/AXrLottieDrawable.java:215-224 | the on-screen and background bitmaps are released and recycled, the waiting frame is left alone, and every earlier recycle stays recorded |
| DrawableModel.JavaDiv | AXrLottie/src/main/java/com/aghajari/rlottie/AXrLottieDrawable.java:695 | Java's integer division truncates toward zero |
| DrawableModel.JavaRem | AXrLottie/src/main/java/com/aghajari/rlottie/AXrLottieDrawable.java:695 | Java's remainder takes the sign of the dividend |
| DrawableModel.ProgressMsFrame | AXrLottie/src/main/java/com/aghajari/rlottie/AXrLottieDrawable.java:694-697 | a zero frame time or frame count throws ArithmeticException; otherwise the frame lies in [0, totalFrames) |
| DrawableModel.SetProgressMs | AXrLottie/src/main/java/com/aghajari/rlottie/AXrLottieDrawable.java:694-697 | a time-based seek fails exactly when its frame computation does, and otherwise is a resetting asynchronous seek to that frame |
| DrawableModel.ProgressFrame | AXrLottie/src/main/java/com/aghajari/rlottie/AXrLottieDrawable.java:703-710 | the progress is clamped to [0, 1], so the frame lies in [0, totalFrames], with 0 and totalFrames at the ends |
| DrawableModel.ScheduleMeaning | AXrLottie/src/main/java/com/aghajari/rlottie/AXrLottieDrawable.java:625-640 | a decode is queued exactly when the scheduling guard holds, never while one is pending; it carries every queued property update and colour table; a refused schedule changes nothing |
| DrawableModel.DecodeKeepsInv | AXrLottie/src/main/java/com/aghajari/rlottie/AXrLottieDrawable.java:246-318 | a decode into a background bitmap keeps the invariant and the update history, never writes the bitmap on screen, and only appends to the posted runnables |
| DrawableModel.LoadFrameKeepsInv | AXrLottie/src/main/java/com/aghajari/rlottie/AXrLottieDrawable.java:226-323 | the corrected worker, which posts the no-frame runnable once recycled, keeps the drawable invariant (a queued decode is the one pending task, the handle is destroyed at most once, the on-screen bitmap is neither decoded into nor waiting) and always posts something, whatever path it takes |
| DrawableModel.LoadFrameAsWrittenKeepsInv | AXrLottie/src/main/java/com/aghajari/rlottie/AXrLottieDrawable.java:226-323 | the worker as written keeps the drawable invariant and the update history; once recycled it only clears its queued mark and posts nothing, and otherwise moves as the live worker |
| DrawableModel.LoadFrameSuccess | AXrLottie/src/main/java/com/aghajari/rlottie/AXrLottieDrawable.java:263-318 | a produced frame advances playback by the step rule, offers the decoded bitmap, applies the pending property updates and posts the frame-ready runnable, after the cache request when one is still needed |
| DrawableModel.LoadFrameFailure | AXrLottie/src/main/java/com/aghajari/rlottie/AXrLottieDrawable.java:263-270 | a failed frame leaves playback and the bitmaps as they were and posts only the no-frame runnable, whose completion clears the pending task (see also lines 137-143) |
| DrawableModel.FinishKeepsInv | AXrLottie/src/main/java/com/aghajari/rlottie/AXrLottieDrawable.java:193-213 | completion keeps the invariant; a drawable awaiting destruction with no task left is destroyed, and a destroyed drawable has its bitmaps recycled |
| DrawableModel.AfterReleaseKeepsInv | AXrLottie/src/main/java/com/aghajari/rlottie/AXrLottieDrawable.java:205-212 | after the release step the bitmaps of a destroyed drawable are recycled, or the next decode is scheduled, keeping the invariant and the handle |
| DrawableModel.ReleaseIfIdleMeaning | AXrLottie/src/main/java/com/aghajari/rlottie/AXrLottieDrawable.java:194-204 | the release step destroys the handle exactly when no decode and no cache task is left after the stale ones are dropped |
| DrawableModel.HandledKeepsInv | AXrLottie/src/main/java/com/aghajari/rlottie/AXrLottieDrawable.java:137-179 | each posted runnable's own change keeps the invariant and the update history |
| DrawableModel.DispatchKeepsInv | AXrLottie/src/main/java/com/aghajari/rlottie/AXrLottieDrawable.java:137-179 | running the oldest posted runnable keeps the invariant and the update history (see also lines 193-213) |
| DrawableModel.RecycleMeaning | AXrLottie/src/main/java/com/aghajari/rlottie/AXrLottieDrawable.java:497-515 | recycling stops playback and either frees the handle and the bitmaps at once or marks the drawable to be destroyed once its task ends, after which nothing can be scheduled |
| DrawableModel.DestroyedAtMostOnce | AXrLottie/src/main/java/com/aghajari/rlottie/AXrLottieDrawable.java:196-198 | the native handle is destroyed at most once and only when it was non-zero (see also lines 503-506) |
| DrawableModel.ShowNextFrameKeepsInv | AXrLottie/src/main/java/com/aghajari/rlottie/AXrLottieDrawable.java:733-760 | showing a frame rotates the bitmaps (decoded to screen, old screen to background), stops after the last frame and keeps the invariant |
| DrawableModel.DrawKeepsInv | AXrLottie/src/main/java/com/aghajari/rlottie/AXrLottieDrawable.java:763-784 | drawing keeps the invariant and does nothing once the handle is gone or the drawable awaits destruction |
| DrawableModel.ScheduleOrForceMeaning | AXrLottie/src/main/java/com/aghajari/rlottie/AXrLottieDrawable.java:618-620 | after a schedule with the fallback, either a decode is queued or the next draw is forced (see also lines 679-690) |
| DrawableModel.SeekMeaning | AXrLottie/src/main/java/com/aghajari/rlottie/AXrLottieDrawable.java:655-692 | a seek outside [0, totalFrames] changes nothing; an accepted one sets the frame, and then a decode is queued or the next draw is forced |
| DrawableModel.DropWaitingFrameKeepsInv | AXrLottie/src/main/java/com/aghajari/rlottie/AXrLottieDrawable.java:668-673 | dropping the waiting frame returns its bitmap to the background and keeps the invariant |
| DrawableModel.PropertyUpdatesKept | AXrLottie/src/main/java/com/aghajari/rlottie/AXrLottieDrawable.java:601-609 | every property update given to the setters is kept, in order, after the earlier ones, and nothing else is added |
| DrawableModel.SetAllowDecodeSingleFrameKeepsInv | AXrLottie/src/main/java/com/aghajari/rlottie/AXrLottieDrawable.java:490-495 | enabling single-frame decoding requests a decode whenever one can be scheduled |
| DrawableModel.StartKeepsInv | AXrLottie/src/main/java/com/aghajari/rlottie/AXrLottieDrawable.java:543-556 | a start that is not refused leaves the drawable running |
| DrawableModel.LoadedKeepsInv | AXrLottie/src/main/java/com/aghajari/rlottie/AXrLottieDrawable.java:367-406 | a freshly loaded drawable satisfies the invariant with no update queued |
| DrawableModel.ConfigureKeepsInv | AXrLottie/src/main/java/com/aghajari/rlottie/AXrLottieDrawable.java:347-356 | applying the builder's end frame through the setter as written, then its repeat count and properties, keeps the invariant and queues the builder's properties |
| DrawableModel.InitialEndFrame | AXrLottie/src/main/java/com/aghajari/rlottie/AXrLottieDrawable.java:347-348 | a drawable as built holds the builder's positive end frame whatever the frame count, since the setter's guard reads the field, still -1 after loading (see also lines 477-482) |
| DrawableModel.InitialKeepsInv | AXrLottie/src/main/java/com/aghajari/rlottie/AXrLottieDrawable.java:328-365 | a drawable as built (end frame set through the setter as written) satisfies the invariant and holds exactly the builder's properties as its queued updates |
| DrawableModel.FirstDecodeKeepsInv | AXrLottie/src/main/java/com/aghajari/rlottie/AXrLottieDrawable.java:384-386 | the first decode requested when loading directly from JSON keeps the invariant |
| DrawableModel.RestartAfterPlayOnce | AXrLottie/src/main/java/com/aghajari/rlottie/AXrLottieDrawable.java:543-566 | after a counted play-once pass, start does nothing, while restart resets the count, stays in play-once mode and starts again |
| DrawableModel.SetAutoRepeatGuard | AXrLottie/src/main/java/com/aghajari/rlottie/AXrLottieDrawable.java:517-526 | hold mode (3) cannot replace play-once mode (2) away from frame 0; every other mode is taken; the boolean form sets loop (1) or off (0) |
| DrawableModel.ProgressMsInRange | AXrLottie/src/main/java/com/aghajari/rlottie/AXrLottieDrawable.java:694-697 | with a positive frame time and frame count, a time-based seek succeeds and lands on a frame inside the animation |
| DrawableModel.RecycleWhileQueuedLeaksAsWritten | AXrLottie/src/main/java/com/aghajari/rlottie/AXrLottieDrawable.java:229-231 | as written, recycling while the decode is queued leaves a drawable whose worker returns without posting, so its pending task never clears (see also lines 497-515) |
| DrawableModel.StrandedStaysStranded | AXrLottie/src/main/java/com/aghajari/rlottie/AXrLottieDrawable.java:193-213 | such a drawable is stuck: drawing changes nothing, a second recycle leaves the handle live and nothing can be scheduled (see also lines 497-515 and 763-766) |
| DrawableModel.RecycleWhileQueuedReleases | AXrLottie/src/main/java/com/aghajari/rlottie/AXrLottieDrawable.java:193-213 | when the recycled worker posts the no-frame runnable, the same sequence ends with the handle destroyed once and the bitmaps recycled (see also lines 229-238) |
| DrawableModel.CustomEndFrameLockAsWritten | AXrLottie/src/main/java/com/aghajari/rlottie/AXrLottieDrawable.java:477-482 | as written, the guard tests the old end frame, so an end frame beyond the animation is accepted and then blocks every later one |
| DrawableModel.CustomEndFrameBounded | AXrLottie/src/main/java/com/aghajari/rlottie/AXrLottieDrawable.java:477-482 | with the guard on the new value, a valid end frame is always taken, an invalid one changes nothing, and the end frame stays within the animation |
| DrawableModel.SyncSeekKeepsStaleFrameAsWritten | AXrLottie/src/main/java/com/aghajari/rlottie/AXrLottieDrawable.java:651-653 | as written, the two-argument seek drops its async flag, so a synchronous seek keeps the frame decoded before it (see also lines 668-673) |
| DrawableModel.SyncSeekDropsStaleFrame | AXrLottie/src/main/java/com/aghajari/rlottie/AXrLottieDrawable.java:655-692 | passing the flag on, a synchronous seek drops the stale frame and then decodes the requested one or forces a redraw |
| Drawables.LottieDrawable.constructor | AXrLottie/src/main/java/com/aghajari/rlottie/AXrLottieDrawable.java:328-406 | the loaded fields are those of the loader's result and the builder, and the fields are the built state, with the builder's end frame applied through the setter as written; it satisfies the invariant and queues exactly the builder's properties (DrawableModel.InitialKeepsInv) |
| Drawables.LottieDrawable.ApplyBuilder | AXrLottie/src/main/java/com/aghajari/rlottie/AXrLottieDrawable.java:347-356 | the builder's end frame (through the setter as written), repeat count and properties are applied as in DrawableModel.Configure, keeping the invariant |
| Drawables.LottieDrawable.HasLoaded | AXrLottie/src/main/java/com/aghajari/rlottie/AXrLottieDrawable.java:416-418 | a drawable has loaded exactly when its native handle is non-zero |
| Drawables.LottieDrawable.ScheduleNextGetFrame | AXrLottie/src/main/java/com/aghajari/rlottie/AXrLottieDrawable.java:625-640 | the fields move as DrawableModel.ScheduleNextGetFrame, whose meaning DrawableModel.ScheduleMeaning proves: a decode is queued exactly when the guard holds |
| Drawables.LottieDrawable.LoadFrameRunnable | AXrLottie/src/main/java/com/aghajari/rlottie/AXrLottieDrawable.java:226-323 | the worker moves the fields as DrawableModel.LoadFrameAsWritten: a recycled drawable returns without posting anything, otherwise it runs the live worker; the invariant is kept |
| Drawables.LottieDrawable.LoadFrameLive | AXrLottie/src/main/java/com/aghajari/rlottie/AXrLottieDrawable.java:232-322 | the worker on a live drawable moves the fields as DrawableModel.LoadFrameLive: no handle posts the no-frame runnable, otherwise the frame is decoded and the step rule applied |
| Drawables.LottieDrawable.CacheGenerateRunnable | AXrLottie/src/main/java/com/aghajari/rlottie/AXrLottieDrawable.java:166-174 | the cache runnable marks the cache task started and posts the cache-finished runnable |
| Drawables.LottieDrawable.CheckRunningTasks | AXrLottie/src/main/java/com/aghajari/rlottie/AXrLottieDrawable.java:181-191 | an unstarted cache task and a decoded frame nobody showed are dropped, and nothing else changes |
| Drawables.LottieDrawable.RecycleResources | AXrLottie/src/main/java/com/aghajari/rlottie/AXrLottieDrawable.java:215-224 | only the bitmap slots change, as DrawableModel.RecycleResources says |
| Drawables.LottieDrawable.DecodeFrameFinishedInternal | AXrLottie/src/main/java/com/aghajari/rlottie/AXrLottieDrawable.java:193-213 | the fields move as DrawableModel.DecodeFrameFinished, which keeps the invariant by DrawableModel.FinishKeepsInv |
| Drawables.LottieDrawable.RunPostedRunnable | AXrLottie/src/main/java/com/aghajari/rlottie/AXrLottieDrawable.java:137-179 | the oldest posted runnable runs as DrawableModel.Dispatch, keeping the invariant and the update history |
| Drawables.LottieDrawable.Recycle | AXrLottie/src/main/java/com/aghajari/rlottie/AXrLottieDrawable.java:497-515 | the fields move as DrawableModel.Recycle and keep the invariant (DrawableModel.RecycleMeaning) |
| Drawables.LottieDrawable.SetAutoRepeat | AXrLottie/src/main/java/com/aghajari/rlottie/AXrLottieDrawable.java:517-522 | the repeat mode changes as DrawableModel.SetAutoRepeat, whose guard DrawableModel.SetAutoRepeatGuard states |
| Drawables.LottieDrawable.SetAutoRepeatEnabled | AXrLottie/src/main/java/com/aghajari/rlottie/AXrLottieDrawable.java:524-526 | the repeat mode becomes loop (1) or off (0), subject to the same guard |
| Drawables.LottieDrawable.Start | AXrLottie/src/main/java/com/aghajari/rlottie/AXrLottieDrawable.java:543-556 | the fields move as DrawableModel.Start and keep the invariant |
| Drawables.LottieDrawable.Restart | AXrLottie/src/main/java/com/aghajari/rlottie/AXrLottieDrawable.java:558-566 | restart succeeds and starts again exactly as DrawableModel.Restart says, keeping the invariant |
| Drawables.LottieDrawable.Stop | AXrLottie/src/main/java/com/aghajari/rlottie/AXrLottieDrawable.java:643-645 | only the running flag is cleared |
| Drawables.LottieDrawable.SetPlayInDirectionOfCustomEndFrame | AXrLottie/src/main/java/com/aghajari/rlottie/AXrLottieDrawable.java:473-475 | only the direction flag changes |
| Drawables.LottieDrawable.SetCustomEndFrame | AXrLottie/src/main/java/com/aghajari/rlottie/AXrLottieDrawable.java:477-482 | the end frame changes as DrawableModel.SetCustomEndFrameAsWritten: the guard reads the current end frame, so once it lies beyond the animation every later end frame is ignored |
| Drawables.LottieDrawable.SetAllowDecodeSingleFrame | AXrLottie/src/main/java/com/aghajari/rlottie/AXrLottieDrawable.java:490-495 | the fields move as DrawableModel.SetAllowDecodeSingleFrame and keep the invariant |
| Drawables.LottieDrawable.BeginApplyLayerProperties | AXrLottie/src/main/java/com/aghajari/rlottie/AXrLottieDrawable.java:568-570 | only the applying flag is set |
| Drawables.LottieDrawable.RedrawStopped | AXrLottie/src/main/java/com/aghajari/rlottie/AXrLottieDrawable.java:577-586 | a stopped single-frame drawable restarts frames 0 to 2 from 0 and schedules a decode or forces the next draw (see also lines 612-621) |
| Drawables.LottieDrawable.CommitApplyLayerProperties | AXrLottie/src/main/java/com/aghajari/rlottie/AXrLottieDrawable.java:572-588 | the fields move as DrawableModel.CommitApplyLayerProperties and keep the invariant |
| Drawables.LottieDrawable.RequestRedraw | AXrLottie/src/main/java/com/aghajari/rlottie/AXrLottieDrawable.java:611-623 | the fields move as DrawableModel.RequestRedraw and keep the invariant |
| Drawables.LottieDrawable.ReplaceColors | AXrLottie/src/main/java/com/aghajari/rlottie/AXrLottieDrawable.java:590-593 | the colour table is queued for the next schedule and a redraw is requested |
| Drawables.LottieDrawable.SetLayerProperty | AXrLottie/src/main/java/com/aghajari/rlottie/AXrLottieDrawable.java:601-604 | the update is queued after the earlier ones and a redraw is requested |
| Drawables.LottieDrawable.SetLayerProperties | AXrLottie/src/main/java/com/aghajari/rlottie/AXrLottieDrawable.java:606-609 | the updates are queued in order after the earlier ones and a redraw is requested (DrawableModel.PropertyUpdatesKept) |
| Drawables.LottieDrawable.SetCurrentFrame | AXrLottie/src/main/java/com/aghajari/rlottie/AXrLottieDrawable.java:655-692 | the fields move as DrawableModel.SetCurrentFrame, whose meaning DrawableModel.SeekMeaning proves |
| Drawables.LottieDrawable.SetCurrentFrameAsync | AXrLottie/src/main/java/com/aghajari/rlottie/AXrLottieDrawable.java:651-653 | the two-argument seek moves the fields as DrawableModel.SetCurrentFrameAsyncAsWritten: it seeks asynchronously whatever its async flag says |
| Drawables.LottieDrawable.SeekFrame | AXrLottie/src/main/java/com/aghajari/rlottie/AXrLottieDrawable.java:647-649 | the one-argument seek moves the fields as the two-argument one with async set, as written |
| Drawables.LottieDrawable.SetProgressMs | AXrLottie/src/main/java/com/aghajari/rlottie/AXrLottieDrawable.java:694-697 | a zero frame time or frame count fails with ArithmeticException and changes nothing; otherwise the fields move as DrawableModel.SetProgressMs |
| Drawables.LottieDrawable.SetProgress | AXrLottie/src/main/java/com/aghajari/rlottie/AXrLottieDrawable.java:699-710 | the fields move as the two-argument seek as written (asynchronous) to the clamped progress frame |
| Drawables.LottieDrawable.ShowNextFrame | AXrLottie/src/main/java/com/aghajari/rlottie/AXrLottieDrawable.java:733-760 | the fields move as DrawableModel.ShowNextFrame and keep the invariant |
| Drawables.LottieDrawable.Draw | AXrLottie/src/main/java/com/aghajari/rlottie/AXrLottieDrawable.java:763-784 | the fields move as DrawableModel.Draw and keep the invariant |
| FrameStep.FramesPerUpdate | AXrLottie/src/main/java/com/aghajari/rlottie/AXrLottieDrawable.java:276 | two frames per decode exactly when the frame rate is limited, one otherwise |
| FrameStep.DirectionalApproaches | AXrLottie/src/main/java/com/aghajari/rlottie/AXrLottieDrawable.java:278-293 | toward a custom end frame the frame moves one step closer without reaching or crossing it, is marked last exactly when the next step would, and is then held; the play count is untouched |
| FrameStep.StaysInWindow | AXrLottie/src/main/java/com/aghajari/rlottie/AXrLottieDrawable.java:294-313 | outside directional mode a frame inside [0, end) stays inside it, whatever the repeat mode |
| FrameStep.HoldModeHolds | AXrLottie/src/main/java/com/aghajari/rlottie/AXrLottieDrawable.java:295-298 | in repeat mode 3 the frame never moves over any number of decodes: inside the window each decode marks it last and counts one play, at the end it is held without counting |
| FrameStep.EndHeld | AXrLottie/src/main/java/com/aghajari/rlottie/AXrLottieDrawable.java:295-311 | in any mode but 1 and 2, once the step reaches the end of the window every later decode holds the frame, marks it last and counts no play |
| FrameStep.StepsToEnd | AXrLottie/src/main/java/com/aghajari/rlottie/AXrLottieDrawable.java:295 | at least one decode is needed to reach the end of the window |
| FrameStep.LoopModeWraps | AXrLottie/src/main/java/com/aghajari/rlottie/AXrLottieDrawable.java:295-305 | in loop mode, consecutive decodes from any frame come back to frame 0 without ever marking a frame last |
| FrameStep.OnceModeStops | AXrLottie/src/main/java/com/aghajari/rlottie/AXrLottieDrawable.java:295-309 | in play-once mode, consecutive decodes from any frame come back to frame 0, mark it last and count exactly one play |
| Builders.Fresh | AXrLottie/src/main/java/com/aghajari/rlottie/AXrLottieDrawable.java:1091-1102 | a new builder holds the field initialisers: 200 x 200, caching on, no frame limit, first decode on, no colours or properties, end frame -1, repeat 0, no auto-start |
| Builders.FromFile | AXrLottie/src/main/java/com/aghajari/rlottie/AXrLottieDrawable.java:1104-1114 | a null file throws NullPointerException; otherwise the builder reads that file and is named by its path |
| Builders.SetCacheName | AXrLottie/src/main/java/com/aghajari/rlottie/AXrLottieDrawable.java:1139-1145 | a null or empty name throws NullPointerException; any other name is stored and nothing else changes |
| Builders.FromJson | AXrLottie/src/main/java/com/aghajari/rlottie/AXrLottieDrawable.java:1116-1123 | a JSON builder fails exactly when its cache name is null or empty; the JSON itself may be null |
| Builders.UrlKey | AXrLottie/src/main/java/com/aghajari/rlottie/AXrLottieDrawable.java:1131 | the key of a URL source is "lottie_cache_" followed only by word characters |
| Builders.FromUrl | AXrLottie/src/main/java/com/aghajari/rlottie/AXrLottieDrawable.java:1125-1134 | a null fetcher or a null URL throws NullPointerException; otherwise the source is the URL's key and no cache name is set |
| Builders.UrlKeyIgnoresPunctuation | AXrLottie/src/main/java/com/aghajari/rlottie/AXrLottieDrawable.java:1131 | URLs that differ only in non-word characters share a key, and the key of a key's own suffix is the key itself |
| Builders.SetSize | AXrLottie/src/main/java/com/aghajari/rlottie/AXrLottieDrawable.java:1150-1157 | a side that is not positive throws RuntimeException; otherwise exactly the two sides change |
| Builders.AddLayerProperty | AXrLottie/src/main/java/com/aghajari/rlottie/AXrLottieDrawable.java:1191-1195 | the property list is created on first use and the update appended after the earlier ones; nothing else changes |
| Builders.SetAutoRepeatEnabled | AXrLottie/src/main/java/com/aghajari/rlottie/AXrLottieDrawable.java:1207-1210 | the repeat count is 1 exactly when enabled and 0 exactly when not; nothing else changes |
| Builders.PropertiesKeepOrder | AXrLottie/src/main/java/com/aghajari/rlottie/AXrLottieDrawable.java:1191-1195 | properties added one after another are kept in the order they were added |
| Lottie2Gifs.FromHandle | AXrLottie/src/main/java/com/aghajari/rlottie/AXrLottie2Gif.java:169-195 | a builder for a handle starts at 200 x 200 on white, delay 2, 8 bits, frames 0 to -1, asynchronous, not destroyable, with no path and no listener |
| Lottie2Gifs.CheckBuild | AXrLottie/src/main/java/com/aghajari/rlottie/AXrLottie2Gif.java:294-303 | a build succeeds exactly when a path is set and both sides are positive; a missing path is reported before a bad size |
| Lottie2Gifs.Destroyed | AXrLottie/src/main/java/com/aghajari/rlottie/AXrLottie2Gif.java:118-121 | destroy marks the object destroyed and passes the handle to the native destroy once more; nothing else changes |
| Lottie2Gifs.Progressed | AXrLottie/src/main/java/com/aghajari/rlottie/AXrLottie2Gif.java:54-58 | after progress callbacks the getters report the last one; with none, nothing changes |
| Lottie2Gifs.Finished | AXrLottie/src/main/java/com/aghajari/rlottie/AXrLottie2Gif.java:60-66 | onFinished stops the conversion and destroys the handle exactly when the builder is destroyable |
| Lottie2Gifs.Callbacks | AXrLottie/src/main/java/com/aghajari/rlottie/AXrLottie2Gif.java:46-66 | a null handle makes no callback; finishing leaves the object stopped, starting without finishing leaves it running; only a destroyable builder can destroy, at most once (see also lottie.cpp:762-765) |
| Lottie2Gifs.Encoded | AXrLottie/src/main/java/com/aghajari/rlottie/AXrLottie2Gif.java:98-101 | the conversion is successful exactly when the handle is non-null and the encoder returns true (see also lottie.cpp:762-769) |
| Lottie2Gifs.Convert | AXrLottie/src/main/java/com/aghajari/rlottie/AXrLottie2Gif.java:87-108 | the bitmap is allocated at most once; success needs a bitmap, a handle and the encoder's true; a failed destroyable conversion destroys the handle, and a run passes it to destroy at most twice |
| Lottie2Gifs.Build | AXrLottie/src/main/java/com/aghajari/rlottie/AXrLottie2Gif.java:110-116 | an asynchronous build only queues the converter; a synchronous one runs it at once |
| Lottie2Gifs.Dequeued | AXrLottie/src/main/java/com/aghajari/rlottie/AXrLottie2Gif.java:112 | running a queued converter removes it from the pool's queue |
| Lottie2Gifs.EqualsIsEquivalence | AXrLottie/src/main/java/com/aghajari/rlottie/AXrLottie2Gif.java:155-162 | equality by output path and handle is reflexive, symmetric and transitive |
| Lottie2Gifs.FailedAllocationDestroys | AXrLottie/src/main/java/com/aghajari/rlottie/AXrLottie2Gif.java:90-106 | a synchronous, destroyable conversion whose bitmap cannot be allocated fails and destroys the handle once |
| Lottie2Gifs.FinishedThenFailedDestroysTwice | AXrLottie/src/main/java/com/aghajari/rlottie/AXrLottie2Gif.java:60-66 | an encoder that reports onFinished and then returns false makes a destroyable conversion destroy its handle twice (see also line 106) |
| Lottie2Gifs.Lottie2Gif.constructor | AXrLottie/src/main/java/com/aghajari/rlottie/AXrLottie2Gif.java:69-74 | a converter built from a checked builder is in the state of one build from the initial state |
| Lottie2Gifs.Lottie2Gif.BuildStep | AXrLottie/src/main/java/com/aghajari/rlottie/AXrLottie2Gif.java:110-116 | the fields move as Lottie2Gifs.Build |
| Lottie2Gifs.Lottie2Gif.RunQueued | AXrLottie/src/main/java/com/aghajari/rlottie/AXrLottie2Gif.java:112 | the pool's run of a queued converter moves the fields as Lottie2Gifs.Convert after dequeuing (see also lines 87-108) |
| Lottie2Gifs.Lottie2Gif.RunConverter | AXrLottie/src/main/java/com/aghajari/rlottie/AXrLottie2Gif.java:87-108 | the fields move as Lottie2Gifs.Convert |
| Lottie2Gifs.Lottie2Gif.Encode | AXrLottie/src/main/java/com/aghajari/rlottie/AXrLottie2Gif.java:99-101 | the callbacks move the fields as Lottie2Gifs.Callbacks and the result is the encoder's, false for a null handle (see also lottie.cpp:762-769) |
| Lottie2Gifs.Lottie2Gif.OnStarted | AXrLottie/src/main/java/com/aghajari/rlottie/AXrLottie2Gif.java:48-51 | only the running flag is set |
| Lottie2Gifs.Lottie2Gif.OnProgress | AXrLottie/src/main/java/com/aghajari/rlottie/AXrLottie2Gif.java:54-58 | only the reported frame and total change |
| Lottie2Gifs.Lottie2Gif.OnFinished | AXrLottie/src/main/java/com/aghajari/rlottie/AXrLottie2Gif.java:61-66 | the fields move as Lottie2Gifs.Finished |
| Lottie2Gifs.Lottie2Gif.Destroy | AXrLottie/src/main/java/com/aghajari/rlottie/AXrLottie2Gif.java:118-121 | the fields move as Lottie2Gifs.Destroyed |
| Lottie2Gifs.Lottie2Gif.BuildAgain | AXrLottie/src/main/java/com/aghajari/rlottie/AXrLottie2Gif.java:76-83 | a running conversion gives false without work; a destroyed one throws RuntimeException; otherwise it builds again and returns the successful flag, which an asynchronous build has not yet updated |
| Natives.Swizzled | AXrLottie/src/main/cpp/lottie.cpp:306-319 | over the first height x bytesPerLine bytes, bytes 0 and 2 of every 4-byte pixel change places and bytes 1 and 3 stay; bytes beyond are untouched |
| Natives.SwizzleInvolution | AXrLottie/src/main/cpp/lottie.cpp:306-319 | swizzling twice gives back the original buffer |
| Natives.ConvertToCanvasFormat | AXrLottie/src/main/cpp/lottie.cpp:306-319 | the in-place loop leaves exactly the swizzled buffer |
| Natives.ConvertTwice | AXrLottie/src/main/cpp/lottie.cpp:306-319 | converting a buffer twice in place restores it |
| Natives.SizeSuffix | AXrLottie/src/main/cpp/lottie.cpp:51-56 | the appended "<w>_<h>" and extension contain no '/', so they stay in the file name |
| Natives.NoSlashInInt | AXrLottie/src/main/cpp/lottie.cpp:51 | a decimal integer contains no '/' |
| Natives.CachePathInCacheDir | AXrLottie/src/main/cpp/lottie.cpp:43-56 | for a path with a '/', the precache file lies directly in the "acache" directory next to the source file |
| Natives.SpliceParent | AXrLottie/src/main/cpp/lottie.cpp:45-50 | inserting "/acache" before the last '/' and appending a name part moves the file into that directory under the original parent |
| Natives.CachePathSeparatesFpsLimit | AXrLottie/src/main/cpp/lottie.cpp:52-56 | a frame-limited and an unlimited animation of the same file and size never share a precache file |
| Natives.LottieInfo.constructor | AXrLottie/src/main/cpp/lottie.cpp:35-74 | a loaded handle keeps the animation's frame count and rate; with precache, the cache is complete exactly when its first byte reads as non-zero, and then the two header sizes are kept and frames are read from offset 9 |
| Natives.LottieInfo.MetaData | AXrLottie/src/main/cpp/lottie.cpp:76-82 | the data array holds the frame count, the frame rate and 1 exactly when a cache must still be made |
| Natives.LottieInfo.FramesPerUpdate | AXrLottie/src/main/cpp/lottie.cpp:204 | one cached frame stands for two exactly when the rate is limited and the animation has at least 60 fps (see also line 249) |
| Natives.LottieInfo.BufferSizeFor | AXrLottie/src/main/cpp/lottie.cpp:265-275 | the decompression buffer is never smaller than the largest frame; one already that large is kept |
| Natives.GetFrame | AXrLottie/src/main/cpp/lottie.cpp:243-304 | a null handle or bitmap gives 0; otherwise -1 exactly when the cache is being built and the frame is beyond it, else the frame itself; the offset advances past a frame read from the cache and returns to 9 after the last one; a frame not read is rendered unless the next frame is known to be cached |
| Natives.ReadCachedFrame | AXrLottie/src/main/cpp/lottie.cpp:262-290 | the cache is read only when its sizes match the bitmap; a stored frame that fits the buffer is consumed and moves the offset by 4 plus its size; the last frame resets the offset to 9 |
| Natives.NativeHeap.constructor | AXrLottie/src/main/cpp/lottie.cpp:115-121 | no handle is live at first |
| Natives.NativeHeap.Create | AXrLottie/src/main/cpp/lottie.cpp:20-41 | create gives null exactly when loading fails or the animation has more than 60 fps or 600 frames; otherwise a new live handle with the precache path |
| Natives.NativeHeap.Destroy | AXrLottie/src/main/cpp/lottie.cpp:115-121 | destroying null does nothing; any other handle stops being live |
| Options.PropertyList.constructor | AXrLottie/src/main/java/com/aghajari/rlottie/AXrLottieOptions.java:111 | a new property list is empty |
| Options.LottieOptions.constructor | AXrLottie/src/main/java/com/aghajari/rlottie/AXrLottieOptions.java:28-49 | new options hold a copy of the library's default options when some are set, and the field initialisers otherwise |
| Options.LottieOptions.Apply | AXrLottie/src/main/java/com/aghajari/rlottie/AXrLottieOptions.java:181-203 | applying null or the object itself changes nothing; applying another object makes all seventeen fields equal to its fields, the property list shared by reference |
| Options.LottieOptions.Assign | AXrLottie/src/main/java/com/aghajari/rlottie/AXrLottieOptions.java:184-200 | all seventeen fields take the given values |
| Options.LottieOptions.SetCacheName | AXrLottie/src/main/java/com/aghajari/rlottie/AXrLottieOptions.java:55-64 | a null or empty name throws NullPointerException and changes nothing (the inner test repeats the outer one, so its other branch is dead); any other name is stored and nothing else changes |
| Options.LottieOptions.SetSize | AXrLottie/src/main/java/com/aghajari/rlottie/AXrLottieOptions.java:69-76 | a side that is not positive throws RuntimeException before either side is stored; otherwise exactly the two sides change |
| Options.LottieOptions.SetCacheEnabled | AXrLottie/src/main/java/com/aghajari/rlottie/AXrLottieOptions.java:81-84 | only the cache flag changes |
| Options.LottieOptions.SetSpeed | AXrLottie/src/main/java/com/aghajari/rlottie/AXrLottieOptions.java:86-89 | only the speed changes |
| Options.LottieOptions.SetFpsLimit | AXrLottie/src/main/java/com/aghajari/rlottie/AXrLottieOptions.java:94-97 | only the frame-limit flag changes |
| Options.LottieOptions.SetAllowDecodeSingleFrame | AXrLottie/src/main/java/com/aghajari/rlottie/AXrLottieOptions.java:99-102 | only the first-decode flag changes |
| Options.LottieOptions.AddLayerProperty | AXrLottie/src/main/java/com/aghajari/rlottie/AXrLottieOptions.java:110-114 | the list is created on first use and the update appended in place, so every options object sharing the list sees it; no other field changes |
| Options.LottieOptions.SetCustomEndFrame | AXrLottie/src/main/java/com/aghajari/rlottie/AXrLottieOptions.java:116-119 | only the end frame changes |
| Options.LottieOptions.SetCustomStartFrame | AXrLottie/src/main/java/com/aghajari/rlottie/AXrLottieOptions.java:121-124 | only the start frame changes |
| Options.LottieOptions.SetSelectedMarker | AXrLottie/src/main/java/com/aghajari/rlottie/AXrLottieOptions.java:126-129 | only the marker changes |
| Options.LottieOptions.SetAutoRepeat | AXrLottie/src/main/java/com/aghajari/rlottie/AXrLottieOptions.java:136-139 | only the repeat count changes |
| Options.LottieOptions.SetAutoRepeatEnabled | AXrLottie/src/main/java/com/aghajari/rlottie/AXrLottieOptions.java:146-148 | the repeat count becomes AUTO_REPEAT_INFINITE when enabled and 0 otherwise; nothing else changes |
| Options.LottieOptions.SetAutoRepeatMode | AXrLottie/src/main/java/com/aghajari/rlottie/AXrLottieOptions.java:156-159 | only the repeat mode changes |
| Options.LottieOptions.SetAutoStart | AXrLottie/src/main/java/com/aghajari/rlottie/AXrLottieOptions.java:161-164 | only the auto-start flag changes |
| Options.LottieOptions.SetOnFrameChangedListener | AXrLottie/src/main/java/com/aghajari/rlottie/AXrLottieOptions.java:166-169 | only the frame listener changes |
| Options.LottieOptions.SetOnFrameRenderListener | AXrLottie/src/main/java/com/aghajari/rlottie/AXrLottieOptions.java:171-174 | only the render listener changes |
| Options.LottieOptions.SetOnLottieLoaderListener | AXrLottie/src/main/java/com/aghajari/rlottie/AXrLottieOptions.java:176-179 | only the loader listener changes |
| Options.LottieOptions.Build | AXrLottie/src/main/java/com/aghajari/rlottie/AXrLottieOptions.java:205-207 | building from options always throws RuntimeException |
| Options.ApplyChain | AXrLottie/src/main/java/com/aghajari/rlottie/AXrLottieOptions.java:181-203 | copying is idempotent and leaves its source unchanged: applying the same object twice, or an object to itself, changes nothing, and a third object copied from the copy equals the original |
| Registries.NetworkFetcher.constructor | AXrLottie/src/main/java/com/aghajari/rlottie/AXrLottie.java:127 | the wrapper holds the fetcher it was given (see also line 178) |
| Registries.KeyOf | AXrLottie/src/main/java/com/aghajari/rlottie/AXrLottie.java:83 | a handler is registered under its extension lower-cased letter by letter (see also line 87) |
| Registries.Lottie.constructor | AXrLottie/src/main/java/com/aghajari/rlottie/AXrLottie.java:57-67 | the registry starts empty, with network caching on and no default options, fetcher or cache manager |
| Registries.Lottie.Init | AXrLottie/src/main/java/com/aghajari/rlottie/AXrLottie.java:74-75 | init registers the zip handler, then the JSON handler, each under its lower-cased extension, and changes no other setting |
| Registries.Lottie.AddFileExtension | AXrLottie/src/main/java/com/aghajari/rlottie/AXrLottie.java:82-84 | a handler replaces whatever was registered under its lower-cased extension |
| Registries.Lottie.RemoveFileExtension | AXrLottie/src/main/java/com/aghajari/rlottie/AXrLottie.java:86-88 | only the handler's lower-cased key is removed, whichever handler is registered under it |
| Registries.Lottie.SetDefaultOptions | AXrLottie/src/main/java/com/aghajari/rlottie/AXrLottie.java:99-101 | the default options read back as the ones set |
| Registries.Lottie.SetNetworkCacheEnabled | AXrLottie/src/main/java/com/aghajari/rlottie/AXrLottie.java:150-156 | the cache flag reads back as the value set |
| Registries.Lottie.SetNetworkFetcher | AXrLottie/src/main/java/com/aghajari/rlottie/AXrLottie.java:126-128 | a new wrapper is installed around the given fetcher, or around the built-in one for null |
| Registries.Lottie.GetNetworkFetcher | AXrLottie/src/main/java/com/aghajari/rlottie/AXrLottie.java:171-183 | the fetcher set before is returned; otherwise one over the built-in fetcher is created once and returned from then on |
| Registries.Lottie.GetLottieCacheManager | AXrLottie/src/main/java/com/aghajari/rlottie/AXrLottie.java:185-199 | the cache manager is created once, over cacheDir/lottie_network and cacheDir/lottie, and the same object is returned from then on |
| Registries.Lottie.SetNetworkCacheDir | AXrLottie/src/main/java/com/aghajari/rlottie/AXrLottie.java:134-138 | a path that is not a directory throws IllegalArgumentException before the manager is touched; otherwise the manager, created if need be, gets the new network root and keeps its local root |
| Registries.Lottie.SetLocalCacheDir | AXrLottie/src/main/java/com/aghajari/rlottie/AXrLottie.java:144-148 | a path that is not a directory throws IllegalArgumentException before the manager is touched; otherwise the manager gets the new local root and keeps its network root |
| Registries.Lottie.SetMaxNetworkCacheSize | AXrLottie/src/main/java/com/aghajari/rlottie/AXrLottie.java:162-164 | a size that is not positive is refused; otherwise the download cache gets that maximum |
| Registries.Lottie.ClearCache | AXrLottie/src/main/java/com/aghajari/rlottie/AXrLottie.java:166-169 | the tasks in flight and the cached downloads are forgotten and the manager is kept; a file survives exactly when it lay neither in nor as either cache root, keeping its content; the new disk is exactly the local clear followed by the network clear, no directory besides the two roots is added, both roots are gone when no old subdirectory lay in them, and for unrelated roots each subdirectory goes exactly when nothing lay in it and each root goes exactly when all of them do |
| Registries.SameKeyReplaces | AXrLottie/src/main/java/com/aghajari/rlottie/AXrLottie.java:82-88 | two handlers whose extensions differ only in case share one key: the later replaces the earlier, and removing either empties the key |
| Registries.KeyIgnoresCase | AXrLottie/src/main/java/com/aghajari/rlottie/AXrLottie.java:83 | extensions that agree letter by letter up to case get the same key (see also line 87) |
| Handlers.UnpackTargetInRoot | AXrLottie/src/main/java/com/aghajari/rlottie/extension/GZipFileExtension.java:77 | the temp JSON file both unpacking handlers write lies directly in the cache root and is longer than it (see also ZipFileExtension.java:58) |
| Handlers.StreamToFile | AXrLottie/src/main/java/com/aghajari/rlottie/extension/AXrFileExtension.java:49-51 | the base handler writes nothing and returns null; the gzip handler ensures the root and writes the inflated stream to the temp JSON file of the key, or nothing when the header is bad, and closes the stream (see also GZipFileExtension.java:74-78) |
| Handlers.FileToFile | AXrLottie/src/main/java/com/aghajari/rlottie/extension/AXrFileExtension.java:53-59 | a handler that does not read streams returns its input untouched; the gzip handler fails with FileNotFoundException and changes nothing exactly when the input is missing, and otherwise unpacks into the temp JSON file, with the exact new files and directories and the stream closed; the zip handler has the clauses of `ZipFileToFile` |
| Handlers.ZipFileToFile | AXrLottie/src/main/java/com/aghajari/rlottie/extension/ZipFileExtension.java:55-60 | the target is named, and its root ensured, before the input is opened; a missing input fails with FileNotFoundException and changes only the root; an unpacked archive is deleted and the target holds the first usable entry; no file besides the target, the root and the input changes, the input too survives a null result, directories change only at the target, the root and the input, and with no selected entry only the root is added |
| Handlers.UnpackInRoot | AXrLottie/src/main/java/com/aghajari/rlottie/extension/ZipFileExtension.java:57-59 | the zip stream is unpacked into a target lying in an ensured root: the `FromZipStream` result and contents, stated against the disk from before the root was made |

## Left out

- The native renderer and codecs: rlottie rendering and loading, LZ4, GIF encoding, gzip (RFC 1952) and zip inflation are foreign code. Their results are parameters, such as an inflated stream, the entries of an archive or the frame index returned by `getFrame`.
- `createWithJson` (lottie.cpp:86-113): it has no fps or frame limits, sets `data[2]` to 0 and does no precaching. It is not modelled separately from `create`.
- The JNI property bridges (lottie.cpp:368-755), `AXrLottieProperty.apply` and `AXrLottieNative`: they only dispatch to native code.
- The native cache-writer thread (lottie.cpp:124-241), together with its mutex and condition variables: it exists for concurrency. The drawable's cache generation task is modelled only as steps: the flag from `create` (`NativeLoad.createCache`), the posted `GenerateCache` runnable, the queued and started states and `RunCacheTask`. The `ThreadPoolExecutor` and the native writing of the cache file are left out.
- Threads, handlers and volatile fields: each thread hop is a step that can be interleaved with the others. Blocking, including the `CountDownLatch` of the synchronous seek, is not modelled.
- Timing and floats: `draw()` timing, `SystemClock` and the screen refresh rate (`loadScreenRefreshRate`) are left out, and so are canvas scaling and density.
  - `timeBetweenFrames` is computed with integer division, which equals the float expression for the frame rates `create` accepts.
  - The options' `speed` is a real that is only stored.
- `AUTO_REPEAT_INFINITE`: its declaration is not part of this model, so the value -1 is used for "repeat forever".
- `JsonFileExtension` is not part of this model. It is modelled as a handler with extension ".json" and the base class defaults.
- Integer width: three source behaviours are not modelled.
  - The 32-bit overflow of `w * h * 4` in the buffer size (lottie.cpp).
  - The `uint32_t` wrap of `fileOffset`.
  - The signed/unsigned comparison in the frame gate. Values are unbounded integers within the ranges `create` admits.
- The `mkdir` side effect in `create` when the precache directory is missing. `ConvertToCanvasFormat` takes a buffer of whole pixels.
- `secondNativePtr` in the drawable: it is never assigned a nonzero value in the code shown.
- In `AXrLottie2Gif`, the following are not modelled:
  - forwarding to the user's listener;
  - the builder setters (lines 197-292), which only store values;
  - the `Builder(AXrLottieDrawable)` constructor (lines 184-190), which scales by density.
- `AXrLottie.configureModelCacheSize` and the refresh-rate loading: the first configures rlottie's model cache and the second is a display query. `getSupportedFileExtensions` only returns the map.
- In the drawable, the following are not modelled:
  - `invalidateOnProgressSet` and `isInvalid`;
  - `frameWaitSync`;
  - the frame-changed and render listeners, `lastFrameTime` and painting;
  - `getLottieFrameAt` and `getLayerInfo` (native queries);
  - `load(File)` and the `readStream`/`readRes` helpers (stream I/O).
- Reverse repeat mode, markers, speed and the custom start frame of the drawable: they appear in the options but not in the drawable code shown.
- The filesystem is a map from path to bytes plus a set of directories, with a log of closed streams. Permissions, partial writes and failures other than a missing file are not modelled.
- `AXrLottieResult.hashCode` is not modelled.
- The older `network/` copies of the handler classes are not modelled; `network/AXrLottieResult.java` is the same as the decoder version and is modelled once.
- `AXrStreamParser` and `AXrNetworkFetcher.parseStream` are not modelled: which handler they pick depends on `HashMap` iteration order.
- The HTTP transport, the Glide integration, the image view, the app's activities and the configuration plumbing are not modelled.
- Extensions.CanParseContent: a `Custom` handler answers with the base class's default (false). A subclass such as the sample's `SevenZipFileExtension` overrides it, and that override is not modelled.
- Extensions.WillReadStream: a `Custom` handler answers with the base class's default (false), whatever a subclass overrides.
- CacheManagers.CacheManager.DeleteNetworkFiles: which listed directories survive (exactly those with something in them) is stated only when no registered extension contains '/'. Otherwise one listed path may lie inside another, and only the bounds on the directories are given.
- CacheManagers.CacheManager.FetchURLFromCache: the same restriction on the directory clause, for the deletion path.
- Archives.FromZipStream: when the scan ends with a null result after earlier selected entries, what those attempts left at the output (a directory or a partial file) is bounded to the output and its parent directory, not stated exactly.
- Handlers.ZipFileToFile: the same bound on what a null result leaves at the target.
- Handlers.FileToFile: the same bound for the zip handler.
- Handlers.FileToFile: a `Custom` handler runs the base class's `toFile`, which returns the input untouched. Overrides such as the 7z unpacking of `SevenZipFileExtension` are not modelled.
- DrawableModel.ProgressFrame: the product `metaData[0] * progress` is exact real arithmetic, but Java computes it in 32-bit float before truncating. The two can differ by one frame: 0.29f times 100 gives 29 in Java, and the exact product of the model gives 28 when the input is the float's exact value.
- DrawableModel.SetProgress: it inherits the exact-real frame computation of ProgressFrame in place of Java's float product.
- Strings.LowerChar: only 'A' to 'Z' are lower-cased. Java's `toLowerCase()` is Unicode-aware and depends on the default locale.
- Strings.ToLower: it is ASCII only, like LowerChar.
- Strings.EqualsIgnoreCase: it compares after ASCII lower-casing. Java's `equalsIgnoreCase` also folds non-ASCII letters.
- Strings.StringHash: the hash runs over the characters as scalar values. Java hashes UTF-16 code units, so characters outside the Basic Multilingual Plane hash differently.
- Strings.ParseInt: only ASCII digits are accepted. Java's `Character.digit` also accepts other Unicode decimal digits.
- Registries.KeyOf: the extension is lower-cased by ASCII only, like ToLower.
- Disks.Disk.Mkdirs: only the requested directory is added. Missing ancestors are not created, and a plain file in the parent chain does not make it fail.
- The `androidx` `LruCache` is modelled as a recency-ordered bounded sequence of entries. The library itself is not modelled.

## Findings

| source | as written | input that shows it | evidently intended | confidence | as-written member | corrected member |
|---|---|---|---|---|---|---|
| AXrLottie/src/main/java/com/aghajari/rlottie/AXrLottieCacheManager.java:139 | the temp file is promoted by removing ".temp" from its whole absolute path | a cache directory such as /data/com.temperature/cache, whose path itself contains ".temp" | remove the infix from the file name only, keeping the file in its cache root | not executed | CacheNames.PromotedPathAsWrittenMisplaces | CacheNames.PromotedCacheFile |
| AXrLottie/src/main/java/com/aghajari/rlottie/decoder/AXrLottieResult.java:71-73 | two failure results compare this result's exception text with itself | a result holding an IOException and one holding a NumberFormatException compare equal | compare this exception's text with the other result's | not executed | LottieResults.DifferentFailuresCompareEqualAsWritten | LottieResults.EqualsMeaning |
| AXrLottie/src/main/java/com/aghajari/rlottie/AXrLottieDrawable.java:229-231 | the frame runnable returns without posting anything once the drawable is recycled | recycle() while a decode is queued: destroy is deferred, no completion ever runs, and the native handle is never destroyed | post the no-frame completion so that the deferred destroy happens | not executed | DrawableModel.RecycleWhileQueuedLeaksAsWritten | DrawableModel.RecycleWhileQueuedReleases |
| AXrLottie/src/main/java/com/aghajari/rlottie/AXrLottieDrawable.java:477-482 | setCustomEndFrame tests the old end frame against the frame count | end frame 200 on a 100-frame animation is accepted; then setCustomEndFrame(50) is ignored | reject a new end frame beyond the frame count | not executed | DrawableModel.CustomEndFrameLockAsWritten | DrawableModel.CustomEndFrameBounded |
| AXrLottie/src/main/java/com/aghajari/rlottie/AXrLottieDrawable.java:651-653 | setCurrentFrame(frame, async) always forwards async = true | setCurrentFrame(f, false) while a decoded frame waits: the stale frame is shown next | forward the caller's async flag | not executed | DrawableModel.SyncSeekKeepsStaleFrameAsWritten | DrawableModel.SyncSeekDropsStaleFrame |
