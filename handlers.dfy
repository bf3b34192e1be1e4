/** The `toFile` overloads of the file-type handlers: where the content a
    handler unpacks is written. The zip and gzip handlers both unpack into
    the temp JSON cache file of the same key; every other handler keeps
    the downloaded file as it is. */
module Handlers {
  import opened Wrappers
  import opened Extensions
  import opened Disks
  import opened CacheNames
  import opened CacheManagers
  import opened Archives

  /** The temp JSON cache file both unpacking handlers write. */
  function UnpackTarget(m: CacheManager, cache: string, fromNetwork: bool): Path
    reads m
  {
    CacheFile(m.Root(fromNetwork), cache, JSON, fromNetwork, true)
  }

  /** The unpack target lies directly in its root. */
  lemma UnpackTargetInRoot(m: CacheManager, cache: string, fromNetwork: bool)
    ensures Parent(UnpackTarget(m, cache, fromNetwork)) == Some(m.Root(fromNetwork))
    ensures |UnpackTarget(m, cache, fromNetwork)| > |m.Root(fromNetwork)|
  {
    CacheFileInRoot(m.Root(fromNetwork), cache, JSON, fromNetwork, true);
  }

  /** `toFile(cache, stream, fromNetwork)`: null for the base class; the
      gzip handler inflates the stream into the unpack target. */
  method StreamToFile(m: CacheManager, e: FileExt, cache: string, s: GzStream, fromNetwork: bool) returns (r: Option<Path>)
    requires m.Valid()
    modifies m.disk
    ensures m.Valid()
    ensures e.kind != GZip ==>
              r.None? && m.disk.files == old(m.disk.files) && m.disk.dirs == old(m.disk.dirs) && m.disk.closed == old(m.disk.closed)
    ensures e.kind == GZip ==> r == Some(UnpackTarget(m, cache, fromNetwork))
    ensures e.kind == GZip ==> m.disk.dirs == old(m.disk.dirs) + {m.Root(fromNetwork)}
    ensures e.kind == GZip ==> m.disk.closed == if s.headerOk then old(m.disk.closed) + [s.inflated.id] else old(m.disk.closed)
    ensures e.kind == GZip ==>
              var f := UnpackTarget(m, cache, fromNetwork);
              m.disk.files == if s.headerOk && f !in old(m.disk.dirs)
                              then (old(m.disk.files) - {m.Root(fromNetwork)})[f := Concat(s.inflated.chunks)]
                              else old(m.disk.files) - {m.Root(fromNetwork)}
  {
    if e.kind != GZip {
      return None;
    }
    var output := m.GetCachedFile(cache, JSON, fromNetwork, true);
    UnpackTargetInRoot(m, cache, fromNetwork);
    var f := GZipToFile(m.disk, s, output);
    r := Some(f);
  }

  /** `toFile(cache, input, fromNetwork)`: a handler that does not read
      streams returns the input file; the gzip handler opens the input
      (FileNotFoundException when it is not a file) and inflates it; the
      zip handler routes the archive's first JSON entry into the unpack
      target. `gz` and `zip` are what reading the input yields. */
  method FileToFile(m: CacheManager, e: FileExt, cache: string, input: Path, fromNetwork: bool, gz: GzStream, zip: ZipArchive)
    returns (r: Result<Option<Path>>)
    requires m.Valid() && WellRooted(m.disk, UnpackTarget(m, cache, fromNetwork))
    modifies m.disk
    ensures m.Valid()
    ensures e.kind != GZip && e.kind != Zip ==>
              r == Success(Some(input)) && m.disk.files == old(m.disk.files) && m.disk.dirs == old(m.disk.dirs)
    ensures e.kind == GZip ==> (r.Success? <==> input in old(m.disk.files))
    ensures e.kind == GZip && r.Success? ==> r.value == Some(UnpackTarget(m, cache, fromNetwork))
    ensures e.kind == Zip ==> (r.Success? <==> input in old(m.disk.files) && input != m.Root(fromNetwork))
    ensures e.kind == Zip && r.Success? && r.value.Some? ==>
              r.value.value == UnpackTarget(m, cache, fromNetwork) && input !in m.disk.files
    ensures e.kind == Zip && r.Success? && r.value.Some? && input != UnpackTarget(m, cache, fromNetwork) ==>
              FirstUsable(zip.entries).Some? && UnpackTarget(m, cache, fromNetwork) in m.disk.files &&
              m.disk.files[UnpackTarget(m, cache, fromNetwork)] == Concat(zip.entries[FirstUsable(zip.entries).value].data.chunks)
    ensures r.Failure? ==> r.error == IO("FileNotFoundException")
    ensures e.kind != GZip && e.kind != Zip ==> m.disk.closed == old(m.disk.closed)
    ensures e.kind == GZip && r.Failure? ==>
              m.disk.files == old(m.disk.files) && m.disk.dirs == old(m.disk.dirs) && m.disk.closed == old(m.disk.closed)
    ensures e.kind == GZip && r.Success? ==>
              m.disk.dirs == old(m.disk.dirs) + {m.Root(fromNetwork)} &&
              m.disk.closed == (if gz.headerOk then old(m.disk.closed) + [gz.inflated.id] else old(m.disk.closed))
    ensures e.kind == GZip && r.Success? ==>
              var f := UnpackTarget(m, cache, fromNetwork);
              m.disk.files == if gz.headerOk && f !in old(m.disk.dirs)
                              then (old(m.disk.files) - {m.Root(fromNetwork)})[f := Concat(gz.inflated.chunks)]
                              else old(m.disk.files) - {m.Root(fromNetwork)}
    ensures e.kind == Zip ==> m.disk.closed == if r.Success? then old(m.disk.closed) + [zip.id] else old(m.disk.closed)
    ensures e.kind == Zip && r.Failure? ==>
              m.disk.files == old(m.disk.files) - {m.Root(fromNetwork)} && m.disk.dirs == old(m.disk.dirs) + {m.Root(fromNetwork)}
    ensures e.kind == Zip ==>
              FilesKeptBesides(old(m.disk.files), m.disk.files, {UnpackTarget(m, cache, fromNetwork), m.Root(fromNetwork), input})
    ensures e.kind == Zip && !(r.Success? && r.value.Some?) ==>
              FilesKeptBesides(old(m.disk.files), m.disk.files, {UnpackTarget(m, cache, fromNetwork), m.Root(fromNetwork)})
    ensures e.kind == Zip ==>
              && m.Root(fromNetwork) in m.disk.dirs
              && (old(m.disk.dirs) + {m.Root(fromNetwork)}) - {UnpackTarget(m, cache, fromNetwork), input} <= m.disk.dirs
              && m.disk.dirs <= old(m.disk.dirs) + {m.Root(fromNetwork), UnpackTarget(m, cache, fromNetwork)}
    ensures e.kind == Zip && r.Success? && r.value.None? ==>
              (old(m.disk.dirs) + {m.Root(fromNetwork)}) - {UnpackTarget(m, cache, fromNetwork)} <= m.disk.dirs
    ensures e.kind == Zip && r.Success? && (forall j :: 0 <= j < |zip.entries| ==> !Selected(zip.entries[j])) ==>
              m.disk.files == old(m.disk.files) - {m.Root(fromNetwork)} && m.disk.dirs == old(m.disk.dirs) + {m.Root(fromNetwork)}
  {
    if e.kind == GZip {
      if input !in m.disk.files {
        return Failure(IO("FileNotFoundException"));
      }
      var f := StreamToFile(m, e, cache, gz, fromNetwork);
      return Success(f);
    } else if e.kind == Zip {
      r := ZipFileToFile(m, cache, input, fromNetwork, zip);
    } else {
      return Success(Some(input));
    }
  }

  /** `ZipFileExtension.toFile(cache, input, fromNetwork)`: the unpack
      target is named (ensuring its root) before the input is opened. */
  method ZipFileToFile(m: CacheManager, cache: string, input: Path, fromNetwork: bool, zip: ZipArchive)
    returns (r: Result<Option<Path>>)
    requires m.Valid() && WellRooted(m.disk, UnpackTarget(m, cache, fromNetwork))
    modifies m.disk
    ensures m.Valid()
    ensures r.Success? <==> input in old(m.disk.files) && input != m.Root(fromNetwork)
    ensures r.Failure? ==> r.error == IO("FileNotFoundException")
    ensures r.Success? && r.value.Some? ==>
              r.value.value == UnpackTarget(m, cache, fromNetwork) && input !in m.disk.files
    ensures r.Success? && r.value.Some? && input != UnpackTarget(m, cache, fromNetwork) ==>
              FirstUsable(zip.entries).Some? && UnpackTarget(m, cache, fromNetwork) in m.disk.files &&
              m.disk.files[UnpackTarget(m, cache, fromNetwork)] == Concat(zip.entries[FirstUsable(zip.entries).value].data.chunks)
    ensures m.disk.closed == if r.Success? then old(m.disk.closed) + [zip.id] else old(m.disk.closed)
    ensures r.Failure? ==> m.disk.files == old(m.disk.files) - {m.Root(fromNetwork)} && m.disk.dirs == old(m.disk.dirs) + {m.Root(fromNetwork)}
    ensures FilesKeptBesides(old(m.disk.files), m.disk.files, {UnpackTarget(m, cache, fromNetwork), m.Root(fromNetwork), input})
    ensures !(r.Success? && r.value.Some?) ==>
              FilesKeptBesides(old(m.disk.files), m.disk.files, {UnpackTarget(m, cache, fromNetwork), m.Root(fromNetwork)})
    ensures m.Root(fromNetwork) in m.disk.dirs
    ensures (old(m.disk.dirs) + {m.Root(fromNetwork)}) - {UnpackTarget(m, cache, fromNetwork), input} <= m.disk.dirs
    ensures m.disk.dirs <= old(m.disk.dirs) + {m.Root(fromNetwork), UnpackTarget(m, cache, fromNetwork)}
    ensures r.Success? && r.value.None? ==> (old(m.disk.dirs) + {m.Root(fromNetwork)}) - {UnpackTarget(m, cache, fromNetwork)} <= m.disk.dirs
    ensures r.Success? && (forall j :: 0 <= j < |zip.entries| ==> !Selected(zip.entries[j])) ==>
              m.disk.files == old(m.disk.files) - {m.Root(fromNetwork)} && m.disk.dirs == old(m.disk.dirs) + {m.Root(fromNetwork)}
  {
    var root := m.Root(fromNetwork);
    ghost var target := UnpackTarget(m, cache, fromNetwork);
    UnpackTargetInRoot(m, cache, fromNetwork);
    ghost var files0, dirs0 := m.disk.files, m.disk.dirs;
    assert target !in dirs0 ==> forall q :: q in files0 || q in dirs0 ==> Parent(q) != Some(target);
    var output := m.GetCachedFile(cache, JSON, fromNetwork, true);
    assert root == m.Root(fromNetwork) && output == target;
    assert RootEnsured(files0, dirs0, m.disk.files, m.disk.dirs, root);
    RootAddsNoEntry(files0, dirs0, root, target);
    assert WellRooted(m.disk, output);
    r := UnpackInRoot(m.disk, files0, dirs0, root, input, output, zip);
    assert root == m.Root(fromNetwork) && target == UnpackTarget(m, cache, fromNetwork);
  }

  /** The rest of the zip handler's `toFile` once the root getter has run
      on the disk `files0`/`dirs0`: open the input, then unpack it. */
  method UnpackInRoot(d: Disk, ghost files0: map<Path, Content>, ghost dirs0: set<Path>, root: Path, input: Path, output: Path,
                      zip: ZipArchive)
    returns (r: Result<Option<Path>>)
    requires d.Valid() && RootEnsured(files0, dirs0, d.files, d.dirs, root)
    requires Parent(output) == Some(root) && WellRooted(d, output)
    modifies d
    ensures d.Valid()
    ensures r.Success? <==> input in files0 && input != root
    ensures r.Failure? ==> r.error == IO("FileNotFoundException")
    ensures r.Success? && r.value.Some? ==> r.value.value == output && input !in d.files
    ensures r.Success? && r.value.Some? && input != output ==>
              FirstUsable(zip.entries).Some? && output in d.files &&
              d.files[output] == Concat(zip.entries[FirstUsable(zip.entries).value].data.chunks)
    ensures d.closed == if r.Success? then old(d.closed) + [zip.id] else old(d.closed)
    ensures r.Failure? ==> d.files == files0 - {root} && d.dirs == dirs0 + {root}
    ensures FilesKeptBesides(files0, d.files, {output, root, input})
    ensures !(r.Success? && r.value.Some?) ==> FilesKeptBesides(files0, d.files, {output, root})
    ensures root in d.dirs
    ensures (dirs0 + {root}) - {output, input} <= d.dirs <= dirs0 + {root, output}
    ensures r.Success? && r.value.None? ==> (dirs0 + {root}) - {output} <= d.dirs
    ensures r.Success? && (forall j :: 0 <= j < |zip.entries| ==> !Selected(zip.entries[j])) ==>
              d.files == files0 - {root} && d.dirs == dirs0 + {root}
  {
    ghost var files1, dirs1 := d.files, d.dirs;
    if input !in d.files {
      return Failure(IO("FileNotFoundException"));
    }
    assert input != root by {
      assert input in files1 && root in dirs1;
    }
    assert output != root && Parent(output).value == root;
    var f := FromZipStream(d, input, output, zip);
    r := Success(f);
    UnpackedBesideRoot(files0, dirs0, files1, dirs1, d.files, d.dirs, root, output, input, f.Some?);
  }

  /** What unpacking leaves, seen from before the root getter: besides the
      output and the archive, only the root changed. */
  lemma UnpackedBesideRoot(files0: map<Path, Content>, dirs0: set<Path>, files1: map<Path, Content>, dirs1: set<Path>,
                           files: map<Path, Content>, dirs: set<Path>, root: Path, output: Path, input: Path, some: bool)
    requires files1 == files0 - {root} && dirs1 == dirs0 + {root} && output != root && input != root
    requires FilesKeptBesides(files1, files, {output, input})
    requires !some ==> FilesKeptBesides(files1, files, {output})
    requires dirs1 - {output, input} <= dirs <= dirs1 + {output, root}
    requires !some ==> dirs1 - {output} <= dirs
    ensures FilesKeptBesides(files0, files, {output, root, input})
    ensures !some ==> FilesKeptBesides(files0, files, {output, root})
    ensures root in dirs
    ensures (dirs0 + {root}) - {output, input} <= dirs <= dirs0 + {root, output}
    ensures !some ==> (dirs0 + {root}) - {output} <= dirs
  {
  }

  /** Ensuring a root adds no entry to a path below it. */
  lemma RootAddsNoEntry(files: map<Path, Content>, dirs: set<Path>, root: Path, p: Path)
    requires |root| < |p|
    ensures (p !in dirs ==> forall q :: q in files || q in dirs ==> Parent(q) != Some(p)) ==>
              (p !in dirs + {root} ==> forall q :: q in files - {root} || q in dirs + {root} ==> Parent(q) != Some(p))
  {
    assert Parent(root) != Some(p);
  }
}
