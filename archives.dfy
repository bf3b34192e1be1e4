/** `ZipCompositionFactory` and the static gzip copy: which zip entry
    becomes the animation file, the guards of writing it out, and the
    decompressing copy of a gzip stream. Decompression itself is not
    modelled: an archive is given as the entries it yields, a gzip stream
    as whether its header reads and the chunks it inflates to. */
module Archives {
  import opened Wrappers
  import opened Strings
  import opened Disks

  const MACOSX_MARKER: string := "__MACOSX"
  const JSON_INFIX: string := ".json"

  /** A `ZipEntry` and the stream of its data. */
  datatype ZipEntry = ZipEntry(name: string, isDirectory: bool, data: Stream)

  /** A `ZipInputStream`: the entries `getNextEntry` returns before it
      returns null or throws (both end the scan the same way). */
  datatype ZipArchive = ZipArchive(id: nat, entries: seq<ZipEntry>)

  /** The scan considers an entry: not under "__MACOSX" (case-sensitive)
      and, in lower case, containing ".json". */
  predicate Selected(e: ZipEntry) {
    !Contains(e.name, MACOSX_MARKER) && Contains(ToLower(e.name), JSON_INFIX)
  }

  /** A selected entry that `toFile` writes out once the output is ready:
      a plain entry whose data reads to the end. */
  predicate Usable(e: ZipEntry) {
    Selected(e) && !e.isDirectory && !e.data.fails
  }

  /** The index of the first usable entry. */
  function FirstUsable(es: seq<ZipEntry>): (r: Option<nat>)
    ensures r.Some? ==> r.value < |es| && Usable(es[r.value])
    ensures r.Some? ==> forall j :: 0 <= j < r.value ==> !Usable(es[j])
    ensures r.None? <==> forall j :: 0 <= j < |es| ==> !Usable(es[j])
  {
    if es == [] then None
    else if Usable(es[0]) then Some(0)
    else match FirstUsable(es[1..])
      case None => None
      case Some(k) => Some(k + 1)
  }

  /** macOS resource entries are skipped even when they name a JSON file. */
  lemma MacosxNeverSelected(e: ZipEntry)
    requires Contains(e.name, MACOSX_MARKER)
    ensures !Selected(e) && !Usable(e)
  {
  }

  /** Nothing on the disk lies directly in `dir`. */
  ghost predicate HasNoEntries(d: Disk, dir: Path)
    reads d
  {
    forall q :: q in d.files || q in d.dirs ==> Parent(q) != Some(dir)
  }

  /** What a real file system guarantees for `output`: it has entries only
      if it is a directory. */
  ghost predicate WellRooted(d: Disk, output: Path)
    reads d
  {
    output !in d.dirs ==> HasNoEntries(d, output)
  }

  /** Whether `toFile` can write `output` on this disk: the output's
      directory is not a plain file, and the output is not a directory
      with entries in it. Neither changes while the scan goes on. */
  ghost predicate OutputReady(d: Disk, output: Path)
    reads d
    requires Parent(output).Some?
  {
    Parent(output).value !in d.files && HasNoEntries(d, output)
  }

  /** The directories once `toFile` has made the output's directory and
      deleted what was at the output. */
  ghost function EntryDirs(files: map<Path, Content>, dirs: set<Path>, output: Path): set<Path>
    requires Parent(output).Some?
  {
    DirsAfterDelete(files, dirs, output) + {Parent(output).value}
  }

  /** The files once `toFile` has also opened the output and copied
      `data` into it, which fails when a directory is still there. */
  ghost function EntryFiles(files: map<Path, Content>, dirs: set<Path>, output: Path, data: Content): map<Path, Content>
    requires Parent(output).Some?
  {
    if output in EntryDirs(files, dirs, output) then files - {output} else (files - {output})[output := data]
  }

  /** `toFile(f, output, zis, ze)`: make the output's directory (or, for a
      directory entry, the output itself), give up on a directory entry,
      replace the output by the entry's data (null on IOException, which
      leaves a partial file), and on success delete the archive file `f`. */
  method ExtractEntry(d: Disk, f: Path, output: Path, e: ZipEntry) returns (r: Option<Path>)
    requires d.Valid() && Parent(output).Some? && WellRooted(d, output)
    modifies d
    ensures d.Valid() && d.closed == old(d.closed) && WellRooted(d, output)
    ensures r.Some? <==> old(OutputReady(d, output)) && !e.isDirectory && !e.data.fails
    ensures r.Some? ==> r.value == output && f !in d.files
    ensures r.Some? && f != output ==> output in d.files && d.files[output] == Concat(e.data.chunks)
    ensures r.None? ==> OutputReady(d, output) == old(OutputReady(d, output))
    ensures (if e.isDirectory then output else Parent(output).value) in old(d.files) ==>
              r.None? && d.files == old(d.files) && d.dirs == old(d.dirs)
    ensures e.isDirectory && output !in old(d.files) ==> d.files == old(d.files) && d.dirs == old(d.dirs) + {output}
    ensures !e.isDirectory && Parent(output).value !in old(d.files) ==>
              var files1 := EntryFiles(old(d.files), old(d.dirs), output, Concat(e.data.chunks));
              var dirs1 := EntryDirs(old(d.files), old(d.dirs), output);
              if r.Some? then d.files == files1 - {f} && d.dirs == DirsAfterDelete(files1, dirs1, f)
              else d.files == files1 && d.dirs == dirs1
    ensures FilesKeptBesides(old(d.files), d.files, {output, f})
    ensures r.None? ==> FilesKeptBesides(old(d.files), d.files, {output})
    ensures old(d.dirs) - {output, f} <= d.dirs <= old(d.dirs) + {output, Parent(output).value}
    ensures r.None? ==> old(d.dirs) - {output} <= d.dirs
  {
    var dir := if e.isDirectory then output else Parent(output).value;
    ExtractGuards(d, output, dir);
    var made := MakeEntryDir(d, dir, output);
    if !made || e.isDirectory {
      return None;
    }
    EntryAfterMkdirs(old(d.files), old(d.dirs), output, Concat(e.data.chunks));
    r := WriteEntry(d, f, output, e);
  }

  /** The guard `!dir.isDirectory() && !dir.mkdirs()` of `toFile`: true
      when `dir` is a directory afterwards, so that the entry goes on. */
  method MakeEntryDir(d: Disk, dir: Path, output: Path) returns (made: bool)
    requires d.Valid() && Parent(dir) != Some(output) && WellRooted(d, output)
    modifies d
    ensures d.Valid() && d.closed == old(d.closed) && d.files == old(d.files)
    ensures made <==> dir !in old(d.files)
    ensures d.dirs == if made then old(d.dirs) + {dir} else old(d.dirs)
    ensures WellRooted(d, output) && HasNoEntries(d, output) == old(HasNoEntries(d, output))
  {
    made := true;
    if dir !in d.dirs {
      made := d.Mkdirs(dir);
    }
  }

  /** The plain-entry half of `toFile`, once the output's directory
      exists: delete the output, open it, copy the entry's data, and on
      success delete the archive file. */
  method WriteEntry(d: Disk, f: Path, output: Path, e: ZipEntry) returns (r: Option<Path>)
    requires d.Valid() && Parent(output).Some? && Parent(output).value in d.dirs && WellRooted(d, output)
    modifies d
    ensures d.Valid() && d.closed == old(d.closed)
    ensures r.Some? <==> old(HasNoEntries(d, output)) && !e.data.fails
    ensures r.Some? ==> r.value == output
    ensures WellRooted(d, output) && HasNoEntries(d, output) == old(HasNoEntries(d, output))
    ensures var files1 := EntryFiles(old(d.files), old(d.dirs), output, Concat(e.data.chunks));
            var dirs1 := EntryDirs(old(d.files), old(d.dirs), output);
            if r.Some? then d.files == files1 - {f} && d.dirs == DirsAfterDelete(files1, dirs1, f)
            else d.files == files1 && d.dirs == dirs1
  {
    ghost var files0, dirs0 := d.files, d.dirs;
    ghost var data := Concat(e.data.chunks);
    OutputOpens(files0, dirs0, output);
    assert old(HasNoEntries(d, output)) <==> !HasEntries(files0, dirs0, output);
    d.EmptyDirHasNoEntries(output);
    if d.Exists(output) {
      var _ := d.Delete(output);
    }
    assert d.files == files0 - {output} && d.dirs == EntryDirs(files0, dirs0, output);
    var created, copied := d.CreateAndCopy(output, e.data);
    assert d.files == EntryFiles(files0, dirs0, output, data);
    if !copied {
      return None;
    }
    d.EmptyDirHasNoEntries(f);
    if d.Exists(f) {
      var _ := d.Delete(f);
    }
    r := Some(output);
  }

  /** Once the output's directory exists, deleting the output leaves a
      path that opens exactly when nothing lay in it. */
  lemma OutputOpens(files: map<Path, Content>, dirs: set<Path>, output: Path)
    requires Parent(output).Some? && Parent(output).value in dirs
    requires output !in dirs ==> !HasEntries(files, dirs, output)
    ensures EntryDirs(files, dirs, output) == DirsAfterDelete(files, dirs, output)
    ensures output !in EntryDirs(files, dirs, output) <==> !HasEntries(files, dirs, output)
  {
    assert Parent(output).value != output;
  }

  /** Making the output's directory first does not change what deleting
      and rewriting the output does. */
  lemma EntryAfterMkdirs(files: map<Path, Content>, dirs: set<Path>, output: Path, data: Content)
    requires Parent(output).Some? && Parent(output).value !in files
    ensures EntryDirs(files, dirs + {Parent(output).value}, output) == EntryDirs(files, dirs, output)
    ensures EntryFiles(files, dirs + {Parent(output).value}, output, data) == EntryFiles(files, dirs, output, data)
  {
    var p := Parent(output).value;
    assert files - {p} == files;
    assert Parent(p) != Some(output);
    EntriesBesides(files, dirs, p);
  }

  /** The facts `ExtractEntry` rests on: the paths it may create are never
      entries of the output directory. */
  lemma ExtractGuards(d: Disk, output: Path, dir: Path)
    requires Parent(output).Some? && (dir == output || dir == Parent(output).value)
    ensures Parent(dir) != Some(output) && Parent(output) != Some(output)
    ensures Parent(output).value != output
  {
  }

  /** `fromZipStreamSyncInternal`: the first usable entry is written to
      `output` and returned, provided the output is ready; otherwise null.
      The archive stream is closed either way. */
  method FromZipStream(d: Disk, f: Path, output: Path, z: ZipArchive) returns (r: Option<Path>)
    requires d.Valid() && Parent(output).Some? && WellRooted(d, output)
    modifies d
    ensures d.Valid() && d.closed == old(d.closed) + [z.id]
    ensures r.Some? <==> old(OutputReady(d, output)) && FirstUsable(z.entries).Some?
    ensures r.Some? ==> r.value == output && f !in d.files
    ensures r.Some? && f != output ==>
              output in d.files && d.files[output] == Concat(z.entries[FirstUsable(z.entries).value].data.chunks)
    ensures FilesKeptBesides(old(d.files), d.files, {output, f})
    ensures r.None? ==> FilesKeptBesides(old(d.files), d.files, {output})
    ensures old(d.dirs) - {output, f} <= d.dirs <= old(d.dirs) + {output, Parent(output).value}
    ensures r.None? ==> old(d.dirs) - {output} <= d.dirs
    ensures (forall j :: 0 <= j < |z.entries| ==> !Selected(z.entries[j])) ==> d.files == old(d.files) && d.dirs == old(d.dirs)
  {
    ghost var ready := OutputReady(d, output);
    var i := 0;
    while i < |z.entries|
      invariant 0 <= i <= |z.entries|
      invariant d.Valid() && d.closed == old(d.closed) && WellRooted(d, output)
      invariant OutputReady(d, output) == ready
      invariant ready ==> forall j :: 0 <= j < i ==> !Usable(z.entries[j])
      invariant FilesKeptBesides(old(d.files), d.files, {output})
      invariant old(d.dirs) - {output} <= d.dirs <= old(d.dirs) + {output, Parent(output).value}
      invariant (forall j :: 0 <= j < i ==> !Selected(z.entries[j])) ==> d.files == old(d.files) && d.dirs == old(d.dirs)
    {
      var e := z.entries[i];
      if !Contains(e.name, MACOSX_MARKER) && Contains(ToLower(e.name), JSON_INFIX) {
        ghost var files1, dirs1 := d.files, d.dirs;
        var x := ExtractEntry(d, f, output, e);
        ExtractStep(old(d.files), old(d.dirs), files1, dirs1, d.files, d.dirs, output, Parent(output).value, f, x.Some?);
        if x.Some? {
          d.Close(z.id);
          assert FirstUsable(z.entries) == Some(i) by {
            FirstUsableAt(z.entries, i);
          }
          return x;
        }
      }
      i := i + 1;
    }
    d.Close(z.id);
    r := None;
  }

  /** One `toFile` call of the scan, seen from before the scan: besides
      the output, its directory and (on success) the archive file, nothing
      changes. */
  lemma ExtractStep(files0: map<Path, Content>, dirs0: set<Path>, files1: map<Path, Content>, dirs1: set<Path>,
                    files: map<Path, Content>, dirs: set<Path>, output: Path, parent: Path, f: Path, some: bool)
    requires FilesKeptBesides(files0, files1, {output}) && dirs0 - {output} <= dirs1 <= dirs0 + {output, parent}
    requires FilesKeptBesides(files1, files, {output, f}) && (!some ==> FilesKeptBesides(files1, files, {output}))
    requires dirs1 - {output, f} <= dirs <= dirs1 + {output, parent} && (!some ==> dirs1 - {output} <= dirs)
    ensures FilesKeptBesides(files0, files, {output, f}) && dirs0 - {output, f} <= dirs <= dirs0 + {output, parent}
    ensures !some ==> FilesKeptBesides(files0, files, {output}) && dirs0 - {output} <= dirs
  {
  }

  lemma FirstUsableAt(es: seq<ZipEntry>, i: nat)
    requires i < |es| && Usable(es[i]) && forall j :: 0 <= j < i ==> !Usable(es[j])
    ensures FirstUsable(es) == Some(i)
  {
  }

  /** A gzip input: whether `new GZIPInputStream(stream)` reads the header,
      and the inflated chunks with the underlying stream's id. */
  datatype GzStream = GzStream(headerOk: bool, inflated: Stream)

  /** The static `GZipFileExtension.toFile(stream, output)`: inflate into
      `output`; every IOException is caught and `output` is returned
      whatever happened. A bad header throws before any resource is
      opened, so nothing is written or closed; otherwise the inflater
      (and with it the stream) is closed on leaving the block. */
  method GZipToFile(d: Disk, s: GzStream, output: Path) returns (r: Path)
    requires d.Valid()
    modifies d
    ensures d.Valid() && d.dirs == old(d.dirs) && r == output
    ensures d.closed == if s.headerOk then old(d.closed) + [s.inflated.id] else old(d.closed)
    ensures var canOpen := output !in old(d.dirs) && Parent(output).Some? && Parent(output).value in old(d.dirs);
            d.files == if s.headerOk && canOpen then old(d.files)[output := Concat(s.inflated.chunks)] else old(d.files)
  {
    r := output;
    if !s.headerOk {
      return;
    }
    var _, _ := d.CreateAndCopy(output, s.inflated);
    d.Close(s.inflated.id);
  }
}
