/** The file-type handlers of the `extension` package: what an extension
    string is, how a file name or an HTTP content type is matched against a
    handler, and when two handlers are the same. */
module Extensions {
  import opened Wrappers
  import opened Strings

  /** The concrete handler class. `Custom(id)` stands for a subclass an
      application registers; it keeps the base-class defaults. */
  datatype Kind = Zip | GZip | Json | Custom(id: nat)

  /** A handler: its class and its `extension` field, e.g. ".zip". */
  datatype FileExt = FileExt(kind: Kind, extension: string)

  const ZIP_EXTENSION: string := ".zip"
  const GZIP_EXTENSION: string := ".gz"
  const JSON_EXTENSION: string := ".json"
  const TEMP_INFIX: string := ".temp"

  /** The shared `ZipFileExtension.ZIP` instance. */
  const ZIP: FileExt := FileExt(Zip, ZIP_EXTENSION)

  /** The JSON handler the cache code names; its class is not part of this
      model, so it is taken to keep the base-class defaults. */
  const JSON: FileExt := FileExt(Json, JSON_EXTENSION)

  /** The handler constructor: a null (None) or empty extension is refused. */
  function MakeExtension(kind: Kind, extension: Option<string>): (r: Result<FileExt>)
    ensures r.Failure? <==> extension.None? || extension.value == []
    ensures r.Failure? ==> r.error == IllegalArgument("extension can not be null!")
    ensures r.Success? ==> r.value.kind == kind && r.value.extension == extension.value
  {
    if extension.None? || extension.value == [] then Failure(IllegalArgument("extension can not be null!"))
    else Success(FileExt(kind, extension.value))
  }

  /** The no-argument `GZipFileExtension` constructor. */
  function DefaultGZip(): (e: FileExt)
    ensures e.kind == GZip && e.extension == GZIP_EXTENSION
    ensures MakeExtension(GZip, Some(GZIP_EXTENSION)) == Success(e)
  {
    FileExt(GZip, GZIP_EXTENSION)
  }

  /** `tempExtension()`: the extension behind the ".temp" infix. */
  function TempExtension(e: FileExt): (t: string)
    ensures TEMP_INFIX <= t && t[|TEMP_INFIX|..] == e.extension
  {
    TEMP_INFIX + e.extension
  }

  /** Removing ".temp" from a temp extension gives back the extension, as
      long as the extension does not itself contain ".temp". */
  lemma TempExtensionPromotes(e: FileExt)
    requires !Contains(e.extension, TEMP_INFIX)
    ensures RemoveAll(TempExtension(e), TEMP_INFIX) == e.extension
  {
    var t := TempExtension(e);
    assert t[..|TEMP_INFIX|] == TEMP_INFIX;
    assert t[|TEMP_INFIX|..] == e.extension;
    RemoveAllAbsent(e.extension, TEMP_INFIX);
  }

  /** The JSON extension has no ".temp" in it, so its temp name promotes. */
  lemma JsonExtensionHasNoTemp()
    ensures !Contains(JSON_EXTENSION, TEMP_INFIX)
  {
    assert !(TEMP_INFIX <= JSON_EXTENSION) by {
      assert JSON_EXTENSION[1] != TEMP_INFIX[1];
    }
    NotContainsWithoutHead(JSON_EXTENSION[1..], TEMP_INFIX);
  }

  /** `canParseFile(fileName)`: the suffix from the last '.' equals the
      extension, ignoring case; None where `substring(-1)` throws for a
      name without '.'. */
  function CanParseFile(e: FileExt, fileName: string): (r: Option<bool>)
    ensures r.None? <==> '.' !in fileName
  {
    match SuffixFromLastDot(fileName)
    case None => None
    case Some(suffix) => Some(EqualsIgnoreCase(suffix, e.extension))
  }

  /** A name built as `prefix + ext` is accepted by its own handler, in any
      letter case of the extension, when the extension is dotted once. */
  lemma CanParseOwnName(e: FileExt, prefix: string, ext: string)
    requires |e.extension| >= 1 && e.extension[0] == '.' && '.' !in e.extension[1..]
    requires |ext| == |e.extension| && ToLower(ext) == ToLower(e.extension)
    ensures CanParseFile(e, prefix + ext) == Some(true)
  {
    DotsAgree(ext, e.extension);
    assert '.' !in ext[1..] by {
      forall j | 0 <= j < |ext| - 1 ensures ext[1..][j] != '.' {
        assert ext[1..][j] == ext[j + 1] && e.extension[1..][j] == e.extension[j + 1];
      }
    }
    SuffixOfDottedExtension(prefix, ext);
    assert SuffixFromLastDot(prefix + ext) == Some(ext);
  }

  /** Lower-casing maps no character other than '.' to '.', so two strings
      equal up to case have their dots in the same places. */
  lemma DotsAgree(a: string, b: string)
    requires |a| == |b| && ToLower(a) == ToLower(b)
    ensures forall j :: 0 <= j < |a| ==> (a[j] == '.' <==> b[j] == '.')
  {
    forall j | 0 <= j < |a| ensures a[j] == '.' <==> b[j] == '.' {
      assert LowerChar(a[j]) == ToLower(a)[j] == ToLower(b)[j] == LowerChar(b[j]);
    }
  }

  /** `ZipCompositionFactory.isZipContent`. */
  predicate IsZipContent(contentType: string) {
    var t := ToLower(contentType);
    Contains(t, "application/zip") || Contains(t, "application/x-zip") || Contains(t, "application/x-zip-compressed")
  }

  /** The GZip handler's `canParseContent`. */
  predicate IsGZipContent(contentType: string) {
    var t := ToLower(contentType);
    Contains(t, "application/octet-stream") || Contains(t, "binary/octet-stream") || Contains(t, "application/x-gzip")
  }

  /** A string containing `a + b` contains `a`. */
  lemma {:induction false} ContainsPrefixOf(s: string, a: string, b: string)
    requires Contains(s, a + b)
    ensures Contains(s, a)
    decreases |s|
  {
    if a + b <= s {
      assert a <= s by {
        assert s[..|a|] == (a + b)[..|a|];
      }
    } else {
      ContainsPrefixOf(s[1..], a, b);
    }
  }

  /** The third content type `isZipContent` tests is redundant: every type
      containing "application/x-zip-compressed" contains "application/x-zip". */
  lemma IsZipContentTwoTests(contentType: string)
    ensures IsZipContent(contentType) <==>
            Contains(ToLower(contentType), "application/zip") || Contains(ToLower(contentType), "application/x-zip")
  {
    var t := ToLower(contentType);
    if Contains(t, "application/x-zip-compressed") {
      assert "application/x-zip-compressed" == "application/x-zip" + "-compressed";
      ContainsPrefixOf(t, "application/x-zip", "-compressed");
    }
  }

  /** Both content tests ignore letter case. */
  lemma ContentTestsIgnoreCase(contentType: string)
    ensures IsZipContent(ToLower(contentType)) == IsZipContent(contentType)
    ensures IsGZipContent(ToLower(contentType)) == IsGZipContent(contentType)
  {
    ToLowerIdempotent(contentType);
  }

  /** `canParseContent`: only the zip and gzip handlers claim a content type. */
  function CanParseContent(e: FileExt, contentType: string): (r: bool)
    ensures r ==> e.kind == Zip || e.kind == GZip
    ensures e.kind == Zip ==> (r <==> IsZipContent(contentType))
    ensures e.kind == GZip ==> (r <==> IsGZipContent(contentType))
  {
    match e.kind
    case Zip => IsZipContent(contentType)
    case GZip => IsGZipContent(contentType)
    case _ => false
  }

  /** `willReadStream`: only the gzip handler reopens a file as a stream. */
  function WillReadStream(e: FileExt): (r: bool)
    ensures r <==> e.kind == GZip
  {
    e.kind == GZip
  }

  /** `equals`: the same class and equal extension strings. */
  predicate Equals(a: FileExt, b: FileExt) {
    a.kind == b.kind && a.extension == b.extension
  }

  /** Handler equality is an equivalence and coincides with equality of the
      two fields it compares. */
  lemma EqualsIsEquivalence(a: FileExt, b: FileExt, c: FileExt)
    ensures Equals(a, a)
    ensures Equals(a, b) ==> Equals(b, a)
    ensures Equals(a, b) && Equals(b, c) ==> Equals(a, c)
    ensures Equals(a, b) <==> a == b
  {
  }
}
