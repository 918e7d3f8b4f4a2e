/** The upload acceptance rules of the item-creation route: the extension of a
    client file name, the image-type filter, the staged file name, the size
    and count limits, and the order in which a multipart submission's files
    are accepted and staged under `uploads/`. */
module UploadRules {
  import opened Wrappers
  import opened Text

  const UploadDir: string := "uploads/"
  /** Per-file limit in bytes; a file of exactly this size is still accepted. */
  const MaxFileSize: nat := 5 * 1024 * 1024
  const CoverField: string := "coverImage"
  const ImagesField: string := "images"
  const MaxCoverCount: nat := 1
  const MaxImagesCount: nat := 10
  const NotAnImageMessage: string := "Only image files are allowed"

  // ---------------------------------------------------------------------
  // `path.extname` (POSIX)
  // ---------------------------------------------------------------------

  function TrimTrailingSlashes(p: string): (r: string)
    ensures |r| <= |p|
    ensures r == [] || r[|r| - 1] != '/'
    decreases |p|
  {
    if |p| > 0 && p[|p| - 1] == '/' then TrimTrailingSlashes(p[..|p| - 1]) else p
  }

  /** The final path component, trailing separators ignored. */
  function BaseName(p: string): (base: string)
  {
    var t := TrimTrailingSlashes(p);
    t[LastIndex(t, '/') + 1..]
  }

  /** The text from the last '.' of the final component to its end; "" when
      that component has no '.', when its only '.' is its first character, or
      when it is "..". */
  function ExtName(p: string): (ext: string)
  {
    ComponentExt(BaseName(p))
  }

  /** The extension of a single path component. */
  function ComponentExt(b: string): (ext: string)
  {
    var d := LastIndex(b, '.');
    if d <= 0 || b == ".." then "" else b[d..]
  }

  /** An extension is empty, or a dot followed by characters that are neither
      dots nor separators. */
  lemma ExtNameShape(p: string)
    ensures ExtName(p) == [] || (ExtName(p)[0] == '.' && '.' !in ExtName(p)[1..])
    ensures '/' !in ExtName(p)
  {
    var t := TrimTrailingSlashes(p);
    LastIndexSpec(t, '/');
    var b := BaseName(p);
    assert '/' !in b by {
      forall i | 0 <= i < |b| ensures b[i] != '/' {
        assert b[i] == t[LastIndex(t, '/') + 1 + i];
      }
    }
    LastIndexSpec(b, '.');
    var d := LastIndex(b, '.');
    if d > 0 && b != ".." {
      var e := b[d..];
      forall i | 0 <= i < |e| - 1 ensures e[1..][i] != '.' {
        assert e[1..][i] == b[d + 1 + i];
      }
    }
  }

  lemma TrimNoSlash(p: string)
    requires p == [] || p[|p| - 1] != '/'
    ensures TrimTrailingSlashes(p) == p
  {
  }

  /** The final component of `dir + q`, when `dir` ends in a separator and
      `q` is a non-empty name without one, is `q`. */
  lemma BaseNameOfJoined(dir: string, q: string)
    requires dir == [] || dir[|dir| - 1] == '/'
    requires q != [] && '/' !in q
    ensures BaseName(dir + q) == q
  {
    var p := dir + q;
    assert p[|p| - 1] == q[|q| - 1];
    TrimNoSlash(p);
    forall j | |dir| - 1 < j < |p| ensures p[j] != '/' {
      assert p[j] == q[j - |dir|];
    }
    if dir != [] { assert p[|dir| - 1] == '/'; }
    LastIndexIs(p, '/', |dir| - 1);
    assert p[|dir|..] == q;
  }

  /** A name made of a directory, a stem and an extension has exactly that
      extension: the inverse of appending an extension to a stem. */
  lemma ExtNameOfJoinedPath(dir: string, stem: string, e: string)
    requires dir == [] || dir[|dir| - 1] == '/'
    requires stem != [] && '/' !in stem && '/' !in e
    requires e == [] ==> '.' !in stem
    requires e != [] ==> e[0] == '.' && '.' !in e[1..] && stem + e != ".."
    ensures ExtName(dir + stem + e) == e
  {
    var q := stem + e;
    assert '/' !in q;
    assert dir + stem + e == dir + q;
    BaseNameOfJoined(dir, q);
    ComponentExtOf(stem, e);
  }

  lemma ComponentExtOf(stem: string, e: string)
    requires stem != []
    requires e == [] ==> '.' !in stem
    requires e != [] ==> e[0] == '.' && '.' !in e[1..] && stem + e != ".."
    ensures ComponentExt(stem + e) == e
  {
    var q := stem + e;
    if e == [] {
      assert q == stem;
      LastIndexIs(q, '.', -1);
    } else {
      forall j | |stem| < j < |q| ensures q[j] != '.' {
        assert q[j] == e[1..][j - |stem| - 1];
      }
      assert q[|stem|] == '.';
      LastIndexIs(q, '.', |stem|);
      assert q[|stem|..] == e;
    }
  }

  // ---------------------------------------------------------------------
  // ASCII lower-casing commutes with extname
  // ---------------------------------------------------------------------

  lemma {:induction false} TrimTrailingSlashesLower(p: string)
    ensures TrimTrailingSlashes(ToLower(p)) == ToLower(TrimTrailingSlashes(p))
    decreases |p|
  {
    if |p| > 0 && p[|p| - 1] == '/' {
      assert ToLower(p)[..|p| - 1] == ToLower(p[..|p| - 1]);
      TrimTrailingSlashesLower(p[..|p| - 1]);
    }
  }

  lemma LastIndexLower(s: string, c: char)
    requires !('A' <= c <= 'Z') && !('a' <= c <= 'z')
    ensures LastIndex(ToLower(s), c) == LastIndex(s, c)
  {
    var k := LastIndex(s, c);
    LastIndexSpec(s, c);
    forall j | k < j < |s| ensures ToLower(s)[j] != c {
      assert s[j] != c;
    }
    LastIndexIs(ToLower(s), c, k);
  }

  lemma ToLowerSuffix(s: string, i: nat)
    requires i <= |s|
    ensures ToLower(s)[i..] == ToLower(s[i..])
  {
  }

  lemma BaseNameLower(p: string)
    ensures BaseName(ToLower(p)) == ToLower(BaseName(p))
  {
    var t := TrimTrailingSlashes(p);
    TrimTrailingSlashesLower(p);
    var k := LastIndex(t, '/');
    LastIndexLower(t, '/');
    ToLowerSuffix(t, k + 1);
  }

  lemma ExtNameLower(p: string)
    ensures ExtName(ToLower(p)) == ToLower(ExtName(p))
  {
    BaseNameLower(p);
    var b := BaseName(p);
    var lb := ToLower(b);
    var d := LastIndex(b, '.');
    LastIndexLower(b, '.');
    assert lb == ".." <==> b == ".." by {
      if lb == ".." {
        assert lb[0] == LowerChar(b[0]) && lb[1] == LowerChar(b[1]);
        assert b[0] == '.' && b[1] == '.';
      }
    }
    if d > 0 && b != ".." {
      ToLowerSuffix(b, d);
    }
  }

  // ---------------------------------------------------------------------
  // fileFilter
  // ---------------------------------------------------------------------

  /** `/jpeg|jpg|png|gif|webp/.test(s)`: an unanchored search for any of the
      five type names anywhere in `s`. */
  predicate MatchesAllowedTypes(s: string) {
    Contains(s, "jpeg") || Contains(s, "jpg") || Contains(s, "png") ||
    Contains(s, "gif") || Contains(s, "webp")
  }

  datatype FilterVerdict = Accept | Reject(message: string)

  /** The lower-cased extension of the client's file name and the declared
      media type, unchanged, must both match. */
  function FileFilter(originalname: string, mimetype: string): (v: FilterVerdict)
    ensures v.Reject? ==> v.message == NotAnImageMessage
  {
    var extOk := MatchesAllowedTypes(ToLower(ExtName(originalname)));
    var mimeOk := MatchesAllowedTypes(mimetype);
    if mimeOk && extOk then Accept else Reject(NotAnImageMessage)
  }

  /** Two client file names that differ only in ASCII letter case get the
      same verdict. */
  lemma FileFilterIgnoresNameCase(n1: string, n2: string, mimetype: string)
    requires ToLower(n1) == ToLower(n2)
    ensures FileFilter(n1, mimetype) == FileFilter(n2, mimetype)
  {
    ExtNameLower(n1);
    ExtNameLower(n2);
    ToLowerIdempotent(ExtName(n1));
    ToLowerIdempotent(ExtName(n2));
  }

  /** A string without lower-case letters contains no word that starts with
      one. */
  lemma NoLowerCaseNoMatch(s: string, t: string)
    requires t != [] && 'a' <= t[0] <= 'z'
    requires forall i :: 0 <= i < |s| ==> !('a' <= s[i] <= 'z')
    ensures !Contains(s, t)
  {
    ContainsIff(s, t);
    forall i ensures !OccursAt(s, t, i) {
      if 0 <= i <= |s| - |t| { assert s[i..i + |t|][0] == s[i]; }
    }
  }

  /** At most three characters starting with a dot cannot hold any of the
      type names. */
  lemma ShortExtensionNoMatch(e: string)
    requires |e| <= 3 && (e == [] || e[0] == '.')
    ensures !MatchesAllowedTypes(e)
  {
    forall t | t in ["jpeg", "jpg", "png", "gif", "webp"] ensures !Contains(e, t) {
      ContainsIff(e, t);
      forall i ensures !OccursAt(e, t, i) {
        if 0 <= i <= |e| - |t| {
          assert i == 0;
          assert e[i..i + |t|][0] == e[0];
        }
      }
    }
  }

  /** An accepted file always has an extension of a dot and at least three
      more characters: a name without one is never accepted. */
  lemma AcceptedHasExtension(originalname: string, mimetype: string)
    requires FileFilter(originalname, mimetype).Accept?
    ensures |ExtName(originalname)| >= 4
  {
    var e := ToLower(ExtName(originalname));
    ExtNameShape(originalname);
    if |e| <= 3 {
      ShortExtensionNoMatch(e);
    }
  }

  /** The declared media type is matched case-sensitively and is not
      lower-cased: "IMAGE/JPEG" is refused even for a ".jpg" name. */
  lemma MimetypeIsCaseSensitive()
    ensures FileFilter("photo.jpg", "IMAGE/JPEG") == Reject(NotAnImageMessage)
  {
    var m := "IMAGE/JPEG";
    assert forall i :: 0 <= i < |m| ==> !('a' <= m[i] <= 'z');
    NoLowerCaseNoMatch(m, "jpeg");
    NoLowerCaseNoMatch(m, "jpg");
    NoLowerCaseNoMatch(m, "png");
    NoLowerCaseNoMatch(m, "gif");
    NoLowerCaseNoMatch(m, "webp");
  }

  /** A bare file name (no directory) made of a stem and an extension has
      that extension. */
  lemma BareNameExt(stem: string, e: string)
    requires stem != [] && '/' !in stem && '/' !in e
    requires e != [] && e[0] == '.' && '.' !in e[1..] && stem + e != ".."
    ensures ExtName(stem + e) == e
  {
    var q := stem + e;
    assert BaseName(q) == q by {
      assert '/' !in q;
      BaseNameOfJoined([], q);
      assert [] + q == q;
    }
    ComponentExtOf(stem, e);
  }

  lemma PngTxtExtension()
    ensures ExtName("notes.pngtxt") == ".pngtxt"
  {
    var stem, e := "notes", ".pngtxt";
    assert e[1..] == "pngtxt";
    assert stem + e == "notes.pngtxt";
    BareNameExt(stem, e);
  }

  lemma PngTxtMatches()
    ensures MatchesAllowedTypes(ToLower(".pngtxt"))
  {
    assert ToLower(".pngtxt") == ".pngtxt";
    ContainsInfix(".", "png", "txt");
    assert "." + "png" + "txt" == ".pngtxt";
  }

  lemma GifNotesMatches()
    ensures MatchesAllowedTypes("text/x-gif-notes")
  {
    ContainsInfix("text/x-", "gif", "-notes");
    assert "text/x-" + "gif" + "-notes" == "text/x-gif-notes";
  }

  /** The search is unanchored: the type names may occur anywhere, so a
      ".pngtxt" name declared as "text/x-gif-notes" passes. */
  lemma FilterIsSubstringSearch()
    ensures FileFilter("notes.pngtxt", "text/x-gif-notes") == Accept
  {
    PngTxtExtension();
    PngTxtMatches();
    GifNotesMatches();
  }

  // ---------------------------------------------------------------------
  // staged file name
  // ---------------------------------------------------------------------

  /** `fieldname-<time>-<random><ext>`; the clock reading and the random draw
      are parameters. */
  function StagedFilename(fieldname: string, originalname: string, clock: nat, nonce: nat): (filename: string)
  {
    fieldname + "-" + Decimal(clock) + "-" + Decimal(nonce) + ExtName(originalname)
  }

  function StagedPath(fieldname: string, originalname: string, clock: nat, nonce: nat): (path: string)
  {
    UploadDir + StagedFilename(fieldname, originalname, clock, nonce)
  }

  /** The staged name starts with the field name and a dash, and its own
      extension is the client file's extension. */
  lemma StagedPathKeepsExtension(fieldname: string, originalname: string, clock: nat, nonce: nat)
    requires '/' !in fieldname && '.' !in fieldname
    ensures IsPrefix(fieldname + "-", StagedFilename(fieldname, originalname, clock, nonce))
    ensures ExtName(StagedPath(fieldname, originalname, clock, nonce)) == ExtName(originalname)
  {
    var stem := fieldname + "-" + Decimal(clock) + "-" + Decimal(nonce);
    var e := ExtName(originalname);
    ExtNameShape(originalname);
    assert '/' !in stem && '.' !in stem by {
      forall j | 0 <= j < |stem| ensures stem[j] != '/' && stem[j] != '.' {
        if j < |fieldname| { assert stem[j] == fieldname[j]; }
      }
    }
    assert stem[|fieldname|] == '-';
    assert stem + e != "..";
    assert StagedPath(fieldname, originalname, clock, nonce) == UploadDir + stem + e;
    ExtNameOfJoinedPath(UploadDir, stem, e);
  }

  // ---------------------------------------------------------------------
  // accepting the files of one submission
  // ---------------------------------------------------------------------

  /** One file part of a multipart request, with the clock reading and random
      draw taken when it is staged. */
  datatype Part = Part(fieldname: string, originalname: string, mimetype: string,
                       size: nat, clock: nat, nonce: nat)

  datatype StagedFile = StagedFile(fieldname: string, originalname: string, mimetype: string,
                                   size: nat, path: string)

  /** `req.files`: the files grouped by field, each group in arrival order. */
  datatype Files = Files(cover: seq<StagedFile>, images: seq<StagedFile>)

  datatype IntakeError = UnexpectedField(field: string) | NotAnImage(message: string) | FileTooLarge(field: string)

  function Stage(p: Part): (staged: StagedFile) {
    StagedFile(p.fieldname, p.originalname, p.mimetype, p.size,
               StagedPath(p.fieldname, p.originalname, p.clock, p.nonce))
  }

  /** How many more files the field may still take. */
  function SlotsLeft(acc: Files, field: string): (slots: int) {
    if field == CoverField then MaxCoverCount - |acc.cover|
    else if field == ImagesField then MaxImagesCount - |acc.images|
    else 0
  }

  function Add(acc: Files, f: StagedFile): (next: Files) {
    if f.fieldname == CoverField then acc.(cover := acc.cover + [f])
    else acc.(images := acc.images + [f])
  }

  /** Parts are taken in arrival order; for each, the field and its count are
      checked, then the type filter, then the size. The first failure aborts
      the whole request. */
  function IntakeFrom(parts: seq<Part>, acc: Files): (res: Result<Files, IntakeError>)
    decreases |parts|
  {
    if parts == [] then Ok(acc)
    else
      var p := parts[0];
      if SlotsLeft(acc, p.fieldname) <= 0 then Err(UnexpectedField(p.fieldname))
      else match FileFilter(p.originalname, p.mimetype)
        case Reject(msg) => Err(NotAnImage(msg))
        case Accept =>
          if p.size > MaxFileSize then Err(FileTooLarge(p.fieldname))
          else IntakeFrom(parts[1..], Add(acc, Stage(p)))
  }

  function Intake(parts: seq<Part>): (res: Result<Files, IntakeError>) {
    IntakeFrom(parts, Files([], []))
  }

  /** The parts sent under `field`, in arrival order. */
  function Select(parts: seq<Part>, field: string): (r: seq<Part>)
    ensures |r| <= |parts|
  {
    if parts == [] then []
    else (if parts[0].fieldname == field then [parts[0]] else []) + Select(parts[1..], field)
  }

  function StageAll(parts: seq<Part>): (r: seq<StagedFile>)
    ensures |r| == |parts|
  {
    if parts == [] then [] else [Stage(parts[0])] + StageAll(parts[1..])
  }

  lemma {:induction false} StageAllAt(parts: seq<Part>, k: nat)
    requires k < |parts|
    ensures StageAll(parts)[k] == Stage(parts[k])
    decreases k
  {
    if k > 0 { StageAllAt(parts[1..], k - 1); }
  }

  predicate Acceptable(p: Part) {
    (p.fieldname == CoverField || p.fieldname == ImagesField) &&
    FileFilter(p.originalname, p.mimetype).Accept? &&
    p.size <= MaxFileSize
  }

  lemma StageAllCons(p: Part, rest: seq<Part>)
    ensures StageAll([p] + rest) == [Stage(p)] + StageAll(rest)
  {
    assert ([p] + rest)[1..] == rest;
  }

  predicate AllAcceptable(parts: seq<Part>) {
    forall p :: p in parts ==> Acceptable(p)
  }

  /** A list of parts is acceptable exactly when its first part and the rest
      are. */
  lemma AllAcceptableCons(parts: seq<Part>)
    requires parts != []
    ensures AllAcceptable(parts) <==> Acceptable(parts[0]) && AllAcceptable(parts[1..])
  {
    assert parts == [parts[0]] + parts[1..];
  }

  /** One step of the intake: the first part either aborts the request or is
      staged into its group. */
  lemma IntakeStep(parts: seq<Part>, acc: Files)
    requires parts != []
    ensures !(SlotsLeft(acc, parts[0].fieldname) > 0 && Acceptable(parts[0])) ==> IntakeFrom(parts, acc).Err?
    ensures SlotsLeft(acc, parts[0].fieldname) > 0 && Acceptable(parts[0]) ==>
      IntakeFrom(parts, acc) == IntakeFrom(parts[1..], Add(acc, Stage(parts[0])))
  {
  }

  /** Generalisation of the first half of IntakeIff over a partly filled
      accumulator. */
  lemma {:induction false} IntakeFromOk(parts: seq<Part>, acc: Files)
    requires |acc.cover| <= MaxCoverCount && |acc.images| <= MaxImagesCount
    ensures IntakeFrom(parts, acc).Ok? <==>
      AllAcceptable(parts) &&
      |acc.cover| + |Select(parts, CoverField)| <= MaxCoverCount &&
      |acc.images| + |Select(parts, ImagesField)| <= MaxImagesCount
    decreases |parts|
  {
    if parts != [] {
      var p := parts[0];
      var rest := parts[1..];
      IntakeStep(parts, acc);
      AllAcceptableCons(parts);
      if SlotsLeft(acc, p.fieldname) > 0 && Acceptable(p) {
        IntakeFromOk(rest, Add(acc, Stage(p)));
        if p.fieldname == CoverField {
          SelectStep(parts, CoverField, ImagesField);
        } else {
          SelectStep(parts, ImagesField, CoverField);
        }
      } else if Acceptable(p) {
        if p.fieldname == CoverField {
          SelectStep(parts, CoverField, ImagesField);
        } else {
          SelectStep(parts, ImagesField, CoverField);
        }
      }
    }
  }

  /** Generalisation of the second half of IntakeIff. */
  lemma {:induction false} IntakeFromValue(parts: seq<Part>, acc: Files)
    requires IntakeFrom(parts, acc).Ok?
    ensures IntakeFrom(parts, acc).value ==
      Files(acc.cover + StageAll(Select(parts, CoverField)),
            acc.images + StageAll(Select(parts, ImagesField)))
    decreases |parts|
  {
    if parts == [] {
      assert Select(parts, CoverField) == [] && Select(parts, ImagesField) == [];
    } else {
      var p := parts[0];
      var rest := parts[1..];
      IntakeStep(parts, acc);
      assert SlotsLeft(acc, p.fieldname) > 0 && Acceptable(p);
      var acc' := Add(acc, Stage(p));
      assert IntakeFrom(parts, acc) == IntakeFrom(rest, acc');
      IntakeFromValue(rest, acc');
      if p.fieldname == CoverField {
        SelectStep(parts, CoverField, ImagesField);
        StageAllCons(p, Select(rest, CoverField));
        var x := StageAll(Select(rest, CoverField));
        assert acc'.cover == acc.cover + [Stage(p)];
        assert acc'.images == acc.images;
        assert StageAll(Select(parts, CoverField)) == [Stage(p)] + x;
        ConcatAssoc(acc.cover, [Stage(p)], x);
      } else {
        assert p.fieldname == ImagesField;
        SelectStep(parts, ImagesField, CoverField);
        StageAllCons(p, Select(rest, ImagesField));
        var x := StageAll(Select(rest, ImagesField));
        assert acc'.images == acc.images + [Stage(p)];
        assert acc'.cover == acc.cover;
        assert StageAll(Select(parts, ImagesField)) == [Stage(p)] + x;
        ConcatAssoc(acc.images, [Stage(p)], x);
      }
    }
  }

  lemma ConcatAssoc<T>(a: seq<T>, b: seq<T>, c: seq<T>)
    ensures a + b + c == a + (b + c)
  {
  }

  /** Selecting by the first part's field takes it; selecting by another
      field skips it. */
  lemma SelectStep(parts: seq<Part>, field: string, other: string)
    requires parts != [] && parts[0].fieldname == field && other != field
    ensures Select(parts, field) == [parts[0]] + Select(parts[1..], field)
    ensures Select(parts, other) == Select(parts[1..], other)
  {
  }

  /** A submission is accepted exactly when every file part names one of the
      two fields, passes the type filter and is within the size limit, and at
      most one cover and ten additional images were sent; the accepted groups
      are then the staged parts of each field in arrival order. */
  lemma IntakeIff(parts: seq<Part>)
    ensures Intake(parts).Ok? <==>
      AllAcceptable(parts) &&
      |Select(parts, CoverField)| <= MaxCoverCount &&
      |Select(parts, ImagesField)| <= MaxImagesCount
    ensures Intake(parts).Ok? ==>
      Intake(parts).value == Files(StageAll(Select(parts, CoverField)), StageAll(Select(parts, ImagesField)))
  {
    IntakeFromOk(parts, Files([], []));
    if Intake(parts).Ok? {
      IntakeFromValue(parts, Files([], []));
    }
  }

  /** Every accepted file passed the filter and the size limit, and the
      groups respect their maximum counts. */
  lemma IntakeBounds(parts: seq<Part>)
    requires Intake(parts).Ok?
    ensures |Intake(parts).value.cover| <= MaxCoverCount
    ensures |Intake(parts).value.images| <= MaxImagesCount
    ensures forall f :: f in Intake(parts).value.cover + Intake(parts).value.images ==>
      FileFilter(f.originalname, f.mimetype).Accept? && f.size <= MaxFileSize
  {
    IntakeIff(parts);
    var files := Intake(parts).value;
    forall f | f in files.cover + files.images
      ensures FileFilter(f.originalname, f.mimetype).Accept? && f.size <= MaxFileSize
    {
      var field := if f in files.cover then CoverField else ImagesField;
      var sel := Select(parts, field);
      var k :| 0 <= k < |StageAll(sel)| && StageAll(sel)[k] == f;
      StageAllAt(sel, k);
      SelectFrom(parts, field, k);
    }
  }

  lemma {:induction false} SelectFrom(parts: seq<Part>, field: string, k: nat)
    requires k < |Select(parts, field)|
    ensures Select(parts, field)[k] in parts
    ensures Select(parts, field)[k].fieldname == field
    decreases |parts|
  {
    var rest := parts[1..];
    if parts[0].fieldname == field {
      if k > 0 { SelectFrom(rest, field, k - 1); }
    } else {
      SelectFrom(rest, field, k);
    }
  }
}
