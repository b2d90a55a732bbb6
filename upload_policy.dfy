/**
 * The server's upload configuration: the nine accepted file fields (one file each),
 * the image-only filter, the 10 MiB size limit, and the name each stored file gets.
 * Parsing the multipart body is the upload library's job; the model starts from the
 * file parts it reports, in arrival order.
 */
module UploadPolicy {
  import opened Wrappers
  import opened Text
  import opened Shots
  import opened FileAcceptance

  // ----- stored file names -----

  /** `originalname.replace(/\s+/g, '_')`: each maximal run of whitespace becomes one `_`. */
  function CollapseWhitespace(s: string): (r: string)
    ensures NoWhitespace(r) && |r| <= |s|
    decreases |s|
  {
    if s == [] then []
    else if IsWhitespace(s[0]) then "_" + CollapseWhitespace(TrimStart(s[1..]))
    else [s[0]] + CollapseWhitespace(s[1..])
  }

  lemma {:induction false} TrimStartOfRun(w: string, rest: string)
    requires AllWhitespace(w)
    requires rest == [] || !IsWhitespace(rest[0])
    ensures TrimStart(w + rest) == rest
    decreases |w|
  {
    if w == [] {
      assert w + rest == rest;
    } else {
      assert (w + rest)[1..] == w[1..] + rest;
      TrimStartOfRun(w[1..], rest);
    }
  }

  /** A whole run of whitespace followed by a non-whitespace character (or the end) turns into a single `_`. */
  lemma CollapseRun(w: string, rest: string)
    requires |w| >= 1 && AllWhitespace(w)
    requires rest == [] || !IsWhitespace(rest[0])
    ensures CollapseWhitespace(w + rest) == "_" + CollapseWhitespace(rest)
  {
    assert (w + rest)[0] == w[0];
    assert (w + rest)[1..] == w[1..] + rest;
    TrimStartOfRun(w[1..], rest);
  }

  /** A name without whitespace is stored as it is; so collapsing twice is collapsing once. */
  lemma {:induction false} CollapseKeepsPlainName(s: string)
    requires NoWhitespace(s)
    ensures CollapseWhitespace(s) == s
    decreases |s|
  {
    if s != [] {
      CollapseKeepsPlainName(s[1..]);
    }
  }

  lemma CollapseIdempotent(s: string)
    ensures CollapseWhitespace(CollapseWhitespace(s)) == CollapseWhitespace(s)
  {
    CollapseKeepsPlainName(CollapseWhitespace(s));
  }

  /**
   * `${timestamp}-${originalName}` with the name's whitespace collapsed; the clock reading is a
   * parameter. The stored name keeps the timestamp and the collapsed name recoverably, and holds
   * no whitespace.
   */
  function StoredFilename(timestamp: nat, originalName: string): (name: string)
    ensures ParseStoredFilename(name) == Some((timestamp, CollapseWhitespace(originalName)))
    ensures NoWhitespace(name)
  {
    StampedNameParses(timestamp, originalName);
    NatToDecimal(timestamp) + "-" + CollapseWhitespace(originalName)
  }

  /** Read a stored name back: the digits before the first `-`, and the rest. */
  function ParseStoredFilename(name: string): Option<(nat, string)> {
    var k := IndexOf(name, '-');
    if k == |name| || k == 0 || !AllDigits(name[..k]) then None
    else Some((DecimalToNat(name[..k]), name[k + 1..]))
  }

  lemma StampedNameParses(timestamp: nat, originalName: string)
    ensures var name := NatToDecimal(timestamp) + "-" + CollapseWhitespace(originalName);
      ParseStoredFilename(name) == Some((timestamp, CollapseWhitespace(originalName))) && NoWhitespace(name)
  {
    var d := NatToDecimal(timestamp);
    var name := d + "-" + CollapseWhitespace(originalName);
    assert forall i :: 0 <= i < |d| ==> name[i] == d[i];
    assert name[|d|] == '-';
    assert IndexOf(name, '-') == |d|;
    assert name[..|d|] == d;
    assert name[|d| + 1..] == CollapseWhitespace(originalName);
    DecimalRoundTrip(timestamp);
    forall i | 0 <= i < |name| ensures !IsWhitespace(name[i]) {
      if i > |d| {
        assert name[i] == CollapseWhitespace(originalName)[i - |d| - 1];
      }
    }
  }

  // ----- the accepted fields -----

  datatype FieldSpec = FieldSpec(name: string, maxCount: nat)

  /** The field list given to the upload middleware. */
  const UploadFields: seq<FieldSpec> := [
    FieldSpec("front", 1),
    FieldSpec("frontRightCorner", 1),
    FieldSpec("rightSide", 1),
    FieldSpec("rearRightCorner", 1),
    FieldSpec("rear", 1),
    FieldSpec("rearLeftCorner", 1),
    FieldSpec("leftSide", 1),
    FieldSpec("leftFrontCorner", 1),
    FieldSpec("gutterSwatch", 1)
  ]

  /** The server accepts exactly the page's shot ids, in the same order, one file each. */
  lemma UploadFieldsAreShots()
    ensures |UploadFields| == |Sequence|
    ensures forall i :: 0 <= i < |UploadFields| ==> UploadFields[i].name == Sequence[i].id && UploadFields[i].maxCount == 1
  {
  }

  predicate IsUploadField(name: string) {
    exists i :: 0 <= i < |UploadFields| && UploadFields[i].name == name
  }

  /** No accepted field name contains whitespace. */
  lemma UploadFieldNamesPlain(name: string)
    requires IsUploadField(name)
    ensures NoWhitespace(name)
  {
    var i :| 0 <= i < |UploadFields| && UploadFields[i].name == name;
    // Every field name is made of ASCII letters, and no letter is whitespace.
    assert forall k :: 0 <= k < |name| ==> 'A' <= name[k] <= 'z';
  }

  // ----- receiving file parts -----

  /** One file part of the request as the upload library reports it; `receivedAt` is the clock when it is named. */
  datatype FilePart = FilePart(field: string, originalName: string, mimetype: string, size: nat, receivedAt: nat)

  datatype StoredFile = StoredFile(filename: string, path: string)

  /** One entry of `req.files`: a field and the file stored for it. */
  datatype Upload = Upload(field: string, file: StoredFile)

  /** The errors the upload middleware passes on: the library's own coded errors, or the filter's plain error. */
  datatype UploadError =
    | MulterError(code: string, message: string, field: string)
    | FilterError(message: string)

  /** The upload middleware's `fileSize` limit, 10 MiB. */
  const ServerMaxFileBytes: nat := 10 * 1024 * 1024

  /** The server's limit and the page's limit are written separately, and agree. */
  lemma ServerLimitMatchesPage()
    ensures ServerMaxFileBytes == MaxFileBytes
  {
  }

  const LimitUnexpectedFile: string := "LIMIT_UNEXPECTED_FILE"
  const LimitFileSize: string := "LIMIT_FILE_SIZE"

  /** `fileFilter`: only image types pass; anything else fails the request with a plain error. */
  function FileFilter(mimetype: string): (r: Option<UploadError>)
    ensures r.None? <==> IsImageType(mimetype)
    ensures r.Some? ==> r.value == FilterError("Only image files are allowed!")
  {
    if IsImageType(mimetype) then None else Some(FilterError("Only image files are allowed!"))
  }

  /**
   * The first objection to part `p` when the fields in `taken` already hold their one file:
   * a field not in the list, or one already filled; then the filter; then the size limit,
   * under which a file of exactly 10 MiB still passes.
   */
  function Admit(taken: set<string>, p: FilePart): (r: Option<UploadError>)
    ensures r.None? <==> IsUploadField(p.field) && p.field !in taken && IsImageType(p.mimetype) && p.size <= ServerMaxFileBytes
    ensures r == Some(MulterError(LimitUnexpectedFile, "Unexpected field", p.field)) <==>
      !IsUploadField(p.field) || p.field in taken
    ensures r == Some(FilterError("Only image files are allowed!")) <==>
      IsUploadField(p.field) && p.field !in taken && !IsImageType(p.mimetype)
    ensures r == Some(MulterError(LimitFileSize, "File too large", p.field)) <==>
      IsUploadField(p.field) && p.field !in taken && IsImageType(p.mimetype) && p.size > ServerMaxFileBytes
  {
    if !IsUploadField(p.field) || p.field in taken then Some(MulterError(LimitUnexpectedFile, "Unexpected field", p.field))
    else if FileFilter(p.mimetype).Some? then FileFilter(p.mimetype)
    else if p.size > ServerMaxFileBytes then Some(MulterError(LimitFileSize, "File too large", p.field))
    else None
  }

  /** Disk storage: the file is written under `uploads/` with its stored name. */
  function Store(p: FilePart): (u: Upload)
    ensures u.field == p.field && u.file.filename == StoredFilename(p.receivedAt, p.originalName)
  {
    var filename := StoredFilename(p.receivedAt, p.originalName);
    Upload(p.field, StoredFile(filename, "uploads/" + filename))
  }

  ghost function FieldsOf(parts: seq<FilePart>): set<string> {
    set i | 0 <= i < |parts| :: parts[i].field
  }

  lemma FieldsOfPrefix(p: FilePart, rest: seq<FilePart>, i: nat)
    requires i < |rest|
    ensures FieldsOf(([p] + rest)[..i + 1]) == {p.field} + FieldsOf(rest[..i])
  {
    var all := [p] + rest;
    assert all[..i + 1] == [p] + rest[..i];
    forall f | f in FieldsOf(all[..i + 1]) ensures f in {p.field} + FieldsOf(rest[..i]) {
      var k :| 0 <= k < i + 1 && all[..i + 1][k].field == f;
      if k > 0 { assert rest[..i][k - 1].field == f; }
    }
    forall f | f in {p.field} + FieldsOf(rest[..i]) ensures f in FieldsOf(all[..i + 1]) {
      if f != p.field {
        var k :| 0 <= k < i && rest[..i][k].field == f;
        assert all[..i + 1][k + 1].field == f;
      } else {
        assert all[..i + 1][0].field == f;
      }
    }
  }

  /** Part `i` is the first part, after `taken` are filled, that the middleware refuses. */
  ghost predicate FirstRefusedAt(taken: set<string>, parts: seq<FilePart>, i: nat) {
    && i < |parts|
    && (forall j :: 0 <= j < i ==> Admit(taken + FieldsOf(parts[..j]), parts[j]).None?)
    && Admit(taken + FieldsOf(parts[..i]), parts[i]).Some?
  }

  /** There is only one first refused part. */
  lemma FirstRefusedUnique(taken: set<string>, parts: seq<FilePart>, i: nat, k: nat)
    requires FirstRefusedAt(taken, parts, i) && FirstRefusedAt(taken, parts, k)
    ensures i == k
  {
  }

  /** When the head is admitted, the first refused part of the tail is the first refused part of the whole. */
  lemma FirstRefusedShift(taken: set<string>, parts: seq<FilePart>, i: nat)
    requires parts != [] && Admit(taken, parts[0]).None?
    requires FirstRefusedAt(taken + {parts[0].field}, parts[1..], i)
    ensures FirstRefusedAt(taken, parts, i + 1)
    ensures Admit(taken + FieldsOf(parts[..i + 1]), parts[i + 1])
         == Admit(taken + {parts[0].field} + FieldsOf(parts[1..][..i]), parts[1..][i])
  {
    var p, rest := parts[0], parts[1..];
    assert parts == [p] + rest;
    forall j | 0 <= j < i + 1 ensures Admit(taken + FieldsOf(parts[..j]), parts[j]).None? {
      if j == 0 {
        assert FieldsOf(parts[..0]) == {};
        assert taken + FieldsOf(parts[..0]) == taken;
      } else {
        FieldsOfPrefix(p, rest, j - 1);
        assert parts[j] == rest[j - 1];
        assert taken + FieldsOf(parts[..j]) == taken + {p.field} + FieldsOf(rest[..j - 1]);
      }
    }
    FieldsOfPrefix(p, rest, i);
    assert parts[i + 1] == rest[i];
    assert taken + FieldsOf(parts[..i + 1]) == taken + {p.field} + FieldsOf(rest[..i]);
  }

  /** A refused head is the first refused part. */
  lemma HeadRefused(taken: set<string>, parts: seq<FilePart>)
    requires parts != [] && Admit(taken, parts[0]).Some?
    ensures FirstRefusedAt(taken, parts, 0)
    ensures Admit(taken + FieldsOf(parts[..0]), parts[0]) == Admit(taken, parts[0])
    ensures !forall i :: 0 <= i < |parts| ==> Admit(taken + FieldsOf(parts[..i]), parts[i]).None?
  {
    assert FieldsOf(parts[..0]) == {};
    assert taken + FieldsOf(parts[..0]) == taken;
  }

  /** With the head admitted, every part is admitted exactly when every part of the tail is, its field taken. */
  lemma AllAdmittedShift(taken: set<string>, parts: seq<FilePart>)
    requires parts != [] && Admit(taken, parts[0]).None?
    ensures (forall i :: 0 <= i < |parts| ==> Admit(taken + FieldsOf(parts[..i]), parts[i]).None?) <==>
      (forall i :: 0 <= i < |parts[1..]| ==> Admit(taken + {parts[0].field} + FieldsOf(parts[1..][..i]), parts[1..][i]).None?)
  {
    var p, rest := parts[0], parts[1..];
    assert parts == [p] + rest;
    forall i | 0 <= i < |rest|
      ensures Admit(taken + FieldsOf(parts[..i + 1]), parts[i + 1]) == Admit(taken + {p.field} + FieldsOf(rest[..i]), rest[i])
    {
      FieldsOfPrefix(p, rest, i);
      assert parts[i + 1] == rest[i];
    }
    assert FieldsOf(parts[..0]) == {};
    assert taken + FieldsOf(parts[..0]) == taken;
    if forall i :: 0 <= i < |rest| ==> Admit(taken + {p.field} + FieldsOf(rest[..i]), rest[i]).None? {
      forall i | 0 <= i < |parts| ensures Admit(taken + FieldsOf(parts[..i]), parts[i]).None? {
        if i > 0 {
          assert Admit(taken + FieldsOf(parts[..i]), parts[i]) == Admit(taken + {p.field} + FieldsOf(rest[..i - 1]), rest[i - 1]);
        }
      }
    }
  }

  /** With the head admitted, the tail's first refusal is the whole request's first refusal. */
  lemma RefusalShift(taken: set<string>, parts: seq<FilePart>, e: UploadError)
    requires parts != [] && Admit(taken, parts[0]).None?
    requires exists i: nat ::
      FirstRefusedAt(taken + {parts[0].field}, parts[1..], i)
      && Admit(taken + {parts[0].field} + FieldsOf(parts[1..][..i]), parts[1..][i]) == Some(e)
    ensures exists i: nat :: FirstRefusedAt(taken, parts, i) && Admit(taken + FieldsOf(parts[..i]), parts[i]) == Some(e)
  {
    var i: nat :| FirstRefusedAt(taken + {parts[0].field}, parts[1..], i)
      && Admit(taken + {parts[0].field} + FieldsOf(parts[1..][..i]), parts[1..][i]) == Some(e);
    FirstRefusedShift(taken, parts, i);
  }

  /**
   * The parts in arrival order, after `taken` are filled: every part is stored, or the
   * request fails with the objection to the first part refused.
   */
  function ReceiveAfter(taken: set<string>, parts: seq<FilePart>): (r: Result<seq<Upload>, UploadError>)
    ensures r.Success? <==> forall i :: 0 <= i < |parts| ==> Admit(taken + FieldsOf(parts[..i]), parts[i]).None?
    ensures r.Success? ==> |r.value| == |parts| && forall i :: 0 <= i < |parts| ==> r.value[i] == Store(parts[i])
    ensures r.Failure? ==> exists i: nat :: FirstRefusedAt(taken, parts, i) && Admit(taken + FieldsOf(parts[..i]), parts[i]) == Some(r.error)
    decreases |parts|
  {
    if parts == [] then Success([])
    else
      match Admit(taken, parts[0])
      case Some(e) =>
        HeadRefused(taken, parts);
        Failure(e)
      case None =>
        AllAdmittedShift(taken, parts);
        match ReceiveAfter(taken + {parts[0].field}, parts[1..])
        case Failure(e) =>
          RefusalShift(taken, parts, e);
          Failure(e)
        case Success(us) =>
          Success([Store(parts[0])] + us)
  }

  /**
   * The upload middleware over a whole request: every part is stored in arrival order, or the
   * request fails with the objection to the first part refused.
   */
  function Receive(parts: seq<FilePart>): (r: Result<seq<Upload>, UploadError>)
    ensures r.Success? <==> forall i :: 0 <= i < |parts| ==> Admit(FieldsOf(parts[..i]), parts[i]).None?
    ensures r.Success? ==> |r.value| == |parts| && forall i :: 0 <= i < |parts| ==> r.value[i] == Store(parts[i])
    ensures r.Failure? ==> exists i: nat :: FirstRefusedAt({}, parts, i) && Admit(FieldsOf(parts[..i]), parts[i]) == Some(r.error)
  {
    assert forall i :: 0 <= i < |parts| ==> {} + FieldsOf(parts[..i]) == FieldsOf(parts[..i]);
    ReceiveAfter({}, parts)
  }

  /** A request goes through exactly when every part is for a distinct listed field, is an image and is within the limit. */
  lemma ReceiveSucceedsIff(parts: seq<FilePart>)
    ensures Receive(parts).Success? <==>
      forall i :: 0 <= i < |parts| ==>
        && IsUploadField(parts[i].field)
        && IsImageType(parts[i].mimetype)
        && parts[i].size <= ServerMaxFileBytes
        && (forall j :: 0 <= j < i ==> parts[j].field != parts[i].field)
  {
    forall i | 0 <= i < |parts|
      ensures parts[i].field !in FieldsOf(parts[..i]) <==> forall j :: 0 <= j < i ==> parts[j].field != parts[i].field
    {
      if parts[i].field in FieldsOf(parts[..i]) {
        var j :| 0 <= j < i && parts[..i][j].field == parts[i].field;
      }
      assert forall j :: 0 <= j < i ==> parts[j] == parts[..i][j];
    }
  }

  /**
   * A request answered with the size error had a part over 10 MiB: the first part refused is a
   * listed, not yet used field carrying an image above the limit. An oversized part that is not
   * an image meets the filter first and gets the filter's error instead.
   */
  lemma SizeErrorIffOversizedImage(parts: seq<FilePart>, i: nat)
    requires FirstRefusedAt({}, parts, i)
    ensures Receive(parts).Failure?
    ensures Receive(parts).error.MulterError? && Receive(parts).error.code == LimitFileSize <==>
      IsUploadField(parts[i].field) && parts[i].field !in FieldsOf(parts[..i])
      && IsImageType(parts[i].mimetype) && parts[i].size > ServerMaxFileBytes
    ensures IsUploadField(parts[i].field) && parts[i].field !in FieldsOf(parts[..i]) && !IsImageType(parts[i].mimetype) ==>
      Receive(parts).error == FilterError("Only image files are allowed!")
  {
    assert {} + FieldsOf(parts[..i]) == FieldsOf(parts[..i]);
    assert Admit(FieldsOf(parts[..i]), parts[i]).Some?;
    var k: nat :| FirstRefusedAt({}, parts, k) && Admit(FieldsOf(parts[..k]), parts[k]) == Some(Receive(parts).error);
    FirstRefusedUnique({}, parts, i, k);
  }

  /** Stored uploads carry at most one file per field, and their names hold no whitespace. */
  lemma ReceivedUploadsPlain(parts: seq<FilePart>)
    requires Receive(parts).Success?
    ensures var us := Receive(parts).value;
      && (forall i, j :: 0 <= i < j < |us| ==> us[i].field != us[j].field)
      && (forall i :: 0 <= i < |us| ==> IsUploadField(us[i].field) && NoWhitespace(us[i].file.filename))
  {
    var us := Receive(parts).value;
    ReceiveSucceedsIff(parts);
  }
}
