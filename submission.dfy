/**
 * The server's submission route and error middleware: one attachment and one
 * `photosList` line per received field, the humanised shot names listed in the mail,
 * and the mapping from failures to HTTP statuses. The mail transport's outcome is a parameter.
 */
module Submission {
  import opened Wrappers
  import opened Text
  import opened FileAcceptance
  import opened UploadPolicy

  // ----- the humanised field names -----

  predicate IsAsciiUpper(c: char) {
    'A' <= c <= 'Z'
  }

  predicate IsAsciiLower(c: char) {
    'a' <= c <= 'z'
  }

  function ToLowerAscii(c: char): (d: char)
    ensures !IsAsciiUpper(d)
  {
    if IsAsciiUpper(c) then (c as int + 32) as char else c
  }

  function ToUpperAscii(c: char): char {
    if IsAsciiLower(c) then (c as int - 32) as char else c
  }

  /** `replace(/([A-Z])/g, ' $1')`: a space before every upper-case ASCII letter. */
  function SpaceBeforeCapitals(s: string): string {
    if s == [] then [] else Spaced(s[0]) + SpaceBeforeCapitals(s[1..])
  }

  function Spaced(c: char): string {
    if IsAsciiUpper(c) then [' ', c] else [c]
  }

  /** `toLowerCase()`, on the ASCII letters. */
  function LowerCase(s: string): (r: string)
    ensures |r| == |s| && forall i :: 0 <= i < |s| ==> r[i] == ToLowerAscii(s[i])
  {
    seq(|s|, i requires 0 <= i < |s| => ToLowerAscii(s[i]))
  }

  /**
   * The name of a field as the mail lists it: `frontRightCorner` reads `front right corner`.
   * The result has no upper-case ASCII letter, and one more character per capital in the name.
   */
  function Humanise(name: string): (h: string)
    ensures |h| == |name| + UpperCount(name)
    ensures forall i :: 0 <= i < |h| ==> !IsAsciiUpper(h[i])
  {
    SpacedLength(name);
    LowerCase(SpaceBeforeCapitals(name))
  }

  lemma {:induction false} SpacedLength(s: string)
    ensures |SpaceBeforeCapitals(s)| == |s| + UpperCount(s)
    decreases |s|
  {
    if s != [] {
      SpacedLength(s[1..]);
    }
  }

  function UpperCount(s: string): nat {
    if s == [] then 0 else (if IsAsciiUpper(s[0]) then 1 else 0) + UpperCount(s[1..])
  }

  /** Humanising one character at a time. */
  lemma HumaniseCons(s: string)
    requires s != []
    ensures Humanise(s) == (if IsAsciiUpper(s[0]) then [' ', ToLowerAscii(s[0])] else [ToLowerAscii(s[0])]) + Humanise(s[1..])
  {
    var head := Spaced(s[0]);
    assert SpaceBeforeCapitals(s) == head + SpaceBeforeCapitals(s[1..]);
    assert LowerCase(head + SpaceBeforeCapitals(s[1..])) == LowerCase(head) + LowerCase(SpaceBeforeCapitals(s[1..]));
  }

  /** Turns a humanised name back into camel case: a space before a lower-case letter becomes that letter in upper case. */
  function Camelise(h: string): string
    decreases |h|
  {
    if h == [] then []
    else if |h| >= 2 && h[0] == ' ' && IsAsciiLower(h[1]) then [ToUpperAscii(h[1])] + Camelise(h[2..])
    else [h[0]] + Camelise(h[1..])
  }

  /** A name without spaces is recovered from its humanised form. */
  lemma {:induction false} HumaniseRoundTrip(s: string)
    requires forall i :: 0 <= i < |s| ==> s[i] != ' '
    ensures Camelise(Humanise(s)) == s
    decreases |s|
  {
    if s != [] {
      HumaniseCons(s);
      HumaniseRoundTrip(s[1..]);
      var h := Humanise(s);
      if IsAsciiUpper(s[0]) {
        assert h[2..] == Humanise(s[1..]);
      } else {
        assert h[1..] == Humanise(s[1..]);
      }
    }
  }

  lemma {:induction false} SpaceBeforeCapitalsAppend(a: string, b: string)
    ensures SpaceBeforeCapitals(a + b) == SpaceBeforeCapitals(a) + SpaceBeforeCapitals(b)
    decreases |a|
  {
    if a == [] {
      assert a + b == b;
    } else {
      assert (a + b)[0] == a[0];
      assert (a + b)[1..] == a[1..] + b;
      SpaceBeforeCapitalsAppend(a[1..], b);
    }
  }

  lemma HumaniseAppend(a: string, b: string)
    ensures Humanise(a + b) == Humanise(a) + Humanise(b)
  {
    SpaceBeforeCapitalsAppend(a, b);
    var x, y := SpaceBeforeCapitals(a), SpaceBeforeCapitals(b);
    assert LowerCase(x + y) == LowerCase(x) + LowerCase(y);
  }

  /** A lower-case word is left as it is. */
  lemma {:induction false} HumaniseLowerWord(s: string)
    requires forall i :: 0 <= i < |s| ==> IsAsciiLower(s[i])
    ensures Humanise(s) == s
    decreases |s|
  {
    if s != [] {
      HumaniseCons(s);
      HumaniseLowerWord(s[1..]);
    }
  }

  /** A capital followed by a lower-case word becomes a space and the word in lower case. */
  lemma HumaniseCapitalWord(c: char, word: string)
    requires IsAsciiUpper(c) && forall i :: 0 <= i < |word| ==> IsAsciiLower(word[i])
    ensures Humanise([c] + word) == [' ', ToLowerAscii(c)] + word
  {
    HumaniseCons([c] + word);
    assert ([c] + word)[1..] == word;
    HumaniseLowerWord(word);
  }

  lemma HumaniseThreeWords(a: string, b: string, c: string)
    ensures Humanise(a + b + c) == Humanise(a) + Humanise(b) + Humanise(c)
  {
    HumaniseAppend(a, b);
    HumaniseAppend(a + b, c);
  }

  /** A lower-case word followed by two capitalised words reads as three words separated by spaces. */
  lemma HumaniseCamelWords(a: string, c1: char, b: string, c2: char, d: string)
    requires forall i :: 0 <= i < |a| ==> IsAsciiLower(a[i])
    requires forall i :: 0 <= i < |b| ==> IsAsciiLower(b[i])
    requires forall i :: 0 <= i < |d| ==> IsAsciiLower(d[i])
    requires IsAsciiUpper(c1) && IsAsciiUpper(c2)
    ensures Humanise(a + ([c1] + b) + ([c2] + d)) == a + ([' ', ToLowerAscii(c1)] + b) + ([' ', ToLowerAscii(c2)] + d)
  {
    HumaniseThreeWords(a, [c1] + b, [c2] + d);
    HumaniseLowerWord(a);
    HumaniseCapitalWord(c1, b);
    HumaniseCapitalWord(c2, d);
  }

  lemma HumaniseExample(name: string)
    requires name == "frontRightCorner"
    ensures Humanise(name) == "front right corner"
  {
    assert name == "front" + (['R'] + "ight") + (['C'] + "orner");
    assert "front" + ([' ', ToLowerAscii('R')] + "ight") + ([' ', ToLowerAscii('C')] + "orner") == "front right corner";
    HumaniseCamelWords("front", 'R', "ight", 'C', "orner");
  }

  // ----- attachments and the photo list -----

  datatype Attachment = Attachment(filename: string, path: string)

  /** The mail attachment for one upload: named after the field and the stored file, read from the stored path. */
  function AttachmentFor(u: Upload): (a: Attachment)
    ensures a.path == u.file.path
    ensures |a.filename| > |u.field| && a.filename[|u.field|] == '-'
    ensures a.filename[..|u.field|] == u.field && a.filename[|u.field| + 1..] == u.file.filename
  {
    Attachment(u.field + "-" + u.file.filename, u.file.path)
  }

  /** One `photosList` line; with whitespace-free names it holds exactly one line break, at its end. */
  function PhotoLine(u: Upload): (line: string)
    ensures line != [] && line[|line| - 1] == '\n'
    ensures NoWhitespace(u.field) && NoWhitespace(u.file.filename) ==> Occurrences(line, '\n') == 1
  {
    SingleLine(u.field, u.file.filename);
    u.field + ": " + u.file.filename + "\n"
  }

  lemma SingleLine(field: string, filename: string)
    ensures NoWhitespace(field) && NoWhitespace(filename) ==> Occurrences(field + ": " + filename + "\n", '\n') == 1
  {
    if NoWhitespace(field) && NoWhitespace(filename) {
      var body := field + ": " + filename;
      assert field + ": " + filename + "\n" == body + "\n";
      assert forall i :: 0 <= i < |body| ==> body[i] != '\n' by {
        forall i | 0 <= i < |body| ensures body[i] != '\n' {
          if i >= |field| + 2 {
            assert body[i] == filename[i - |field| - 2];
          } else if i < |field| {
            assert body[i] == field[i];
          }
        }
      }
      OccurrencesAbsent(body, '\n');
      OccurrencesAppend(body, "\n", '\n');
    }
  }

  /** `photosList`: one line per upload, in the order of the uploads; each line ends in a line break. */
  function PhotosList(uploads: seq<Upload>): (list: string)
    ensures list == [] <==> uploads == []
    ensures uploads != [] ==> list[|list| - 1] == '\n'
  {
    if uploads == [] then "" else PhotosList(uploads[..|uploads| - 1]) + PhotoLine(uploads[|uploads| - 1])
  }

  /** The attachment loop: one attachment and one list line per received field, in key order. */
  method BuildAttachments(uploads: seq<Upload>) returns (attachments: seq<Attachment>, photosList: string)
    ensures |attachments| == |uploads|
    ensures forall i :: 0 <= i < |uploads| ==> attachments[i] == AttachmentFor(uploads[i])
    ensures photosList == PhotosList(uploads)
  {
    attachments := [];
    photosList := "";
    for i := 0 to |uploads|
      invariant |attachments| == i
      invariant forall k :: 0 <= k < i ==> attachments[k] == AttachmentFor(uploads[k])
      invariant photosList == PhotosList(uploads[..i])
    {
      attachments := attachments + [AttachmentFor(uploads[i])];
      assert uploads[..i + 1][..i] == uploads[..i];
      photosList := photosList + PhotoLine(uploads[i]);
    }
    assert uploads[..|uploads|] == uploads;
  }

  /** With field names and stored names free of whitespace, the list has exactly one line per upload. */
  lemma {:induction false} PhotosListLineCount(uploads: seq<Upload>)
    requires forall i :: 0 <= i < |uploads| ==> NoWhitespace(uploads[i].field) && NoWhitespace(uploads[i].file.filename)
    ensures Occurrences(PhotosList(uploads), '\n') == |uploads|
    decreases |uploads|
  {
    if uploads != [] {
      var u := uploads[|uploads| - 1];
      PhotosListLineCount(uploads[..|uploads| - 1]);
      OccurrencesAppend(PhotosList(uploads[..|uploads| - 1]), PhotoLine(u), '\n');
    }
  }

  /** Every accepted request yields one `photosList` line per file part. */
  lemma OneLinePerPart(parts: seq<FilePart>)
    requires Receive(parts).Success?
    ensures Occurrences(PhotosList(Receive(parts).value), '\n') == |parts|
  {
    var us := Receive(parts).value;
    ReceivedUploadsPlain(parts);
    forall i | 0 <= i < |us| ensures NoWhitespace(us[i].field) {
      UploadFieldNamesPlain(us[i].field);
    }
    PhotosListLineCount(us);
  }

  // ----- responses -----

  datatype Response = Response(status: nat, success: bool, message: string)

  /** The error middleware: the size-limit error is the client's fault (400); every other error is 500. */
  function ErrorResponse(e: UploadError): (r: Response)
    ensures !r.success
    ensures r.status == 400 <==> e.MulterError? && e.code == LimitFileSize
    ensures r.status != 400 ==> r.status == 500 && r.message == e.message
  {
    if e.MulterError? && e.code == LimitFileSize then
      Response(400, false, "File too large. Maximum size is 10MB.")
    else
      Response(500, false, e.message)
  }

  const Recipient: string := "max@barringtonclaims.com"

  /** The mail handed to the transport; its HTML layout is not modelled beyond the listed shot names. */
  datatype MailMessage = MailMessage(to: string, subject: string, attachments: seq<Attachment>, photoNames: seq<string>)

  /** A body field as a template literal prints it: a missing one reads `undefined`. */
  function BodyText(body: map<string, string>, name: string): string {
    if name in body then body[name] else "undefined"
  }

  /**
   * The submission route behind the upload middleware. The middleware's error goes to the
   * error handler; otherwise the mail is built and handed to the transport, whose outcome
   * `delivered` decides between success and a 500.
   */
  method HandleSubmission(body: map<string, string>, parts: seq<FilePart>, delivered: bool)
    returns (response: Response, mail: Option<MailMessage>)
    ensures response.success <==> Receive(parts).Success? && delivered
    ensures response.status == 200 <==> response.success
    ensures response.status == 400 <==> Receive(parts).Failure? && Receive(parts).error.MulterError?
                                        && Receive(parts).error.code == LimitFileSize
    ensures response.status in {200, 400, 500}
    ensures Receive(parts).Failure? ==> response == ErrorResponse(Receive(parts).error)
    ensures mail.Some? <==> Receive(parts).Success?
    ensures mail.Some? ==>
      && mail.value.to == Recipient
      && mail.value.subject == "New GutterSnap Request - " + BodyText(body, "address")
      && |mail.value.attachments| == |parts| == |mail.value.photoNames|
      && forall i :: 0 <= i < |parts| ==>
           && mail.value.attachments[i].filename == parts[i].field + "-" + StoredFilename(parts[i].receivedAt, parts[i].originalName)
           && mail.value.photoNames[i] == Humanise(parts[i].field)
  {
    var received := Receive(parts);
    if received.Failure? {
      response := ErrorResponse(received.error);
      mail := None;
      return;
    }
    var uploads := received.value;
    var attachments, photosList := BuildAttachments(uploads);
    var names := seq(|uploads|, i requires 0 <= i < |uploads| => Humanise(uploads[i].field));
    mail := Some(MailMessage(Recipient, "New GutterSnap Request - " + BodyText(body, "address"), attachments, names));
    if delivered {
      response := Response(200, true, "Request submitted successfully!");
    } else {
      response := Response(500, false, "Error processing request. Please try again.");
    }
  }

  /**
   * The answer to a refused request is decided by the first part refused: 400 exactly when it is
   * a listed, not yet used field carrying an image over 10 MiB. An oversized part of another type
   * meets the image filter first and is answered 500 with the filter's message.
   */
  lemma RefusalStatus(parts: seq<FilePart>, i: nat)
    requires FirstRefusedAt({}, parts, i)
    ensures Receive(parts).Failure?
    ensures ErrorResponse(Receive(parts).error).status == 400 <==>
      IsUploadField(parts[i].field) && parts[i].field !in FieldsOf(parts[..i])
      && IsImageType(parts[i].mimetype) && parts[i].size > ServerMaxFileBytes
    ensures IsUploadField(parts[i].field) && parts[i].field !in FieldsOf(parts[..i]) && !IsImageType(parts[i].mimetype) ==>
      ErrorResponse(Receive(parts).error) == Response(500, false, "Only image files are allowed!")
  {
    SizeErrorIffOversizedImage(parts, i);
  }
}
