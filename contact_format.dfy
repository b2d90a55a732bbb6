/**
 * The two pure checks on the contact fields: the phone field's live formatting
 * and the email field's shape test on blur.
 */
module ContactFormat {
  import opened Text

  function Min(a: int, b: int): int {
    if a <= b then a else b
  }

  // ----- phone -----

  /** `value.replace(/\D/g, '')`: the ASCII digits of `s`, in order. */
  function Digits(s: string): (d: string)
    ensures AllDigits(d) && |d| <= |s|
  {
    if s == [] then [] else (if IsDigit(s[0]) then [s[0]] else []) + Digits(s[1..])
  }

  lemma {:induction false} DigitsAppend(a: string, b: string)
    ensures Digits(a + b) == Digits(a) + Digits(b)
    decreases |a|
  {
    if a == [] {
      assert a + b == b;
    } else {
      assert (a + b)[0] == a[0];
      assert (a + b)[1..] == a[1..] + b;
      DigitsAppend(a[1..], b);
      assert Digits(a + b) == (if IsDigit(a[0]) then [a[0]] else []) + (Digits(a[1..]) + Digits(b));
    }
  }

  lemma {:induction false} DigitsOfDigits(s: string)
    requires AllDigits(s)
    ensures Digits(s) == s
    decreases |s|
  {
    if s != [] {
      DigitsOfDigits(s[1..]);
    }
  }

  /**
   * The phone field's `input` handler: keep the digits, then lay out the first ten as
   * `(ddd) ddd-dddd`, or `(ddd) d..` with three to five digits; fewer than three stay bare.
   * The result keeps exactly the kept digits, in order, adds only punctuation, and never
   * exceeds the 14 characters of a full `(ddd) ddd-dddd`.
   */
  function FormatPhone(raw: string): (r: string)
    ensures Digits(r) == KeptDigits(raw)
    ensures |r| <= 14
  {
    var v := Digits(raw);
    if |v| >= 6 then
      LayoutLongDigits(v[..3], v[3..6], v[6..Min(|v|, 10)]);
      assert v[..3] + v[3..6] + v[6..Min(|v|, 10)] == v[..Min(|v|, 10)];
      "(" + v[..3] + ") " + v[3..6] + "-" + v[6..Min(|v|, 10)]
    else if |v| >= 3 then
      LayoutShortDigits(v[..3], v[3..]);
      assert v[..3] + v[3..] == v;
      "(" + v[..3] + ") " + v[3..]
    else
      DigitsOfDigits(v);
      v
  }

  /** The digits kept by the formatter: the first ten from six digits on, all of them below six. */
  function KeptDigits(raw: string): (d: string)
    ensures |Digits(raw)| >= 6 ==> |d| == Min(|Digits(raw)|, 10) && d == Digits(raw)[..|d|]
    ensures |Digits(raw)| < 6 ==> d == Digits(raw)
  {
    var v := Digits(raw);
    if |v| >= 6 then v[..Min(|v|, 10)] else v
  }

  lemma {:induction false} DigitsNone(p: string)
    requires forall i :: 0 <= i < |p| ==> !IsDigit(p[i])
    ensures Digits(p) == []
    decreases |p|
  {
    if p != [] {
      DigitsNone(p[1..]);
    }
  }

  /** Appending punctuation adds no digits; appending digits adds exactly them. */
  lemma DigitsThenPunct(s: string, p: string)
    requires forall i :: 0 <= i < |p| ==> !IsDigit(p[i])
    ensures Digits(s + p) == Digits(s)
  {
    DigitsAppend(s, p);
    DigitsNone(p);
  }

  lemma DigitsThenDigits(s: string, d: string)
    requires AllDigits(d)
    ensures Digits(s + d) == Digits(s) + d
  {
    DigitsAppend(s, d);
    DigitsOfDigits(d);
  }

  lemma LayoutLongDigits(a: string, b: string, c: string)
    requires AllDigits(a) && AllDigits(b) && AllDigits(c)
    ensures Digits("(" + a + ") " + b + "-" + c) == a + b + c
  {
    var x := "(" + a + ") " + b;
    LayoutShortDigits(a, b);
    DigitsThenPunct(x, "-");
    DigitsThenDigits(x + "-", c);
  }

  lemma LayoutShortDigits(a: string, b: string)
    requires AllDigits(a) && AllDigits(b)
    ensures Digits("(" + a + ") " + b) == a + b
  {
    var open, close := "(", ") ";
    DigitsNone(open);
    DigitsNone(close);
    DigitsAppend(open, a);
    DigitsOfDigits(a);
    var x := open + a;
    assert Digits(x) == a;
    DigitsAppend(x, close);
    var y := x + close;
    assert Digits(y) == a;
    DigitsAppend(y, b);
    DigitsOfDigits(b);
  }

  /** Re-running the formatter on its own output changes nothing. */
  lemma FormatPhoneIdempotent(raw: string)
    ensures FormatPhone(FormatPhone(raw)) == FormatPhone(raw)
  {
    var v := Digits(raw);
    var w := Digits(FormatPhone(raw));
    assert w == KeptDigits(raw);
    if |v| >= 6 {
      assert w[..3] == v[..3] && w[3..6] == v[3..6];
      assert w[6..Min(|w|, 10)] == v[6..Min(|v|, 10)];
    }
  }

  /** Ten digits typed bare are laid out in full. */
  lemma FormatPhoneTenDigits(v: string)
    requires AllDigits(v) && |v| == 10
    ensures FormatPhone(v) == "(" + v[..3] + ") " + v[3..6] + "-" + v[6..]
  {
    DigitsOfDigits(v);
  }

  lemma FormatPhoneFullNumber()
    ensures FormatPhone("5551234567") == "(555) 123-4567"
  {
    var v := "5551234567";
    assert v[..3] == "555" && v[3..6] == "123" && v[6..] == "4567";
    assert "(" + "555" + ") " + "123" + "-" + "4567" == "(555) 123-4567";
    FormatPhoneTenDigits(v);
  }

  /** Six digits already get the dash, with nothing after it. */
  lemma FormatPhoneSixDigits()
    ensures FormatPhone("555123") == "(555) 123-"
  {
    DigitsOfDigits("555123");
  }

  lemma FormatPhonePartial()
    ensures FormatPhone("(555) 12") == "(555) 12"
  {
    LayoutShortDigits("555", "12");
    assert "(555) 12" == "(" + "555" + ") " + "12";
  }

  // ----- email -----

  /** A character of the class `[^\s@]`. */
  predicate AtomChar(c: char) {
    !IsWhitespace(c) && c != '@'
  }

  /** A string matched by `[^\s@]+`. */
  predicate IsAtom(s: string) {
    |s| >= 1 && forall i :: 0 <= i < |s| ==> AtomChar(s[i])
  }

  /**
   * The email pattern `^[^\s@]+@[^\s@]+\.[^\s@]+$` as written: some split of the
   * whole string into three atoms joined by an `@` and a `.`.
   */
  ghost predicate MatchesEmailPattern(s: string) {
    exists i, j :: 0 <= i < j < |s| && s[i] == '@' && s[j] == '.'
      && IsAtom(s[..i]) && IsAtom(s[i + 1..j]) && IsAtom(s[j + 1..])
  }

  /**
   * The test the blur handler runs: one `@` with a non-empty atom before it, and after it
   * a run without whitespace or `@` that has a `.` strictly inside it.
   */
  function IsEmailShaped(s: string): (ok: bool)
    ensures ok ==> |s| >= 5 && Occurrences(s, '@') == 1
  {
    var at := IndexOf(s, '@');
    var ok := at < |s| && IsAtom(s[..at]) &&
      (var rest := s[at + 1..];
       |rest| >= 3 && (forall k :: 0 <= k < |rest| ==> AtomChar(rest[k])) && '.' in rest[1..|rest| - 1]);
    if ok then
      OneAtSign(s, at);
      true
    else
      false
  }

  /** A string with one `@` and none on either side of it holds exactly one. */
  lemma OneAtSign(s: string, at: nat)
    requires at < |s| && s[at] == '@'
    requires forall k :: 0 <= k < at ==> s[k] != '@'
    requires forall k :: at < k < |s| ==> s[k] != '@'
    ensures Occurrences(s, '@') == 1
  {
    var before, after := s[..at], s[at + 1..];
    assert s == before + [s[at]] + after;
    assert forall k :: 0 <= k < |after| ==> after[k] == s[at + 1 + k];
    OccurrencesAbsent(before, '@');
    OccurrencesAbsent(after, '@');
    OccurrencesAppend(before, [s[at]], '@');
    OccurrencesAppend(before + [s[at]], after, '@');
    assert Occurrences([s[at]], '@') == 1 by {
      assert [s[at]][..0] == [];
    }
  }

  lemma ShapedMatchesPattern(s: string)
    requires IsEmailShaped(s)
    ensures MatchesEmailPattern(s)
  {
    var at := IndexOf(s, '@');
    var rest := s[at + 1..];
    var inner := rest[1..|rest| - 1];
    var k :| 0 <= k < |inner| && inner[k] == '.';
    var j := at + 2 + k;
    assert s[j] == '.';
    assert s[at + 1..j] == rest[..k + 1];
    assert s[j + 1..] == rest[k + 2..];
    assert IsAtom(s[at + 1..j]);
    assert IsAtom(s[j + 1..]);
  }

  lemma PatternMatchesShaped(s: string, i: nat, j: nat)
    requires 0 <= i < j < |s| && s[i] == '@' && s[j] == '.'
    requires IsAtom(s[..i]) && IsAtom(s[i + 1..j]) && IsAtom(s[j + 1..])
    ensures IsEmailShaped(s)
  {
    assert forall k :: 0 <= k < i ==> s[k] == s[..i][k];
    assert IndexOf(s, '@') == i;
    var rest := s[i + 1..];
    forall k | 0 <= k < |rest| ensures AtomChar(rest[k]) {
      if i + 1 + k < j {
        assert rest[k] == s[i + 1..j][k];
      } else if i + 1 + k > j {
        assert rest[k] == s[j + 1..][i + k - j];
      }
    }
    assert rest[1..|rest| - 1][j - i - 2] == '.';
  }

  /** The computed test agrees with the regular expression on every string. */
  lemma EmailShapeMatchesPattern(s: string)
    ensures IsEmailShaped(s) <==> MatchesEmailPattern(s)
  {
    if IsEmailShaped(s) {
      ShapedMatchesPattern(s);
    }
    if MatchesEmailPattern(s) {
      var i, j :| 0 <= i < j < |s| && s[i] == '@' && s[j] == '.'
        && IsAtom(s[..i]) && IsAtom(s[i + 1..j]) && IsAtom(s[j + 1..]);
      PatternMatchesShaped(s, i, j);
    }
  }

  /** The blur handler's test: the email field is marked invalid exactly when it is non-empty and fails the pattern. */
  function EmailFlagged(email: string): (flagged: bool)
    ensures flagged <==> email != [] && !MatchesEmailPattern(email)
  {
    EmailShapeMatchesPattern(email);
    email != [] && !IsEmailShaped(email)
  }

  lemma EmailExamples()
    ensures !EmailFlagged("a@b.com")
    ensures !EmailFlagged("")
    ensures EmailFlagged("a@b")
    ensures EmailFlagged("a b@c.d")
  {
    assert IndexOf("a@b.com", '@') == 1;
    assert "a@b.com"[2..][1..4][0] == '.';
    assert IndexOf("a@b", '@') == 1;
    assert IndexOf("a b@c.d", '@') == 3;
    assert !AtomChar("a b@c.d"[..3][1]);
  }
}
