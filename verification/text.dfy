/** The pieces of JavaScript string behaviour the wallet components rely on:
    integer-to-decimal rendering in template literals, `String.prototype.trim`,
    `String.prototype.split(" ")` and `Array.prototype.join(" ")`. */
module Text {

  // ---------------------------------------------------------------------------
  // Decimal digits
  // ---------------------------------------------------------------------------

  predicate IsDigit(ch: char) {
    '0' <= ch <= '9'
  }

  predicate AllDigits(s: string) {
    forall i :: 0 <= i < |s| ==> IsDigit(s[i])
  }

  function DigitChar(d: nat): (ch: char)
    requires d < 10
    ensures IsDigit(ch)
    ensures ch as int - '0' as int == d
  {
    (d + '0' as int) as char
  }

  function DigitValue(ch: char): (d: nat)
    requires IsDigit(ch)
    ensures d < 10
  {
    ch as int - '0' as int
  }

  /** The text `${n}` produces for a non-negative integer Number: plain decimal,
      no sign, no leading zero. */
  function Decimal(n: nat): (r: string)
    ensures 1 <= |r|
    ensures AllDigits(r)
    ensures n == 0 <==> r == "0"
    ensures n > 0 ==> r[0] != '0'
    decreases n
  {
    if n < 10 then [DigitChar(n)] else Decimal(n / 10) + [DigitChar(n % 10)]
  }

  /** The number a run of decimal digits denotes (most significant first). */
  function DigitsValue(s: string): nat
    requires AllDigits(s)
    decreases |s|
  {
    if |s| == 0 then 0 else DigitsValue(s[..|s| - 1]) * 10 + DigitValue(s[|s| - 1])
  }

  /** Reading back the rendered decimal gives the number that was rendered. */
  lemma {:induction false} DecimalRoundTrip(n: nat)
    ensures DigitsValue(Decimal(n)) == n
    decreases n
  {
    if n >= 10 {
      var r := Decimal(n);
      DecimalRoundTrip(n / 10);
      assert r[..|r| - 1] == Decimal(n / 10);
      assert DigitValue(r[|r| - 1]) == n % 10;
    }
  }

  /** Distinct numbers render as distinct text. */
  lemma DecimalInjective(a: nat, b: nat)
    ensures Decimal(a) == Decimal(b) <==> a == b
  {
    if Decimal(a) == Decimal(b) {
      DecimalRoundTrip(a);
      DecimalRoundTrip(b);
    }
  }

  // ---------------------------------------------------------------------------
  // String.prototype.trim
  // ---------------------------------------------------------------------------

  /** The characters ECMAScript's trim removes: WhiteSpace (tab, vertical tab,
      form feed, space, no-break space, byte-order mark and the other Unicode
      space separators) and LineTerminator (line feed, carriage return, line
      and paragraph separators). */
  predicate IsJsWhitespace(ch: char) {
    || ch == '\t' || ch == '\n' || ch == '\U{000B}' || ch == '\U{000C}' || ch == '\r'
    || ch == ' ' || ch == '\U{00A0}' || ch == '\U{1680}'
    || ('\U{2000}' <= ch <= '\U{200A}')
    || ch == '\U{2028}' || ch == '\U{2029}' || ch == '\U{202F}' || ch == '\U{205F}'
    || ch == '\U{3000}' || ch == '\U{FEFF}'
  }

  /** `t` is the piece of `s` that starts at offset `k`. */
  predicate OccursAt(t: string, s: string, k: int) {
    0 <= k <= |s| - |t| && t == s[k..k + |t|]
  }

  /** Every character of `s` from `lo` up to (not including) `hi` is whitespace. */
  predicate WhitespaceIn(s: string, lo: int, hi: int)
    requires 0 <= lo <= hi <= |s|
  {
    forall i :: lo <= i < hi ==> IsJsWhitespace(s[i])
  }

  predicate AllWhitespace(s: string) {
    WhitespaceIn(s, 0, |s|)
  }

  /** Drops the leading whitespace: what is left is a suffix of `s`, all of the
      dropped prefix is whitespace, and what is left does not start with any. */
  function TrimStart(s: string): (r: string)
    ensures |r| <= |s| && r == s[|s| - |r|..]
    ensures WhitespaceIn(s, 0, |s| - |r|)
    ensures r == [] || !IsJsWhitespace(r[0])
    decreases |s|
  {
    if |s| > 0 && IsJsWhitespace(s[0]) then
      var r := TrimStart(s[1..]);
      assert forall i :: 1 <= i < |s| - |r| ==> s[i] == s[1..][i - 1];
      r
    else s
  }

  /** Drops the trailing whitespace: what is left is a prefix of `s`, all of the
      dropped suffix is whitespace, and what is left does not end with any. */
  function TrimEnd(s: string): (r: string)
    ensures |r| <= |s| && r == s[..|r|]
    ensures WhitespaceIn(s, |r|, |s|)
    ensures r == [] || !IsJsWhitespace(r[|r| - 1])
    decreases |s|
  {
    if |s| > 0 && IsJsWhitespace(s[|s| - 1]) then TrimEnd(s[..|s| - 1]) else s
  }

  /** `s.trim()`: `s` with its leading and trailing whitespace removed and
      nothing else; what is left neither starts nor ends with whitespace, and
      is empty exactly when `s` is all whitespace. */
  function Trim(s: string): (r: string)
    ensures exists k :: OccursAt(r, s, k) && WhitespaceIn(s, 0, k) && WhitespaceIn(s, k + |r|, |s|)
    ensures r == [] <==> AllWhitespace(s)
    ensures r != [] ==> !IsJsWhitespace(r[0]) && !IsJsWhitespace(r[|r| - 1])
  {
    var t := TrimStart(s);
    var r := TrimEnd(t);
    TrimTail(s, t, r);
    TrimEmpty(s, t, r);
    r
  }

  /** The whitespace `TrimEnd` drops from `t` is the tail of `s`. */
  lemma TrimTail(s: string, t: string, r: string)
    requires |t| <= |s| && t == s[|s| - |t|..]
    requires |r| <= |t| && r == t[..|r|] && WhitespaceIn(t, |r|, |t|)
    ensures OccursAt(r, s, |s| - |t|)
    ensures WhitespaceIn(s, |s| - |t| + |r|, |s|)
  {
    var k := |s| - |t|;
    assert forall i :: k + |r| <= i < |s| ==> s[i] == t[i - k];
  }

  lemma TrimEmpty(s: string, t: string, r: string)
    requires |t| <= |s| && t == s[|s| - |t|..] && WhitespaceIn(s, 0, |s| - |t|)
    requires |r| <= |t| && r == t[..|r|] && WhitespaceIn(t, |r|, |t|)
    requires r == [] || !IsJsWhitespace(r[0])
    ensures r == [] <==> AllWhitespace(s)
  {
    var k := |s| - |t|;
    if r == [] {
      assert forall i :: k <= i < |s| ==> s[i] == t[i - k];
    } else {
      assert s[k] == r[0];
    }
  }

  /** Trimming twice is trimming once. */
  lemma TrimIdempotent(s: string)
    ensures Trim(Trim(s)) == Trim(s)
  {
    var r := Trim(s);
    if r != [] {
      assert TrimStart(r) == r;
      assert TrimEnd(r) == r;
    }
  }

  // ---------------------------------------------------------------------------
  // split(" ") and join(" ")
  // ---------------------------------------------------------------------------

  /** `s.split(sep)` for a one-character separator: the pieces between
      successive separators, so there is always at least one piece and an empty
      string gives `[""]`. */
  function Split(s: string, sep: char): (r: seq<string>)
    ensures |r| >= 1
    ensures forall i :: 0 <= i < |r| ==> sep !in r[i]
    ensures Join(r, sep) == s
    decreases |s|
  {
    if |s| == 0 then [""]
    else
      var rest := Split(s[1..], sep);
      if s[0] == sep then
        assert Join([""] + rest, sep) == [sep] + Join(rest, sep);
        [""] + rest
      else
        var r := [[s[0]] + rest[0]] + rest[1..];
        assert Join(r, sep) == [s[0]] + Join(rest, sep) by {
          if |rest| > 1 {
            assert r[1..] == rest[1..];
          }
        }
        r
  }

  /** `parts.join(sep)`. */
  function Join(parts: seq<string>, sep: char): string
    decreases |parts|
  {
    if |parts| == 0 then ""
    else if |parts| == 1 then parts[0]
    else parts[0] + [sep] + Join(parts[1..], sep)
  }

  /** The other direction of the split/join round trip: pieces that contain no
      separator are recovered by splitting their join. */
  lemma {:induction false} SplitJoin(parts: seq<string>, sep: char)
    requires |parts| >= 1
    requires forall i :: 0 <= i < |parts| ==> sep !in parts[i]
    ensures Split(Join(parts, sep), sep) == parts
    decreases |parts|, |parts[0]|
  {
    var p := parts[0];
    if |p| == 0 {
      if |parts| > 1 {
        SplitJoin(parts[1..], sep);
        assert Join(parts, sep) == [sep] + Join(parts[1..], sep);
        SplitAtSeparator(Join(parts[1..], sep), sep);
        assert parts == [""] + parts[1..];
      }
    } else {
      var shorter := [p[1..]] + parts[1..];
      assert sep !in shorter[0] by {
        assert forall x :: x in p[1..] ==> x in p;
      }
      SplitJoin(shorter, sep);
      assert Join(parts, sep) == [p[0]] + Join(shorter, sep) by {
        if |parts| > 1 {
          assert shorter[1..] == parts[1..];
        }
      }
      assert p[0] != sep;
      SplitAtOther(p[0], Join(shorter, sep), sep);
      assert p == [p[0]] + p[1..];
      assert parts == [[p[0]] + shorter[0]] + shorter[1..];
    }
  }

  /** A leading separator closes an empty first piece. */
  lemma SplitAtSeparator(s: string, sep: char)
    ensures Split([sep] + s, sep) == [""] + Split(s, sep)
  {
    assert ([sep] + s)[1..] == s;
  }

  /** Any other leading character joins the first piece. */
  lemma SplitAtOther(ch: char, s: string, sep: char)
    requires ch != sep
    ensures Split([ch] + s, sep) == [[ch] + Split(s, sep)[0]] + Split(s, sep)[1..]
  {
    assert ([ch] + s)[1..] == s;
  }
}
