/** Text of a BIP-32 derivation path all of whose levels are hardened, such as
    `m/44'/501'/0'/0'`: the letter `m`, then `/<decimal>'` per level. Both wallet
    components build their paths from template literals; this module gives the
    common shape those strings have, and a reader that recovers the levels, so
    that properties of a path (its coin type, where the account index sits,
    which paths coincide) can be stated on numbers rather than on text. */
module HdPath {
  import opened Wrappers
  import opened Text

  /** The text of the levels after `m`. */
  function FormatLevels(levels: seq<nat>): string
    decreases |levels|
  {
    if |levels| == 0 then ""
    else "/" + Decimal(levels[0]) + "'" + FormatLevels(levels[1..])
  }

  /** The full path text for a sequence of hardened levels. */
  function Format(levels: seq<nat>): string {
    "m" + FormatLevels(levels)
  }

  /** The text of a four-level path, spelled out. */
  lemma FormatFourLevels(a: nat, b: nat, c: nat, d: nat)
    ensures Format([a, b, c, d])
         == "m/" + Decimal(a) + "'/" + Decimal(b) + "'/" + Decimal(c) + "'/" + Decimal(d) + "'"
  {
    var da, db, dc, dd := Decimal(a), Decimal(b), Decimal(c), Decimal(d);
    assert [a, b, c, d][1..] == [b, c, d];
    assert [b, c, d][1..] == [c, d];
    assert [c, d][1..] == [d];
    assert [d][1..] == [];
    assert FormatLevels([d]) == ("/" + dd + "'") + "";
    assert FormatLevels([c, d]) == ("/" + dc + "'") + FormatLevels([d]);
    assert FormatLevels([b, c, d]) == ("/" + db + "'") + FormatLevels([c, d]);
    assert FormatLevels([a, b, c, d]) == ("/" + da + "'") + FormatLevels([b, c, d]);
    assert Format([a, b, c, d])
        == "m" + (("/" + da + "'") + (("/" + db + "'") + (("/" + dc + "'") + (("/" + dd + "'") + ""))));
    ConcatFour(da, db, dc, dd);
  }

  lemma ConcatFour(da: string, db: string, dc: string, dd: string)
    ensures "m/" + da + "'/" + db + "'/" + dc + "'/" + dd + "'"
         == "m" + (("/" + da + "'") + (("/" + db + "'") + (("/" + dc + "'") + (("/" + dd + "'") + ""))))
  {
  }

  /** Length of the run of decimal digits at the start of `s`. */
  function DigitRun(s: string): (k: nat)
    ensures k <= |s|
    ensures AllDigits(s[..k])
    ensures k < |s| ==> !IsDigit(s[k])
    decreases |s|
  {
    if |s| > 0 && IsDigit(s[0]) then
      var k := 1 + DigitRun(s[1..]);
      assert s[..k] == [s[0]] + s[1..][..k - 1];
      k
    else 0
  }

  /** Reads `/<digits>'` segments until the text is used up; None as soon as a
      segment is malformed. */
  function ParseLevels(s: string): Option<seq<nat>>
    decreases |s|
  {
    if |s| == 0 then Some([])
    else if s[0] != '/' then None
    else
      var k := DigitRun(s[1..]);
      assert s[1..1 + k] == s[1..][..k];
      if k == 0 || 1 + k >= |s| || s[1 + k] != '\'' then None
      else
        match ParseLevels(s[k + 2..])
        case None => None
        case Some(rest) => Some([DigitsValue(s[1..1 + k])] + rest)
  }

  /** Reads a path of the shape `m(/<digits>')+`: None for any other text. */
  function Parse(s: string): Option<seq<nat>> {
    if |s| == 0 || s[0] != 'm' then None
    else
      match ParseLevels(s[1..])
      case Some(levels) => if |levels| == 0 then None else Some(levels)
      case None => None
  }

  /** A run of digits followed by a non-digit (or nothing) is read to its end. */
  lemma {:induction false} DigitRunOfDigits(d: string, t: string)
    requires AllDigits(d)
    requires t == [] || !IsDigit(t[0])
    ensures DigitRun(d + t) == |d|
    decreases |d|
  {
    if |d| > 0 {
      assert (d + t)[1..] == d[1..] + t;
      DigitRunOfDigits(d[1..], t);
    } else {
      assert d + t == t;
    }
  }

  /** Reading one `/<digits>'` segment and then the rest. */
  lemma ParseOneLevel(d: string, rest: string)
    requires |d| >= 1 && AllDigits(d)
    ensures ParseLevels("/" + d + "'" + rest)
         == match ParseLevels(rest)
            case None => None
            case Some(levels) => Some([DigitsValue(d)] + levels)
  {
    var s := "/" + d + "'" + rest;
    assert s[1..] == d + ("'" + rest);
    DigitRunOfDigits(d, "'" + rest);
    assert s[1 + |d|] == '\'';
    assert s[1..1 + |d|] == d;
    assert s[|d| + 2..] == rest;
  }

  lemma {:induction false} ParseFormatLevels(levels: seq<nat>)
    ensures ParseLevels(FormatLevels(levels)) == Some(levels)
    decreases |levels|
  {
    if |levels| > 0 {
      ParseOneLevel(Decimal(levels[0]), FormatLevels(levels[1..]));
      ParseFormatLevels(levels[1..]);
      DecimalRoundTrip(levels[0]);
      assert levels == [levels[0]] + levels[1..];
    }
  }

  /** Reading a formatted path gives back its levels. */
  lemma ParseFormat(levels: seq<nat>)
    requires |levels| >= 1
    ensures Parse(Format(levels)) == Some(levels)
  {
    assert Format(levels)[1..] == FormatLevels(levels);
    ParseFormatLevels(levels);
  }

  /** Two non-empty level sequences have the same text only if they are equal. */
  lemma FormatInjective(a: seq<nat>, b: seq<nat>)
    requires |a| >= 1 && |b| >= 1
    ensures Format(a) == Format(b) <==> a == b
  {
    if Format(a) == Format(b) {
      ParseFormat(a);
      ParseFormat(b);
    }
  }
}
