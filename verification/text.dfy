/** The handful of Python `str` operations the repository relies on:
    `split`, `join`, `strip`/`rstrip`, `lower`, `startswith`/`endswith`,
    `str(int)` and `int(str)`.  Strings are sequences of characters. */
module Text {
  import opened Outcomes

  /** Python's `str.isspace`: the ASCII blanks and controls `\t` to `\r`
      and `\x1c` to `\x1f`, and the Unicode separators and spaces. */
  predicate IsSpace(c: char) {
    ('\t' <= c <= '\r') || ('\U{001C}' <= c <= ' ')
    || c == '\U{0085}' || c == '\U{00A0}' || c == '\U{1680}'
    || ('\U{2000}' <= c <= '\U{200A}') || c == '\U{2028}' || c == '\U{2029}'
    || c == '\U{202F}' || c == '\U{205F}' || c == '\U{3000}'
  }

  /** `s.rstrip()`: drop trailing whitespace. */
  function RStrip(s: string): (r: string)
    ensures r <= s
    ensures |r| == 0 || !IsSpace(r[|r| - 1])
    ensures forall i :: |r| <= i < |s| ==> IsSpace(s[i])
  {
    if |s| > 0 && IsSpace(s[|s| - 1]) then RStrip(s[..|s| - 1]) else s
  }

  /** `s.lstrip()`: drop leading whitespace. */
  function LStrip(s: string): (r: string)
    ensures |r| <= |s| && r == s[|s| - |r|..]
    ensures |r| == 0 || !IsSpace(r[0])
    ensures forall i :: 0 <= i < |s| - |r| ==> IsSpace(s[i])
  {
    if |s| > 0 && IsSpace(s[0]) then LStrip(s[1..]) else s
  }

  /** `s.strip()`. */
  function Strip(s: string): string {
    LStrip(RStrip(s))
  }

  /** A string that `strip()` leaves alone. */
  predicate IsStripped(s: string) {
    |s| == 0 || (!IsSpace(s[0]) && !IsSpace(s[|s| - 1]))
  }

  lemma StripOfStripped(s: string)
    requires IsStripped(s)
    ensures Strip(s) == s
  {
  }

  lemma StripIsStripped(s: string)
    ensures IsStripped(Strip(s))
  {
    var r := RStrip(s);
    var l := LStrip(r);
    if |l| > 0 {
      assert l == r[|r| - |l|..];
      assert l[|l| - 1] == r[|r| - 1];
    }
  }

  /** Leading blanks make no difference to `strip()`. */
  lemma StripAfterSpace(s: string)
    ensures Strip(" " + s) == Strip(s)
  {
    var t := " " + s;
    if |s| > 0 && !IsSpace(s[|s| - 1]) {
      assert RStrip(t) == t;
      assert RStrip(s) == s;
      assert t[1..] == s;
    } else if |s| > 0 {
      assert t[..|t| - 1] == " " + s[..|s| - 1];
      StripAfterSpace(s[..|s| - 1]);
    } else {
      assert RStrip(t) == "";
    }
  }

  /** `s.strip(c)` for a single character `c`. */
  function StripChar(s: string, c: char): (r: string)
    ensures |r| == 0 || (r[0] != c && r[|r| - 1] != c)
    ensures |r| <= |s|
  {
    if |s| > 0 && s[0] == c then StripChar(s[1..], c)
    else if |s| > 0 && s[|s| - 1] == c then StripChar(s[..|s| - 1], c)
    else s
  }

  /** The capitals whose lower case letter lies 32 code points further:
      ASCII, Latin-1 (without the multiplication sign), Greek (without
      sigma, whose lower case depends on its place in the word) and the
      basic Cyrillic alphabet. */
  predicate ShiftedCapital(c: char) {
    ('A' <= c <= 'Z') || ('\U{00C0}' <= c <= '\U{00DE}' && c != '\U{00D7}')
    || ('\U{0391}' <= c <= '\U{03AB}' && c != '\U{03A2}' && c != '\U{03A3}') || ('\U{0410}' <= c <= '\U{042F}')
  }

  /** `c.lower()` for the capitals of `ShiftedCapital` and the Cyrillic
      capitals `Ѐ` to `Џ`, whose lower case letter lies 80 code points
      further; every other character is kept. */
  function LowerChar(c: char): char {
    if ShiftedCapital(c) then (c as int + 32) as char
    else if '\U{0400}' <= c <= '\U{040F}' then (c as int + 80) as char
    else c
  }

  /** `s.lower()`, character by character through `LowerChar`. */
  function Lower(s: string): (r: string)
    ensures |r| == |s|
    ensures forall i :: 0 <= i < |s| ==> r[i] == LowerChar(s[i])
  {
    if |s| == 0 then "" else [LowerChar(s[0])] + Lower(s[1..])
  }

  /** `s.replace(a, b)` for single characters. */
  function ReplaceChar(s: string, a: char, b: char): (r: string)
    ensures |r| == |s|
    ensures forall i :: 0 <= i < |s| ==> r[i] == (if s[i] == a then b else s[i])
  {
    seq(|s|, i requires 0 <= i < |s| => if s[i] == a then b else s[i])
  }

  /** Replacing back undoes a replacement when the new character did not
      occur before. */
  lemma ReplaceBack(s: string, a: char, b: char)
    requires b !in s
    ensures ReplaceChar(ReplaceChar(s, a, b), b, a) == s
  {
    var r := ReplaceChar(ReplaceChar(s, a, b), b, a);
    forall i | 0 <= i < |s| ensures r[i] == s[i] {
      assert s[i] != b;
    }
  }

  predicate StartsWith(s: string, prefix: string) {
    prefix <= s
  }

  predicate EndsWith(s: string, suffix: string) {
    |suffix| <= |s| && s[|s| - |suffix|..] == suffix
  }

  /** `s.split(c)` for a one-character separator: never empty, and no
      piece contains the separator. */
  function Split(s: string, c: char): (parts: seq<string>)
    ensures |parts| >= 1
    ensures forall i :: 0 <= i < |parts| ==> c !in parts[i]
  {
    if |s| == 0 then [""]
    else
      var rest := Split(s[1..], c);
      if s[0] == c then [""] + rest
      else [[s[0]] + rest[0]] + rest[1..]
  }

  /** `sep.join(parts)`. */
  function Join(sep: string, parts: seq<string>): string {
    if |parts| == 0 then ""
    else if |parts| == 1 then parts[0]
    else parts[0] + sep + Join(sep, parts[1..])
  }

  /** Joining the pieces of a split with the separator gives back the string. */
  lemma {:induction false} SplitThenJoin(s: string, c: char)
    ensures Join([c], Split(s, c)) == s
  {
    if |s| > 0 {
      var rest := Split(s[1..], c);
      SplitThenJoin(s[1..], c);
      if s[0] == c {
        assert Split(s, c) == [""] + rest;
        assert Join([c], [""] + rest) == "" + [c] + Join([c], rest);
        assert s == [c] + s[1..];
      } else {
        var parts := Split(s, c);
        assert parts == [[s[0]] + rest[0]] + rest[1..];
        if |rest| == 1 {
          assert Join([c], rest) == rest[0];
          assert Join([c], parts) == [s[0]] + rest[0];
        } else {
          assert parts[1..] == rest[1..];
          assert Join([c], rest) == rest[0] + [c] + Join([c], rest[1..]);
          assert Join([c], parts) == [s[0]] + rest[0] + [c] + Join([c], rest[1..]);
        }
        assert s == [s[0]] + s[1..];
      }
    }
  }

  /** Splitting at a separator that does not occur in the leading part `a`. */
  lemma {:induction false} SplitNoSeparatorPrefix(a: string, rest: string, c: char)
    requires c !in a
    ensures Split(a + rest, c) == [a + Split(rest, c)[0]] + Split(rest, c)[1..]
  {
    var tail := Split(rest, c);
    if |a| > 0 {
      SplitNoSeparatorPrefix(a[1..], rest, c);
      assert a + rest == [a[0]] + (a[1..] + rest);
      SplitNonSeparatorHead(a[0], a[1..] + rest, c);
      assert [a[0]] + (a[1..] + tail[0]) == a + tail[0];
    } else {
      assert a + rest == rest;
      assert a + tail[0] == tail[0];
      assert tail == [tail[0]] + tail[1..];
    }
  }

  /** A leading character other than the separator joins the first piece. */
  lemma SplitNonSeparatorHead(x: char, s: string, c: char)
    requires x != c
    ensures Split([x] + s, c) == [[x] + Split(s, c)[0]] + Split(s, c)[1..]
  {
    assert ([x] + s)[1..] == s;
  }

  /** Splitting a join recovers the pieces when none holds the separator. */
  lemma {:induction false} JoinThenSplit(parts: seq<string>, c: char)
    requires |parts| >= 1
    requires forall i :: 0 <= i < |parts| ==> c !in parts[i]
    ensures Split(Join([c], parts), c) == parts
  {
    if |parts| == 1 {
      SplitNoSeparatorPrefix(parts[0], "", c);
      assert parts[0] + "" == parts[0];
    } else {
      var tail := Join([c], parts[1..]);
      JoinThenSplit(parts[1..], c);
      assert Join([c], parts) == parts[0] + ([c] + tail);
      SplitNoSeparatorPrefix(parts[0], [c] + tail, c);
      assert ([c] + tail)[1..] == tail;
      assert ([c] + tail)[0] == c;
      assert Split([c] + tail, c) == [""] + Split(tail, c);
      assert Split([c] + tail, c) == [""] + parts[1..];
      assert parts[0] + "" == parts[0];
      assert parts == [parts[0]] + parts[1..];
    }
  }

  /** A trailing separator adds one empty last piece. */
  lemma {:induction false} SplitTrailingSeparator(s: string, c: char)
    ensures Split(s + [c], c) == Split(s, c) + [""]
  {
    if |s| == 0 {
      assert s + [c] == [c];
      assert [c][1..] == "";
    } else {
      var rest := Split(s[1..], c);
      assert (s + [c])[1..] == s[1..] + [c];
      assert (s + [c])[0] == s[0];
      SplitTrailingSeparator(s[1..], c);
      if s[0] != c {
        assert (rest + [""])[0] == rest[0];
        assert (rest + [""])[1..] == rest[1..] + [""];
      }
    }
  }

  function DigitChar(d: nat): char
    requires d < 10
  {
    ('0' as int + d) as char
  }

  predicate IsDigit(c: char) {
    '0' <= c <= '9'
  }

  predicate AllDigits(s: string) {
    forall i :: 0 <= i < |s| ==> IsDigit(s[i])
  }

  /** Value of a run of decimal digits. */
  function DigitsValue(s: string): nat
    requires AllDigits(s)
  {
    if |s| == 0 then 0
    else DigitsValue(s[..|s| - 1]) * 10 + (s[|s| - 1] as int - '0' as int)
  }

  /** `str(n)` for a natural number. */
  function NatToString(n: nat): (r: string)
    ensures |r| >= 1 && AllDigits(r)
    ensures DigitsValue(r) == n
  {
    if n < 10 then [DigitChar(n)]
    else
      var r := NatToString(n / 10) + [DigitChar(n % 10)];
      assert r[..|r| - 1] == NatToString(n / 10);
      r
  }

  /** `str(i)` for an integer. */
  function IntToString(i: int): (r: string)
    ensures |r| >= 1 && IsStripped(r)
    ensures '+' !in r && 'x' !in r
  {
    if i < 0 then "-" + NatToString(-i) else NatToString(i)
  }

  /** Digits with single underscores between them, as Python's integer
      literals group them (`1_000`); no underscore at either end. */
  predicate GroupedDigits(d: string) {
    && |d| > 0 && IsDigit(d[0]) && IsDigit(d[|d| - 1])
    && (forall i :: 0 <= i < |d| ==> IsDigit(d[i]) || d[i] == '_')
    && (forall i :: 0 <= i < |d| - 1 ==> IsDigit(d[i]) || IsDigit(d[i + 1]))
  }

  /** The value of a grouped run of digits: underscores are skipped. */
  function GroupedValue(d: string): int {
    if |d| == 0 then 0
    else if d[|d| - 1] == '_' then GroupedValue(d[..|d| - 1])
    else GroupedValue(d[..|d| - 1]) * 10 + (d[|d| - 1] as int - '0' as int)
  }

  /** Without underscores, a grouped run has the plain digits' value. */
  lemma {:induction false} GroupedValueOfDigits(d: string)
    requires AllDigits(d)
    ensures GroupedValue(d) == DigitsValue(d)
  {
    if |d| > 0 {
      GroupedValueOfDigits(d[..|d| - 1]);
    }
  }

  /** `int(s)` on decimal text: surrounding whitespace, an optional sign,
      then ASCII digits, possibly grouped by underscores. */
  function ParseInt(s: string): Option<int> {
    var t := Strip(s);
    if |t| > 0 && (t[0] == '-' || t[0] == '+') then
      var d := t[1..];
      if GroupedDigits(d) then
        var v: int := GroupedValue(d);
        Some(if t[0] == '-' then -v else v)
      else None
    else if GroupedDigits(t) then Some(GroupedValue(t))
    else None
  }

  /** `int("1_000") == 1000`, while a leading, trailing or doubled
      underscore raises. */
  lemma UnderscoreGrouping()
    ensures ParseInt("1_000") == Some(1000)
    ensures ParseInt("_1") == None && ParseInt("1_") == None && ParseInt("1__0") == None
  {
    GroupedThousand();
    MisplacedUnderscores();
  }

  lemma GroupedThousand()
    ensures ParseInt("1_000") == Some(1000)
  {
    StripOfStripped("1_000");
    ThousandShape();
    ThousandValue();
    assert "1_000"[0] == '1';
  }

  lemma ThousandShape()
    ensures GroupedDigits("1_000")
  {
    var t := "1_000";
    assert t[0] == '1' && t[1] == '_' && t[2] == '0' && t[3] == '0' && t[4] == '0';
    forall i | 0 <= i < |t| ensures IsDigit(t[i]) || t[i] == '_' {
      assert i == 0 || i == 1 || i == 2 || i == 3 || i == 4;
    }
    forall i | 0 <= i < |t| - 1 ensures IsDigit(t[i]) || IsDigit(t[i + 1]) {
      assert i == 0 || i == 1 || i == 2 || i == 3;
    }
  }

  lemma ThousandValue()
    ensures GroupedValue("1_000") == 1000
  {
    assert "1_000"[..4] == "1_00" && "1_00"[..3] == "1_0" && "1_0"[..2] == "1_" && "1_"[..1] == "1";
    assert "1"[..0] == "";
  }

  lemma MisplacedUnderscores()
    ensures ParseInt("_1") == None && ParseInt("1_") == None && ParseInt("1__0") == None
  {
    LeadingUnderscore();
    TrailingUnderscore();
    DoubledUnderscore();
  }

  lemma LeadingUnderscore()
    ensures ParseInt("_1") == None
  {
    StripOfStripped("_1");
    assert !IsDigit("_1"[0]);
  }

  lemma TrailingUnderscore()
    ensures ParseInt("1_") == None
  {
    StripOfStripped("1_");
    assert !IsDigit("1_"[1]);
  }

  lemma DoubledUnderscore()
    ensures ParseInt("1__0") == None
  {
    StripOfStripped("1__0");
    assert !IsDigit("1__0"[1]) && !IsDigit("1__0"[2]);
  }

  /** `int(str(i)) == i`. */
  lemma IntStringRoundTrip(i: int)
    ensures ParseInt(IntToString(i)) == Some(i)
  {
    var r := IntToString(i);
    StripOfStripped(r);
    var n: nat := if i < 0 then -i else i;
    var d := NatToString(n);
    GroupedValueOfDigits(d);
    assert GroupedDigits(d);
    if i < 0 {
      assert r[1..] == d;
    }
  }
}
