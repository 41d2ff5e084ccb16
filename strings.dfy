/** The parts of Python's `str` and `int` the core depends on: `partition`,
    `split`, `strip`, `isdigit`, `int(s)` and `str(n)`. Digits are the ASCII
    digits only. */
module Strings {
  import opened Types

  predicate IsDigit(c: char) {
    '0' <= c <= '9'
  }

  predicate AllDigits(s: string) {
    forall i :: 0 <= i < |s| ==> IsDigit(s[i])
  }

  /** `s.isdigit()`: at least one character, and all of them digits. */
  predicate IsDecimal(s: string) {
    |s| > 0 && AllDigits(s)
  }

  /** `c.isspace()`: the characters Python strips as whitespace. */
  predicate IsSpace(c: char) {
    var n := c as int;
    || (0x09 <= n <= 0x0D) || (0x1C <= n <= 0x20) || n == 0x85 || n == 0xA0
    || n == 0x1680 || (0x2000 <= n <= 0x200A) || n == 0x2028 || n == 0x2029
    || n == 0x202F || n == 0x205F || n == 0x3000
  }

  predicate AllSpace(s: string) {
    forall i :: 0 <= i < |s| ==> IsSpace(s[i])
  }

  /** No whitespace at either end: what `strip` leaves. */
  predicate IsTrimmed(s: string) {
    s == [] || (!IsSpace(s[0]) && !IsSpace(s[|s| - 1]))
  }

  /** `s.lstrip()` */
  function StripLeading(s: string): (r: string)
    ensures |r| <= |s| && r == s[|s| - |r|..]
    ensures AllSpace(s[..|s| - |r|])
    ensures r == [] || !IsSpace(r[0])
  {
    if s != [] && IsSpace(s[0]) then
      var r := StripLeading(s[1..]);
      LeadingSpaceGrows(s, |r|);
      r
    else s
  }

  /** A whitespace first character followed by a whitespace run at the start
      of the rest of `s` is a whitespace run at the start of `s`. */
  lemma LeadingSpaceGrows(s: string, k: nat)
    requires s != [] && k <= |s| - 1
    requires IsSpace(s[0]) && AllSpace(s[1..][..|s| - 1 - k])
    ensures s[1..][|s| - 1 - k..] == s[|s| - k..]
    ensures AllSpace(s[..|s| - k])
  {
    assert s[..|s| - k] == [s[0]] + s[1..][..|s| - 1 - k];
  }

  /** `s.rstrip()` */
  function StripTrailing(s: string): (r: string)
    ensures |r| <= |s| && r == s[..|r|]
    ensures AllSpace(s[|r|..])
    ensures r == [] || !IsSpace(r[|r| - 1])
  {
    if s != [] && IsSpace(s[|s| - 1]) then
      var r := StripTrailing(s[..|s| - 1]);
      TrailingSpaceGrows(s, |r|);
      r
    else s
  }

  /** A whitespace run at the end of `s` minus its last character, followed by
      a whitespace last character, is a whitespace run at the end of `s`. */
  lemma TrailingSpaceGrows(s: string, k: nat)
    requires s != [] && k <= |s| - 1
    requires AllSpace(s[..|s| - 1][k..]) && IsSpace(s[|s| - 1])
    ensures s[..|s| - 1][..k] == s[..k]
    ensures AllSpace(s[k..])
  {
    assert s[k..] == s[..|s| - 1][k..] + [s[|s| - 1]];
  }

  /** `s.strip()` */
  function Strip(s: string): (r: string)
    ensures IsTrimmed(r)
  {
    var t := StripLeading(s);
    var r := StripTrailing(t);
    assert r != [] ==> r[0] == t[0];
    r
  }

  lemma {:induction false} StripLeadingPadded(pad: string, s: string)
    requires AllSpace(pad)
    requires s == [] || !IsSpace(s[0])
    ensures StripLeading(pad + s) == s
  {
    if pad != [] {
      assert (pad + s)[1..] == pad[1..] + s;
      StripLeadingPadded(pad[1..], s);
    }
  }

  lemma {:induction false} StripTrailingPadded(s: string, pad: string)
    requires AllSpace(pad)
    requires s == [] || !IsSpace(s[|s| - 1])
    ensures StripTrailing(s + pad) == s
  {
    if pad != [] {
      assert (s + pad)[..|s + pad| - 1] == s + pad[..|pad| - 1];
      StripTrailingPadded(s, pad[..|pad| - 1]);
    }
  }

  /** `strip` removes exactly the surrounding whitespace: a trimmed string
      padded with whitespace on both sides strips back to itself. */
  lemma StripPadded(before: string, s: string, after: string)
    requires AllSpace(before) && AllSpace(after) && IsTrimmed(s)
    ensures Strip(before + s + after) == s
  {
    if s == [] {
      assert before + s + after == (before + after) + [];
      StripLeadingPadded(before + after, []);
    } else {
      assert before + s + after == before + (s + after);
      StripLeadingPadded(before, s + after);
      StripTrailingPadded(s, after);
    }
  }

  function DigitValue(c: char): nat
    requires IsDigit(c)
  {
    c as int - '0' as int
  }

  function DigitChar(d: nat): char
    requires d < 10
  {
    ('0' as int + d) as char
  }

  /** The number a run of digits denotes, most significant first; leading
      zeros are allowed, as `int` allows them. */
  function DigitsValue(s: string): nat
    requires AllDigits(s)
  {
    if s == [] then 0 else 10 * DigitsValue(s[..|s| - 1]) + DigitValue(s[|s| - 1])
  }

  /** `str(n)` for n >= 0: the shortest decimal numeral of n. */
  function NatToString(n: nat): (r: string)
    ensures IsDecimal(r) && DigitsValue(r) == n
    ensures r[0] == '0' <==> n == 0
    ensures n == 0 ==> r == "0"
  {
    if n < 10 then [DigitChar(n)]
    else
      var init := NatToString(n / 10);
      var r := init + [DigitChar(n % 10)];
      assert r[..|r| - 1] == init;
      r
  }

  /** `str(n)` */
  function IntToString(n: int): string {
    if n < 0 then "-" + NatToString(-n) else NatToString(n)
  }

  /** U+001C..U+001F: `isspace` accepts them, so `strip` removes them, but
      `int()` skips only the other whitespace characters. */
  predicate IsInfoSeparator(c: char) {
    0x1C <= c as int <= 0x1F
  }

  /** `int(s)` on a `str`: optional surrounding whitespace, an optional sign,
      then one or more digits; `None` stands for the ValueError. An
      information separator makes it fail wherever it stands: around the
      number `int()` does not skip it, and inside it is not a digit. Texts of
      any length are read; the digit limit of recent CPython versions is not
      modelled. */
  function ParseInt(s: string): Option<int>
  {
    if exists i :: 0 <= i < |s| && IsInfoSeparator(s[i]) then None
    else
      var t := Strip(s);
      if |t| >= 2 && t[0] == '-' && AllDigits(t[1..]) then Some(-(DigitsValue(t[1..]) as int))
      else if |t| >= 2 && t[0] == '+' && AllDigits(t[1..]) then Some(DigitsValue(t[1..]))
      else if IsDecimal(t) then Some(DigitsValue(t))
      else None
  }

  /** `strip` leaves a trimmed string alone. */
  lemma StripTrimmed(s: string)
    requires IsTrimmed(s)
    ensures Strip(s) == s
  {
    assert StripLeading(s) == s;
    assert StripTrailing(s) == s;
  }

  /** `str` of an integer carries no whitespace, so `strip` leaves it alone. */
  lemma IntToStringTrimmed(n: int)
    ensures IsTrimmed(IntToString(n))
    ensures Strip(IntToString(n)) == IntToString(n)
  {
    var s := IntToString(n);
    var digits := NatToString(if n < 0 then -n else n);
    assert s[|s| - 1] == digits[|digits| - 1];
    StripTrimmed(s);
  }

  /** `int(str(n)) == n` */
  lemma IntToStringRoundTrip(n: int)
    ensures ParseInt(IntToString(n)) == Some(n)
  {
    var s := IntToString(n);
    var digits := NatToString(if n < 0 then -n else n);
    IntToStringTrimmed(n);
    if n < 0 {
      assert s[1..] == digits;
    }
  }

  /** `int` reads a run of digits as the number it denotes. */
  lemma DecimalParse(s: string)
    requires IsDecimal(s)
    ensures ParseInt(s) == Some(DigitsValue(s))
  {
    assert IsDigit(s[0]) && IsDigit(s[|s| - 1]);
    assert s[0] != '-' && s[0] != '+';
    StripTrimmed(s);
  }

  /** `int` on the port numbers used as examples. */
  lemma PortTextExamples()
    ensures ParseInt("80") == Some(80)
    ensures ParseInt("8080") == Some(8080)
    ensures ParseInt("70000") == Some(70000)
  {
    assert DigitsValue("80") == 80 by {
      assert "80"[..1] == "8" && "8"[..0] == "";
    }
    assert DigitsValue("8080") == 8080 by {
      assert "8080"[..3] == "808" && "808"[..2] == "80" && "80"[..1] == "8" && "8"[..0] == "";
    }
    assert DigitsValue("70000") == 70000 by {
      assert "70000"[..4] == "7000" && "7000"[..3] == "700" && "700"[..2] == "70";
      assert "70"[..1] == "7" && "7"[..0] == "";
    }
    DecimalParse("80");
    DecimalParse("8080");
    DecimalParse("70000");
  }

  lemma NatToStringRoundTrip(n: nat)
    ensures ParseInt(NatToString(n)) == Some(n)
  {
    IntToStringRoundTrip(n);
  }

  /** `str` never maps two integers to the same text. */
  lemma IntToStringInjective(m: int, n: int)
    requires IntToString(m) == IntToString(n)
    ensures m == n
  {
    IntToStringRoundTrip(m);
    IntToStringRoundTrip(n);
  }

  /** `[int(f) for f in fields]`, or `None` when some `int` raises. */
  function ParseAll(fields: seq<string>): Option<seq<int>> {
    AllPresent(seq(|fields|, i requires 0 <= i < |fields| => ParseInt(fields[i])))
  }

  /** The values of a list of outcomes when none of them is a failure. */
  function AllPresent(outcomes: seq<Option<int>>): (r: Option<seq<int>>)
    ensures r.Some? <==> forall i :: 0 <= i < |outcomes| ==> outcomes[i].Some?
    ensures r.Some? ==>
      && |r.value| == |outcomes|
      && forall i :: 0 <= i < |outcomes| ==> outcomes[i] == Some(r.value[i])
  {
    if outcomes == [] then Some([])
    else
      assert forall i :: 1 <= i < |outcomes| ==> outcomes[i] == outcomes[1..][i - 1];
      match (outcomes[0], AllPresent(outcomes[1..]))
      case (Some(x), Some(xs)) => Some([x] + xs)
      case (None, _) => None
      case (_, None) => None
  }

  /** When every field parses, the list comprehension yields their values. */
  lemma ParseAllOfNumbers(fields: seq<string>, values: seq<int>)
    requires |fields| == |values|
    requires forall i :: 0 <= i < |fields| ==> ParseInt(fields[i]) == Some(values[i])
    ensures ParseAll(fields) == Some(values)
  {
    var outcomes := seq(|fields|, i requires 0 <= i < |fields| => ParseInt(fields[i]));
    assert forall i :: 0 <= i < |fields| ==> outcomes[i] == Some(values[i]);
    assert AllPresent(outcomes).value == values;
  }

  /** `s.partition(sep)` without the middle part: the text before the first
      `sep` and the text after it, or `(s, "")` when `sep` does not occur. */
  function Partition(s: string, sep: char): (r: (string, string))
    ensures sep !in r.0
    ensures sep in s ==> r.0 + [sep] + r.1 == s
    ensures sep !in s ==> r == (s, "")
  {
    if s == [] then ("", "")
    else if s[0] == sep then ("", s[1..])
    else
      var rest := Partition(s[1..], sep);
      assert s == [s[0]] + s[1..];
      ([s[0]] + rest.0, rest.1)
  }

  /** Partitioning undoes joining at the first separator. */
  lemma {:induction false} PartitionOfJoin(before: string, sep: char, after: string)
    requires sep !in before
    ensures Partition(before + [sep] + after, sep) == (before, after)
  {
    var s := before + [sep] + after;
    if before != [] {
      assert s[0] == before[0] && s[1..] == before[1..] + [sep] + after;
      PartitionOfJoin(before[1..], sep, after);
      assert [before[0]] + before[1..] == before;
    }
  }

  /** `sep.join(parts)` for a non-empty list of parts. */
  function Join(parts: seq<string>, sep: char): string
    requires |parts| >= 1
  {
    if |parts| == 1 then parts[0] else parts[0] + [sep] + Join(parts[1..], sep)
  }

  /** `s.split(sep)`: the pieces between the separators, at least one. */
  function Split(s: string, sep: char): (r: seq<string>)
    ensures |r| >= 1
    ensures forall i :: 0 <= i < |r| ==> sep !in r[i]
    ensures Join(r, sep) == s
    decreases |s|
  {
    if sep !in s then [s]
    else
      var parts := Partition(s, sep);
      var r := [parts.0] + Split(parts.1, sep);
      assert r[1..] == Split(parts.1, sep);
      r
  }

  /** Splitting undoes joining parts that hold no separator. */
  lemma {:induction false} SplitOfJoin(parts: seq<string>, sep: char)
    requires |parts| >= 1
    requires forall i :: 0 <= i < |parts| ==> sep !in parts[i]
    ensures Split(Join(parts, sep), sep) == parts
  {
    if |parts| > 1 {
      var rest := Join(parts[1..], sep);
      PartitionOfJoin(parts[0], sep, rest);
      SplitOfJoin(parts[1..], sep);
      assert sep in parts[0] + [sep] + rest;
      assert parts == [parts[0]] + parts[1..];
    }
  }
}
