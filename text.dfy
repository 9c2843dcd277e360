/**
 * The few Python string operations the screens depend on: str.strip(),
 * str.lower() (on the Latin and Cyrillic letters the table names use), the
 * substring test `a in b`, str() of an integer and int() of a string.
 */
module Text {
  import opened Wrappers

  /** The characters for which Python's str.isspace() holds; str.strip() removes exactly these. */
  predicate IsSpace(c: char) {
    c == ' ' || c == '\t' || c == '\n' || c == '\r' || c == '\U{000B}' || c == '\U{000C}'
    || ('\U{001C}' <= c <= '\U{001F}') || c == '\U{0085}' || c == '\U{00A0}' || c == '\U{1680}'
    || ('\U{2000}' <= c <= '\U{200A}') || c == '\U{2028}' || c == '\U{2029}'
    || c == '\U{202F}' || c == '\U{205F}' || c == '\U{3000}'
  }

  /** True when `not s.strip()` holds in Python: the field was left empty or holds only whitespace. */
  predicate Blank(s: string) {
    forall k :: 0 <= k < |s| ==> IsSpace(s[k])
  }

  /** s.lstrip(): the suffix left after dropping leading whitespace. */
  function StripLeft(s: string): (r: string)
    ensures |r| <= |s| && r == s[|s| - |r|..]
    ensures Blank(s[..|s| - |r|])
    ensures r != [] ==> !IsSpace(r[0])
  {
    if s != [] && IsSpace(s[0]) then
      var r := StripLeft(s[1..]);
      assert s[1..][..|s| - 1 - |r|] == s[1..|s| - |r|];
      r
    else
      s
  }

  /** s.rstrip(): the prefix left after dropping trailing whitespace. */
  function StripRight(s: string): (r: string)
    ensures |r| <= |s| && r == s[..|r|]
    ensures Blank(s[|r|..])
    ensures r != [] ==> !IsSpace(r[|r| - 1])
  {
    if s != [] && IsSpace(s[|s| - 1]) then
      var r := StripRight(s[..|s| - 1]);
      assert s[..|s| - 1][|r|..] == s[|r|..|s| - 1];
      assert s[|r|..] == s[|r|..|s| - 1] + [s[|s| - 1]];
      BlankAppend(s[|r|..|s| - 1], s[|s| - 1]);
      r
    else
      s
  }

  /** Whitespace followed by one more whitespace character is whitespace. */
  lemma BlankAppend(t: string, c: char)
    requires Blank(t) && IsSpace(c)
    ensures Blank(t + [c])
  {
    forall k | 0 <= k < |t| + 1 ensures IsSpace((t + [c])[k]) {
      if k < |t| {
        assert (t + [c])[k] == t[k];
      }
    }
  }

  /** s.strip(). */
  function Strip(s: string): (r: string)
    ensures |r| <= |s|
    ensures r != [] ==> !IsSpace(r[0]) && !IsSpace(r[|r| - 1])
    ensures r == [] <==> Blank(s)
  {
    var l := StripLeft(s);
    var r := StripRight(l);
    StripEnds(s, l, r);
    r
  }

  /** The prefix r of the suffix l of s, with only whitespace cut off each side, starts and ends with non-space and is empty exactly for blank s. */
  lemma StripEnds(s: string, l: string, r: string)
    requires |l| <= |s| && l == s[|s| - |l|..] && Blank(s[..|s| - |l|]) && (l != [] ==> !IsSpace(l[0]))
    requires |r| <= |l| && r == l[..|r|] && Blank(l[|r|..]) && (r != [] ==> !IsSpace(r[|r| - 1]))
    ensures r != [] ==> !IsSpace(r[0])
    ensures r == [] <==> Blank(s)
  {
    var i := |s| - |l|;
    if r == [] {
      assert l[|r|..] == l;
      assert s[..i] == s;
    }
  }

  /** r sits in s at some index with only whitespace before and after it. */
  predicate FramedBySpace(s: string, r: string) {
    exists i :: 0 <= i <= |s| - |r| && s[i..i + |r|] == r && Blank(s[..i]) && Blank(s[i + |r|..])
  }

  /** What strip() keeps is a contiguous piece of the input with only whitespace around it. */
  lemma StripInfix(s: string)
    ensures FramedBySpace(s, Strip(s))
  {
    var l := StripLeft(s);
    var r := StripRight(l);
    assert Strip(s) == r;
    InfixOf(s, l, r);
  }

  /** A prefix r of a suffix l of s, with only whitespace cut off, sits in s with only whitespace around it. */
  lemma InfixOf(s: string, l: string, r: string)
    requires |l| <= |s| && l == s[|s| - |l|..] && Blank(s[..|s| - |l|])
    requires |r| <= |l| && r == l[..|r|] && Blank(l[|r|..])
    ensures FramedBySpace(s, r)
  {
    var i := |s| - |l|;
    assert s[i..i + |r|] == l[..|r|];
    assert s[i + |r|..] == l[|r|..];
  }

  /** Stripping twice is stripping once. */
  lemma StripIdempotent(s: string)
    ensures Strip(Strip(s)) == Strip(s)
  {
    var t := Strip(s);
    assert StripLeft(t) == t;
    assert StripRight(t) == t;
  }

  /** The value `s.strip() or None`: a blank entry becomes NULL. */
  function StrippedOrNull(s: string): (r: Option<string>)
    ensures r == None <==> Blank(s)
    ensures r.Some? ==> r.value == Strip(s) && r.value != []
  {
    var t := Strip(s);
    if t == [] then None else Some(t)
  }

  /** str.lower() on one character, for the Basic Latin and Cyrillic capitals; other characters are kept. */
  function LowerChar(c: char): (d: char)
    ensures 'A' <= c <= 'Z' ==> 'a' <= d <= 'z'
    ensures '\U{0400}' <= c <= '\U{042F}' ==> '\U{0430}' <= d <= '\U{045F}'
    ensures !('A' <= c <= 'Z') && !('\U{0400}' <= c <= '\U{042F}') ==> d == c
    ensures !('A' <= d <= 'Z') && !('\U{0400}' <= d <= '\U{042F}')
  {
    if 'A' <= c <= 'Z' then (c as int + 32) as char
    else if '\U{0410}' <= c <= '\U{042F}' then (c as int + 32) as char
    else if '\U{0400}' <= c <= '\U{040F}' then (c as int + 80) as char
    else c
  }

  function Lower(s: string): (r: string)
    ensures |r| == |s| && forall k :: 0 <= k < |s| ==> r[k] == LowerChar(s[k])
  {
    seq(|s|, k requires 0 <= k < |s| => LowerChar(s[k]))
  }

  /** Lower-casing a lower-cased text changes nothing. */
  lemma LowerIdempotent(s: string)
    ensures Lower(Lower(s)) == Lower(s)
  {
    var once := Lower(s);
    forall k | 0 <= k < |s| ensures Lower(once)[k] == once[k] {
      assert once[k] == LowerChar(s[k]);
    }
  }

  /** needle occurs in hay starting at index i. */
  predicate OccursAt(hay: string, needle: string, i: int) {
    0 <= i && i + |needle| <= |hay| && hay[i..i + |needle|] == needle
  }

  /** Python's `needle in hay` for strings. */
  function Contains(hay: string, needle: string): (b: bool)
    ensures b <==> exists i :: OccursAt(hay, needle, i)
    decreases |hay|
  {
    if |hay| < |needle| then false
    else if needle <= hay then
      assert OccursAt(hay, needle, 0);
      true
    else
      var b := Contains(hay[1..], needle);
      if b then
        var i :| OccursAt(hay[1..], needle, i);
        assert hay[i + 1..i + 1 + |needle|] == hay[1..][i..i + |needle|];
        assert OccursAt(hay, needle, i + 1);
        true
      else
        forall i ensures !OccursAt(hay, needle, i) {
          OccursShift(hay, needle, i);
        }
        false
  }

  /** An occurrence in hay is at its start or is an occurrence in hay[1..] moved by one. */
  lemma OccursShift(hay: string, needle: string, i: int)
    requires |hay| > 0
    ensures OccursAt(hay, needle, i) <==>
      (i == 0 && needle <= hay) || (i > 0 && OccursAt(hay[1..], needle, i - 1))
  {
    if i > 0 && i + |needle| <= |hay| {
      var a, b := hay[i..i + |needle|], hay[1..][i - 1..i - 1 + |needle|];
      assert |a| == |b|;
      forall k | 0 <= k < |a| ensures a[k] == b[k] {
        assert a[k] == hay[i + k];
        assert b[k] == hay[1..][i - 1 + k];
      }
      assert a == b;
    }
    if i == 0 && |needle| <= |hay| {
      assert hay[..|needle|] == hay[0..|needle|];
    }
  }

  predicate IsDigit(c: char) {
    '0' <= c <= '9'
  }

  function DigitChar(d: int): (c: char)
    requires 0 <= d < 10
    ensures IsDigit(c) && c as int - '0' as int == d
  {
    ('0' as int + d) as char
  }

  /** str(n) for n >= 0: its decimal digits, most significant first, without leading zeros. */
  function Decimal(n: nat): (r: string)
    ensures |r| > 0 && forall k :: 0 <= k < |r| ==> IsDigit(r[k])
    ensures |r| > 1 ==> r[0] != '0'
  {
    if n < 10 then [DigitChar(n)] else Decimal(n / 10) + [DigitChar(n % 10)]
  }

  /** str(n) for a Python int. */
  function IntToString(n: int): (r: string)
    ensures |r| > 0 && (r[0] == '-' <==> n < 0)
  {
    if n < 0 then "-" + Decimal(-n) else Decimal(n)
  }

  /** The digit part int() accepts: digits, with single underscores allowed between two digits. */
  predicate Grouped(t: string) {
    |t| > 0 && IsDigit(t[0]) && GroupTail(t[1..])
  }

  /** What may follow a digit in that form: more digits, each possibly preceded by one underscore. */
  predicate GroupTail(t: string)
    decreases |t|
  {
    || t == []
    || (IsDigit(t[0]) && GroupTail(t[1..]))
    || (|t| > 1 && t[0] == '_' && IsDigit(t[1]) && GroupTail(t[2..]))
  }

  /** The number the digits of t denote, underscores skipped. */
  function DigitsValue(t: string): nat {
    if t == [] then 0
    else
      var last := t[|t| - 1];
      if IsDigit(last) then DigitsValue(t[..|t| - 1]) * 10 + (last as int - '0' as int)
      else DigitsValue(t[..|t| - 1])
  }

  /** int(s) for base 10 on ASCII digits: None where Python raises ValueError. */
  function ParseInt(s: string): (r: Option<int>)
    ensures Blank(s) ==> r == None
  {
    ParseSigned(Strip(s))
  }

  /** int() on the stripped text: an optional sign, then the digit part. */
  function ParseSigned(t: string): Option<int> {
    if |t| > 0 && (t[0] == '+' || t[0] == '-') then
      if Grouped(t[1..]) then Some(if t[0] == '-' then -(DigitsValue(t[1..]) as int) else DigitsValue(t[1..]))
      else None
    else if Grouped(t) then Some(DigitsValue(t))
    else None
  }

  /** A string with no whitespace at either end is left as it is by strip(). */
  lemma StripKeeps(s: string)
    requires s != [] ==> !IsSpace(s[0]) && !IsSpace(s[|s| - 1])
    ensures Strip(s) == s
  {
    assert StripLeft(s) == s;
    assert StripRight(s) == s;
  }

  lemma {:induction false} DecimalValue(n: nat)
    ensures DigitsValue(Decimal(n)) == n
  {
    if n >= 10 {
      var d := Decimal(n / 10);
      var r := d + [DigitChar(n % 10)];
      assert r[..|r| - 1] == d;
      DecimalValue(n / 10);
    }
  }

  lemma {:induction false} DigitsGroupTail(t: string)
    requires forall k :: 0 <= k < |t| ==> IsDigit(t[k])
    ensures GroupTail(t)
    decreases |t|
  {
    if t != [] {
      DigitsGroupTail(t[1..]);
    }
  }

  lemma DecimalGrouped(n: nat)
    ensures Grouped(Decimal(n))
  {
    var d := Decimal(n);
    DigitsGroupTail(d[1..]);
  }

  /** A digit string int() accepts reads back as its value. */
  lemma ParseUnsigned(t: string)
    requires Grouped(t) && !IsSpace(t[|t| - 1])
    ensures ParseInt(t) == Some(DigitsValue(t))
  {
    StripKeeps(t);
    SignedDigits(t);
  }

  /** The same digits after a minus sign read back as the negated value. */
  lemma ParseNegative(t: string)
    requires Grouped(t) && !IsSpace(t[|t| - 1])
    ensures ParseInt("-" + t) == Some(-(DigitsValue(t) as int))
  {
    var m := "-" + t;
    assert m[0] == '-' && m[|m| - 1] == t[|t| - 1];
    StripKeeps(m);
    SignedMinus(t);
  }

  lemma SignedDigits(t: string)
    requires Grouped(t)
    ensures ParseSigned(t) == Some(DigitsValue(t))
  {
    assert IsDigit(t[0]);
  }

  lemma SignedMinus(t: string)
    requires Grouped(t)
    ensures ParseSigned("-" + t) == Some(-(DigitsValue(t) as int))
  {
    var m := "-" + t;
    assert m[0] == '-' && m[1..] == t;
  }

  /** int(str(n)) == n: the form str() writes is one that int() reads back. */
  lemma ParseIntToString(n: int)
    ensures ParseInt(IntToString(n)) == Some(n)
  {
    var m: nat := if n < 0 then -n else n;
    var d := Decimal(m);
    DecimalGrouped(m);
    assert !IsSpace(d[|d| - 1]);
    DecimalValue(m);
    if n < 0 { ParseNegative(d); } else { ParseUnsigned(d); }
    ParseAs(IntToString(n), if n < 0 then "-" + d else d, n);
  }

  lemma ParseAs(s: string, t: string, n: int)
    requires s == t && ParseInt(t) == Some(n)
    ensures ParseInt(s) == Some(n)
  {
  }
}
