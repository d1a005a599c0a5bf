/**
 * String primitives of JavaScript that the front end relies on, stated over
 * `seq<char>`: the `\d` and `\s` character classes, `toLowerCase` /
 * `toUpperCase` (restricted to the Latin and basic Cyrillic alphabets),
 * `includes`, `split`, `Number.prototype.toString` on integers and
 * `Number.parseInt`.
 */
module Text {
  import opened Types

  // ---------------------------------------------------------------------------
  // Character classes
  // ---------------------------------------------------------------------------

  /** The regular-expression class `\d` (ASCII digits only, no `u` flag). */
  predicate IsDigit(c: char) { '0' <= c <= '9' }

  predicate AllDigits(s: string) { forall i :: 0 <= i < |s| ==> IsDigit(s[i]) }

  predicate IsHexDigit(c: char) { IsDigit(c) || 'a' <= c <= 'f' || 'A' <= c <= 'F' }

  /** The regular-expression class `\s`, which is also the white space `parseInt` skips. */
  predicate IsSpace(c: char)
  {
    c == ' ' || c == '\t' || c == '\n' || c == '\r' || c == '\U{000B}' || c == '\U{000C}'
    || c == '\U{00A0}' || c == '\U{1680}' || ('\U{2000}' <= c <= '\U{200A}')
    || c == '\U{2028}' || c == '\U{2029}' || c == '\U{202F}' || c == '\U{205F}'
    || c == '\U{3000}' || c == '\U{FEFF}'
  }

  /** `s.replace(/\D/g, "")`: the digits of `s`, in order. */
  function DigitsOf(s: string): (r: string)
    ensures |r| <= |s|
    ensures AllDigits(r)
  {
    if s == [] then [] else (if IsDigit(s[0]) then [s[0]] else []) + DigitsOf(s[1..])
  }

  lemma {:induction false} DigitsOfAppend(a: string, b: string)
    ensures DigitsOf(a + b) == DigitsOf(a) + DigitsOf(b)
  {
    if a != [] {
      assert (a + b)[0] == a[0] && (a + b)[1..] == a[1..] + b;
      DigitsOfAppend(a[1..], b);
      var h := if IsDigit(a[0]) then [a[0]] else [];
      calc {
        DigitsOf(a + b);
        h + DigitsOf(a[1..] + b);
        h + (DigitsOf(a[1..]) + DigitsOf(b));
        (h + DigitsOf(a[1..])) + DigitsOf(b);
        DigitsOf(a) + DigitsOf(b);
      }
    } else {
      assert a + b == b;
    }
  }

  /** Removing the non-digits of a string of digits changes nothing. */
  lemma {:induction false} DigitsOfDigits(s: string)
    requires AllDigits(s)
    ensures DigitsOf(s) == s
  {
    if s != [] { DigitsOfDigits(s[1..]); }
  }

  /** A string none of whose characters is a digit has no digits. */
  lemma {:induction false} DigitsOfNoDigits(s: string)
    requires forall i :: 0 <= i < |s| ==> !IsDigit(s[i])
    ensures DigitsOf(s) == []
  {
    if s != [] { DigitsOfNoDigits(s[1..]); }
  }

  /** `s.replace(/\s/g, "")` and `s.replace(/\s+/g, "")`. */
  function RemoveSpaces(s: string): (r: string)
    ensures |r| <= |s|
    ensures forall i :: 0 <= i < |r| ==> !IsSpace(r[i])
  {
    if s == [] then [] else (if IsSpace(s[0]) then [] else [s[0]]) + RemoveSpaces(s[1..])
  }

  lemma {:induction false} RemoveSpacesAppend(a: string, b: string)
    ensures RemoveSpaces(a + b) == RemoveSpaces(a) + RemoveSpaces(b)
  {
    if a != [] {
      assert (a + b)[0] == a[0] && (a + b)[1..] == a[1..] + b;
      RemoveSpacesAppend(a[1..], b);
      var h := if IsSpace(a[0]) then [] else [a[0]];
      calc {
        RemoveSpaces(a + b);
        h + RemoveSpaces(a[1..] + b);
        h + (RemoveSpaces(a[1..]) + RemoveSpaces(b));
        (h + RemoveSpaces(a[1..])) + RemoveSpaces(b);
        RemoveSpaces(a) + RemoveSpaces(b);
      }
    } else {
      assert a + b == b;
    }
  }

  /** A string of digits has no white space to remove. */
  lemma {:induction false} RemoveSpacesDigits(s: string)
    requires AllDigits(s)
    ensures RemoveSpaces(s) == s
  {
    if s != [] { RemoveSpacesDigits(s[1..]); }
  }

  // ---------------------------------------------------------------------------
  // Case mapping
  // ---------------------------------------------------------------------------

  /** `toLowerCase` on one character of the Latin or basic Cyrillic alphabet. */
  function LowerChar(c: char): char
  {
    if 'A' <= c <= 'Z' || 'А' <= c <= 'Я' then (c as int + 32) as char
    else if c == 'Ё' then 'ё'
    else c
  }

  /** `toUpperCase` on one character of the Latin or basic Cyrillic alphabet. */
  function UpperChar(c: char): char
  {
    if 'a' <= c <= 'z' || 'а' <= c <= 'я' then (c as int - 32) as char
    else if c == 'ё' then 'Ё'
    else c
  }

  function Lower(s: string): (r: string)
    ensures |r| == |s|
    ensures forall i :: 0 <= i < |s| ==> r[i] == LowerChar(s[i])
  {
    seq(|s|, i requires 0 <= i < |s| => LowerChar(s[i]))
  }

  function Upper(s: string): (r: string)
    ensures |r| == |s|
    ensures forall i :: 0 <= i < |s| ==> r[i] == UpperChar(s[i])
  {
    seq(|s|, i requires 0 <= i < |s| => UpperChar(s[i]))
  }

  /** Upper-casing twice is upper-casing once. */
  lemma UpperIdempotent(s: string)
    ensures Upper(Upper(s)) == Upper(s)
  {
    forall i | 0 <= i < |s| ensures UpperChar(UpperChar(s[i])) == UpperChar(s[i]) {
      var c := s[i];
      if 'a' <= c <= 'z' || 'а' <= c <= 'я' {
        assert !('a' <= UpperChar(c) <= 'z' || 'а' <= UpperChar(c) <= 'я');
      }
    }
  }

  // ---------------------------------------------------------------------------
  // Substrings
  // ---------------------------------------------------------------------------

  /** `sub` occurs in `s` starting at position `i`. */
  predicate OccursAt(s: string, sub: string, i: int)
  {
    0 <= i && i + |sub| <= |s| && s[i..i + |sub|] == sub
  }

  /** `s.includes(sub)`. */
  predicate Contains(s: string, sub: string)
  {
    exists i :: 0 <= i <= |s| && OccursAt(s, sub, i)
  }

  /** Every string includes the empty string. */
  lemma ContainsEmpty(s: string)
    ensures Contains(s, "")
  {
    assert OccursAt(s, "", 0);
  }

  /** A string includes every string it is built around. */
  lemma ContainsInfix(a: string, b: string, c: string)
    ensures Contains(a + b + c, b)
  {
    assert (a + b + c)[|a|..|a| + |b|] == b;
    assert OccursAt(a + b + c, b, |a|);
  }

  // ---------------------------------------------------------------------------
  // Number.prototype.toString and Number.parseInt on integers
  // ---------------------------------------------------------------------------

  function DigitValue(c: char): nat requires IsDigit(c) { c as int - '0' as int }

  function HexDigitValue(c: char): nat
    requires IsHexDigit(c)
  {
    if IsDigit(c) then DigitValue(c)
    else if 'a' <= c <= 'f' then c as int - 'a' as int + 10
    else c as int - 'A' as int + 10
  }

  function DigitChar(d: nat): (c: char)
    requires d < 10
    ensures IsDigit(c) && DigitValue(c) == d
  {
    ('0' as int + d) as char
  }

  /** The value of a string of decimal digits, most significant first. */
  function DecimalValue(ds: string): nat
    requires AllDigits(ds)
  {
    if ds == [] then 0 else DecimalValue(ds[..|ds| - 1]) * 10 + DigitValue(ds[|ds| - 1])
  }

  function HexValue(ds: string): nat
    requires forall i :: 0 <= i < |ds| ==> IsHexDigit(ds[i])
  {
    if ds == [] then 0 else HexValue(ds[..|ds| - 1]) * 16 + HexDigitValue(ds[|ds| - 1])
  }

  /** The decimal rendering of a natural number: digits, no leading zero, denoting `n`. */
  function NatToString(n: nat): (r: string)
    ensures |r| >= 1 && AllDigits(r)
    ensures DecimalValue(r) == n
    ensures |r| > 1 ==> r[0] != '0'
  {
    if n < 10 then [DigitChar(n)]
    else
      var r := NatToString(n / 10) + [DigitChar(n % 10)];
      assert r[..|r| - 1] == NatToString(n / 10);
      r
  }

  /**
   * `String(n)` for an integer `n`: the decimal digits of `n`, after a `-`
   * exactly when `n` is negative.
   */
  function IntToString(n: int): (r: string)
    ensures |r| >= 1
    ensures n >= 0 ==> AllDigits(r) && DecimalValue(r) == n
    ensures n < 0 ==> |r| >= 2 && r[0] == '-' && AllDigits(r[1..]) && DecimalValue(r[1..]) == -n
  {
    if n < 0 then
      var r := "-" + NatToString(-n);
      assert r[1..] == NatToString(-n);
      r
    else NatToString(n)
  }

  /** The longest prefix of `s` made of characters satisfying `p`. */
  function PrefixWhile(s: string, p: char -> bool): (r: string)
    ensures r <= s
    ensures forall i :: 0 <= i < |r| ==> p(r[i])
    ensures |r| < |s| ==> !p(s[|r|])
  {
    if s == [] || !p(s[0]) then [] else [s[0]] + PrefixWhile(s[1..], p)
  }

  /** `s` without its leading white space. */
  function TrimStart(s: string): (r: string)
    ensures |r| <= |s| && r == s[|s| - |r|..]
    ensures r != [] ==> !IsSpace(r[0])
  {
    if s != [] && IsSpace(s[0]) then TrimStart(s[1..]) else s
  }

  /**
   * `Number.parseInt(s)` with no radix: leading white space is skipped, an
   * optional sign is read, and then the magnitude; `None` stands for `NaN`
   * (no digit).
   */
  function ParseInt(s: string): (r: Option<int>)
    ensures |s| >= 1 && AllDigits(s) ==> r == Some(DecimalValue(s) as int)
    ensures |s| >= 2 && s[0] == '-' && AllDigits(s[1..]) ==> r == Some(-(DecimalValue(s[1..]) as int))
  {
    if |s| >= 1 && AllDigits(s) then
      assert IsDigit(s[0]);
      TrimStartNoSpace(s);
      ParseSignedDigits(s);
      ParseSigned(TrimStart(s))
    else if |s| >= 2 && s[0] == '-' && AllDigits(s[1..]) then
      TrimStartNoSpace(s);
      ParseSignedNegative(s, s[1..]);
      ParseSigned(TrimStart(s))
    else
      ParseSigned(TrimStart(s))
  }

  /** `parseInt` after the white space: an optional sign, then the magnitude. */
  function ParseSigned(t: string): Option<int>
  {
    if t != [] && t[0] == '-' then
      match ParseMagnitude(t[1..])
      case None => None
      case Some(v) => Some(-(v as int))
    else if t != [] && t[0] == '+' then
      match ParseMagnitude(t[1..])
      case None => None
      case Some(v) => Some(v as int)
    else
      match ParseMagnitude(t)
      case None => None
      case Some(v) => Some(v as int)
  }

  /**
   * The unsigned part of `parseInt`: a `0x`/`0X` prefix selects base 16,
   * and then the longest run of digits is read; `None` when there is none.
   */
  function ParseMagnitude(u: string): Option<nat>
  {
    var hex := |u| >= 2 && u[0] == '0' && (u[1] == 'x' || u[1] == 'X');
    if hex then
      var ds := PrefixWhile(u[2..], IsHexDigit);
      if ds == [] then None else Some(HexValue(ds))
    else
      var ds := PrefixWhile(u, IsDigit);
      if ds == [] then None else Some(DecimalValue(ds))
  }

  lemma {:induction false} PrefixWhileAll(s: string, p: char -> bool)
    requires forall i :: 0 <= i < |s| ==> p(s[i])
    ensures PrefixWhile(s, p) == s
  {
    if s != [] { PrefixWhileAll(s[1..], p); }
  }

  /** A non-empty run of decimal digits reads as its decimal value. */
  lemma ParseMagnitudeDigits(ds: string)
    requires |ds| >= 1 && AllDigits(ds)
    ensures ParseMagnitude(ds) == Some(DecimalValue(ds))
  {
    PrefixWhileAll(ds, IsDigit);
    assert !(|ds| >= 2 && (ds[1] == 'x' || ds[1] == 'X')) by {
      if |ds| >= 2 { assert IsDigit(ds[1]); }
    }
  }

  /** A string that does not start with white space is its own trimmed form. */
  lemma TrimStartNoSpace(s: string)
    requires s != [] && !IsSpace(s[0])
    ensures TrimStart(s) == s
  {
  }

  /** `parseInt` reads digits with no sign as their value. */
  lemma ParseSignedDigits(ds: string)
    requires |ds| >= 1 && AllDigits(ds)
    ensures ParseSigned(ds) == Some(DecimalValue(ds) as int)
  {
    assert IsDigit(ds[0]);
    ParseMagnitudeDigits(ds);
  }

  /** `parseInt` reads a `-` followed by digits as the negated value. */
  lemma ParseSignedNegative(s: string, ds: string)
    requires |ds| >= 1 && AllDigits(ds)
    requires s != [] && s[0] == '-' && s[1..] == ds
    ensures ParseSigned(s) == Some(-(DecimalValue(ds) as int))
  {
    ParseMagnitudeDigits(ds);
  }

  /** Parsing the rendering of an integer gives the integer back. */
  lemma ParseIntToString(n: int)
    ensures ParseInt(IntToString(n)) == Some(n)
  {
    var r := IntToString(n);
    if n < 0 {
      assert r[0] == '-' && AllDigits(r[1..]);
    }
  }

  // ---------------------------------------------------------------------------
  // String.prototype.split with a non-empty string separator
  // ---------------------------------------------------------------------------

  /** The first position at which `sep` occurs in `s`. */
  function Find(s: string, sep: string): (r: Option<nat>)
    requires |sep| > 0
    ensures r.Some? ==> OccursAt(s, sep, r.value)
    ensures r.Some? ==> forall j :: 0 <= j < r.value ==> !OccursAt(s, sep, j)
    ensures r.None? ==> forall j :: !OccursAt(s, sep, j)
  {
    if |s| < |sep| then None
    else if s[..|sep|] == sep then Some(0)
    else
      var r := Find(s[1..], sep);
      forall j | 1 <= j ensures OccursAt(s, sep, j) == OccursAt(s[1..], sep, j - 1) {
        if j + |sep| <= |s| {
          forall k | j <= k < j + |sep| ensures s[k] == s[1..][k - 1] { }
          assert s[j..j + |sep|] == s[1..][j - 1..j - 1 + |sep|];
        }
      }
      assert !OccursAt(s, sep, 0);
      if r.None? then None else Some(r.value + 1)
  }

  /** `s.split(sep)`: the pieces between successive leftmost occurrences of `sep`. */
  function Split(s: string, sep: string): (parts: seq<string>)
    requires |sep| > 0
    ensures |parts| >= 1
    decreases |s|
  {
    match Find(s, sep)
    case None => [s]
    case Some(i) => [s[..i]] + Split(s[i + |sep|..], sep)
  }

  /** The first piece of a split is the text before the first separator, which holds none. */
  lemma SplitFirst(s: string, sep: string)
    requires |sep| > 0
    ensures Split(s, sep)[0] <= s
    ensures forall j :: !OccursAt(Split(s, sep)[0], sep, j)
  {
    match Find(s, sep)
    case None =>
    case Some(i) =>
      forall j | OccursAt(s[..i], sep, j) ensures false {
        assert s[..i][j..j + |sep|] == s[j..j + |sep|];
        assert OccursAt(s, sep, j);
      }
  }

  /** The first occurrence of `sep` at or before a known one. */
  lemma FirstOccurrence(s: string, sep: string, j: int) returns (i: nat)
    requires |sep| > 0 && OccursAt(s, sep, j)
    ensures i <= j && OccursAt(s, sep, i)
    ensures forall k :: 0 <= k < i ==> !OccursAt(s, sep, k)
  {
    i := Find(s, sep).value;
  }

  /** The first occurrence is the one `Find` reports. */
  lemma FindFirst(s: string, sep: string, i: int)
    requires |sep| > 0 && OccursAt(s, sep, i)
    requires forall k :: 0 <= k < i ==> !OccursAt(s, sep, k)
    ensures Find(s, sep) == Some(i)
  {
  }

  /** Splitting where `Find` reports the separator. */
  lemma SplitFound(s: string, sep: string, i: int)
    requires |sep| > 0 && Find(s, sep) == Some(i)
    ensures Split(s, sep) == [s[..i]] + Split(s[i + |sep|..], sep)
  {
  }

  /** Splitting at the first occurrence: the text before it, then the split of the text after it. */
  lemma SplitAtFirst(s: string, sep: string, i: int)
    requires |sep| > 0 && OccursAt(s, sep, i)
    requires forall k :: 0 <= k < i ==> !OccursAt(s, sep, k)
    ensures Split(s, sep) == [s[..i]] + Split(s[i + |sep|..], sep)
  {
    FindFirst(s, sep, i);
    SplitFound(s, sep, i);
  }

  /** A string without the separator is one piece. */
  lemma SplitWhole(s: string, sep: string)
    requires |sep| > 0 && forall k :: !OccursAt(s, sep, k)
    ensures Split(s, sep) == [s]
  {
  }

  /** A string holding the separator splits into at least two pieces. */
  lemma SplitTwo(s: string, sep: string, j: int)
    requires |sep| > 0 && OccursAt(s, sep, j)
    ensures |Split(s, sep)| >= 2
  {
    var i := FirstOccurrence(s, sep, j);
    SplitAtFirst(s, sep, i);
  }

  /** Joining with `sep` restores the original string. */
  function Join(parts: seq<string>, sep: string): string
    requires |parts| >= 1
  {
    if |parts| == 1 then parts[0] else parts[0] + sep + Join(parts[1..], sep)
  }

  lemma JoinCons(p: string, ps: seq<string>, sep: string)
    requires |ps| >= 1
    ensures Join([p] + ps, sep) == p + sep + Join(ps, sep)
  {
    assert ([p] + ps)[1..] == ps;
  }

  lemma {:induction false} SplitJoin(s: string, sep: string)
    requires |sep| > 0
    ensures Join(Split(s, sep), sep) == s
    decreases |s|
  {
    var f := Find(s, sep);
    if f.Some? {
      var i := f.value;
      var rest := s[i + |sep|..];
      SplitJoin(rest, sep);
      SplitFound(s, sep, i);
      JoinCons(s[..i], Split(rest, sep), sep);
      AroundOccurrence(s, sep, i);
    }
  }

  /** A string is the text before an occurrence, the separator and the text after it. */
  lemma AroundOccurrence(s: string, sep: string, i: int)
    requires OccursAt(s, sep, i)
    ensures s == s[..i] + sep + s[i + |sep|..]
  {
    assert s == s[..i] + s[i..i + |sep|] + s[i + |sep|..];
  }

  /** A string in which a single character does not occur splits into itself. */
  lemma SplitNoSeparator(s: string, c: char)
    requires forall k :: 0 <= k < |s| ==> s[k] != c
    ensures Split(s, [c]) == [s]
  {
    forall j ensures !OccursAt(s, [c], j) {
      if 0 <= j < |s| { assert s[j..j + 1][0] == s[j]; }
    }
  }

  /**
   * The text up to the first occurrence of `c`, when `c` follows a run of
   * text free of `c`.
   */
  lemma SplitAtChar(v: string, c: char, rest: string)
    requires forall k :: 0 <= k < |v| ==> v[k] != c
    ensures Split(v + [c] + rest, [c])[0] == v
  {
    var s := v + [c] + rest;
    assert OccursAt(s, [c], |v|) by { assert s[|v|..|v| + 1] == [c]; }
    forall j | 0 <= j < |v| ensures !OccursAt(s, [c], j) {
      assert s[j..j + 1][0] == s[j] == v[j];
    }
    assert Find(s, [c]) == Some(|v|);
    assert s[..|v|] == v;
  }
}
