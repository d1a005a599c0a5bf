/**
 * Phone numbers (lib/utils.ts): `formatPhoneNumber` keeps the digits of its
 * input, forces a leading 8, keeps at most 11 digits and lays them out as
 * `8 (999)12-34-567`; `isValidPhoneNumber` accepts exactly the inputs whose
 * digits are 11 and start with 8.
 */
module Utils {
  import opened Types
  import opened Text

  /** The longest number of digits a formatted phone keeps. */
  const PhoneDigits: nat := 11

  /**
   * The digits the formatter lays out: a leading 7 or 8 becomes 8, any other
   * leading digit gets an 8 in front, and digits past the eleventh are dropped.
   */
  function NormalizedDigits(value: string): (r: string)
    ensures |r| <= PhoneDigits && AllDigits(r)
    ensures r == [] <==> DigitsOf(value) == []
    ensures r != [] ==> r[0] == '8'
  {
    var d := DigitsOf(value);
    var e := if |d| > 0 && (d[0] == '7' || d[0] == '8') then "8" + d[1..]
      else if |d| > 0 then "8" + d
      else d;
    if |e| > PhoneDigits then e[..PhoneDigits] else e
  }

  /**
   * The separator layout applied to normalised digits `n`: it only inserts
   * characters, and eleven digits or fewer take at most 16 characters.
   */
  function PhoneLayout(n: string): (r: string)
    ensures |r| >= |n|
    ensures r == [] <==> n == []
    ensures |n| <= PhoneDigits ==> |r| <= 16
  {
    if |n| <= 1 then n
    else if |n| <= 3 then "8 " + n[1..]
    else if |n| <= 6 then "8 (" + n[1..4] + ")" + n[4..]
    else if |n| <= 8 then "8 (" + n[1..4] + ")" + n[4..6] + "-" + n[6..]
    else "8 (" + n[1..4] + ")" + n[4..6] + "-" + n[6..8] + "-" + n[8..]
  }

  /**
   * What `formatPhoneNumber` returns for `value`: empty exactly when the
   * input has no digit, and never longer than 16 characters.
   */
  function FormattedPhone(value: string): (r: string)
    ensures r == [] <==> DigitsOf(value) == []
    ensures |r| <= 16
  {
    PhoneLayout(NormalizedDigits(value))
  }

  /**
   * `formatPhoneNumber`: strips the non-digits, then rewrites the number
   * through the same chain of conditional reassignments as the source.
   */
  method FormatPhoneNumber(value: string) returns (formatted: string)
    ensures formatted == FormattedPhone(value)
  {
    var digits := DigitsOf(value);
    formatted := digits;
    if |digits| > 0 && (digits[0] == '7' || digits[0] == '8') {
      formatted := "8" + digits[1..];
    } else if |digits| > 0 && digits[0] != '8' {
      formatted := "8" + digits;
    }
    ghost var n := NormalizedDigits(value);
    TruncateStage(value, formatted);
    if |formatted| > 0 {
      formatted := if |formatted| > PhoneDigits then formatted[..PhoneDigits] else formatted;
      assert formatted == n;
      if |formatted| > 1 {
        formatted := "8" + formatted[1..];
        assert formatted == n;
      }
      if |formatted| > 1 {
        formatted := formatted[..1] + " " + formatted[1..];
        SpaceStage(n);
      }
      if |formatted| > 4 {
        formatted := formatted[..2] + "(" + formatted[2..5] + ")" + formatted[5..];
        ParenStage(n);
      }
      if |formatted| > 9 {
        formatted := formatted[..9] + "-" + formatted[9..];
        FirstDashStage(n);
      }
      if |formatted| > 12 {
        formatted := formatted[..12] + "-" + formatted[12..];
        SecondDashStage(n);
      }
    }
  }

  /** Cutting the rewritten digits at eleven gives the normalised digits. */
  lemma TruncateStage(value: string, e: string)
    requires var d := DigitsOf(value);
      e == if |d| > 0 && (d[0] == '7' || d[0] == '8') then "8" + d[1..]
        else if |d| > 0 then "8" + d
        else d
    ensures (if |e| > PhoneDigits then e[..PhoneDigits] else e) == NormalizedDigits(value)
  {
  }

  /** The space goes after the leading 8. */
  lemma SpaceStage(n: string)
    requires |n| > 1 && n[0] == '8'
    ensures n[..1] + " " + n[1..] == "8 " + n[1..]
  {
  }

  /** The parentheses enclose digits two to four. */
  lemma ParenStage(n: string)
    requires |n| >= 1
    ensures var f := "8 " + n[1..];
      |f| > 4 ==> f[..2] + "(" + f[2..5] + ")" + f[5..] == "8 (" + n[1..4] + ")" + n[4..]
  {
    var f := "8 " + n[1..];
    if |f| > 4 {
      assert f[..2] == "8 " && f[2..5] == n[1..4] && f[5..] == n[4..];
    }
  }

  /** The first dash follows digits five and six. */
  lemma FirstDashStage(n: string)
    requires |n| >= 4
    ensures var f := "8 (" + n[1..4] + ")" + n[4..];
      |f| > 9 ==> f[..9] + "-" + f[9..] == "8 (" + n[1..4] + ")" + n[4..6] + "-" + n[6..]
  {
    var f := "8 (" + n[1..4] + ")" + n[4..];
    if |f| > 9 {
      assert f[..9] == "8 (" + n[1..4] + ")" + n[4..6];
      assert f[9..] == n[6..];
    }
  }

  /** The second dash follows digits seven and eight. */
  lemma SecondDashStage(n: string)
    requires |n| >= 7
    ensures var f := "8 (" + n[1..4] + ")" + n[4..6] + "-" + n[6..];
      |f| > 12 ==> f[..12] + "-" + f[12..] == "8 (" + n[1..4] + ")" + n[4..6] + "-" + n[6..8] + "-" + n[8..]
  {
    var f := "8 (" + n[1..4] + ")" + n[4..6] + "-" + n[6..];
    if |f| > 12 {
      assert f[..12] == "8 (" + n[1..4] + ")" + n[4..6] + "-" + n[6..8];
      assert f[12..] == n[8..];
    }
  }

  /**
   * `isValidPhoneNumber`: the digits start with 8 and number exactly 11. A
   * valid number is already normalised, so the formatter lays out its own
   * digits in full.
   */
  function IsValidPhoneNumber(value: string): (r: bool)
    ensures r ==> NormalizedDigits(value) == DigitsOf(value)
    ensures r ==> |FormattedPhone(value)| == 16
  {
    var d := DigitsOf(value);
    if |d| > 0 && d[0] == '8' && |d| == PhoneDigits then NormalizedDigitsFixed(value);
      assert |PhoneLayout(d)| == 16;
      true
    else false
  }

  /** The normalised digits keep the input's digits after the leading one, in order. */
  lemma NormalizedDigitsSpec(value: string)
    ensures var d := DigitsOf(value);
      var r := NormalizedDigits(value);
      && (d != [] && (d[0] == '7' || d[0] == '8') ==>
            |r| == (if |d| < PhoneDigits then |d| else PhoneDigits) && r[1..] == d[1..|r|])
      && (d != [] && d[0] != '7' && d[0] != '8' ==>
            |r| == (if |d| + 1 < PhoneDigits then |d| + 1 else PhoneDigits) && r[1..] == d[..|r| - 1])
  {
  }

  lemma SeparatorDigits()
    ensures DigitsOf("8 ") == "8" && DigitsOf("8 (") == "8"
    ensures DigitsOf(")") == [] && DigitsOf("-") == []
  {
    assert "8 "[1..] == " " && " "[1..] == [];
    assert "8 ("[1..] == " (" && " ("[1..] == "(" && "("[1..] == [];
    assert ")"[1..] == [] && "-"[1..] == [];
  }

  /** Appending a separator, then digits, appends only the digits. */
  lemma DigitsThenGroup(a: string, sep: string, g: string)
    requires DigitsOf(sep) == [] && AllDigits(g)
    ensures DigitsOf(a + sep + g) == DigitsOf(a) + g
  {
    DigitsOfAppend(a + sep, g);
    DigitsOfAppend(a, sep);
    DigitsOfDigits(g);
  }

  /** Stripping the separators from the layout gives back the digits laid out. */
  lemma LayoutDigits(n: string)
    requires AllDigits(n) && (n == [] || n[0] == '8')
    ensures DigitsOf(PhoneLayout(n)) == n
  {
    SeparatorDigits();
    if |n| <= 1 {
      DigitsOfDigits(n);
    } else if |n| <= 3 {
      DigitsOfAppend("8 ", n[1..]);
      DigitsOfDigits(n[1..]);
      assert n == "8" + n[1..];
    } else {
      var a := "8 (" + n[1..4];
      DigitsOfAppend("8 (", n[1..4]);
      DigitsOfDigits(n[1..4]);
      assert DigitsOf(a) == n[..4];
      if |n| <= 6 {
        DigitsThenGroup(a, ")", n[4..]);
        assert n == n[..4] + n[4..];
      } else {
        var b := a + ")" + n[4..6];
        DigitsThenGroup(a, ")", n[4..6]);
        assert DigitsOf(b) == n[..6] by { assert n[..6] == n[..4] + n[4..6]; }
        if |n| <= 8 {
          DigitsThenGroup(b, "-", n[6..]);
          assert n == n[..6] + n[6..];
        } else {
          var c := b + "-" + n[6..8];
          DigitsThenGroup(b, "-", n[6..8]);
          assert DigitsOf(c) == n[..8] by { assert n[..8] == n[..6] + n[6..8]; }
          DigitsThenGroup(c, "-", n[8..]);
          assert n == n[..8] + n[8..];
        }
      }
    }
  }

  /** The formatted number's digits are exactly the normalised digits. */
  lemma FormattedPhoneDigits(value: string)
    ensures DigitsOf(FormattedPhone(value)) == NormalizedDigits(value)
  {
    LayoutDigits(NormalizedDigits(value));
  }

  /** Normalised digits that already start with 8 and fit normalise to themselves. */
  lemma NormalizedDigitsFixed(value: string)
    requires var d := DigitsOf(value); |d| <= PhoneDigits && (d == [] || d[0] == '8')
    ensures NormalizedDigits(value) == DigitsOf(value)
  {
    var d := DigitsOf(value);
    if d != [] {
      assert "8" + d[1..] == d;
    }
  }

  /** Formatting a formatted number changes nothing. */
  lemma FormatPhoneIdempotent(value: string)
    ensures FormattedPhone(FormattedPhone(value)) == FormattedPhone(value)
  {
    FormattedPhoneDigits(value);
    NormalizedDigitsFixed(FormattedPhone(value));
  }

  /** A formatted number is valid exactly when it carries eleven digits. */
  lemma ValidAfterFormat(value: string)
    ensures IsValidPhoneNumber(FormattedPhone(value)) <==> |NormalizedDigits(value)| == PhoneDigits
  {
    FormattedPhoneDigits(value);
  }

  /** The layout of a full eleven-digit number. */
  lemma PhoneLayoutExample()
    ensures PhoneLayout("89991234567") == "8 (999)12-34-567"
  {
    var n := "89991234567";
    assert n[1..4] == "999" && n[4..6] == "12" && n[6..8] == "34" && n[8..] == "567";
  }

  /**
   * An eleven-digit number typed with a leading 7 is rejected as typed and
   * accepted once formatted, the 7 having become an 8.
   */
  lemma SevenPrefixAccepted(v: string)
    requires AllDigits(v) && |v| == PhoneDigits && v[0] == '7'
    ensures !IsValidPhoneNumber(v)
    ensures FormattedPhone(v) == PhoneLayout("8" + v[1..])
    ensures IsValidPhoneNumber(FormattedPhone(v))
  {
    DigitsOfDigits(v);
    SevenRewritten(v);
    ValidAfterFormat(v);
  }

  /** Eleven digits starting with 7 have the 7 replaced by 8. */
  lemma SevenRewritten(v: string)
    requires DigitsOf(v) == v && |v| == PhoneDigits && v[0] == '7'
    ensures NormalizedDigits(v) == "8" + v[1..]
  {
  }
}
