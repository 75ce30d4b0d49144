/** The few Python built-in behaviours the scripts rely on: subscripts with
    negative wrap-around, substring `in`, `str(int)`, `int(str)` and
    right-aligned format widths. */
module Python {
  import opened Wrappers

  /** Position selected by subscript `i` on a sequence of length `n`
      (list, tensor or numpy axis): non-negative subscripts count from the
      front, negative ones from the back, anything else raises IndexError. */
  function Subscript(i: int, n: nat): (r: Option<nat>)
    ensures r.Some? <==> -(n as int) <= i < n
    ensures r.Some? ==> r.value < n
    ensures r.Some? ==> r.value == if i >= 0 then i else n + i
  {
    if 0 <= i < n then Some(i) else if -(n as int) <= i < 0 then Some(n + i) else None
  }

  /** `xs[i]` on a list: the element the subscript selects, or IndexError. */
  function Item<X>(xs: seq<X>, i: int): (r: Result<X>)
    ensures r.Ok? <==> Subscript(i, |xs|).Some?
    ensures r.Err? ==> r.error == IndexError
    ensures r.Ok? ==> r.value == xs[Subscript(i, |xs|).value]
  {
    match Subscript(i, |xs|)
    case None => Err(IndexError)
    case Some(n) => Ok(xs[n])
  }

  /** `needle` occurs in `hay` starting at offset `i`. */
  ghost predicate OccursAt(hay: string, needle: string, i: int)
  {
    0 <= i && i + |needle| <= |hay| && hay[i..i + |needle|] == needle
  }

  /** Python's `needle in hay` on two strings: substring containment. */
  function Contains(hay: string, needle: string): (r: bool)
    ensures r <==> exists i :: OccursAt(hay, needle, i)
    decreases |hay|
  {
    if |needle| > |hay| then
      assert forall i :: !OccursAt(hay, needle, i);
      false
    else if hay[..|needle|] == needle then
      assert OccursAt(hay, needle, 0);
      true
    else
      var r := Contains(hay[1..], needle);
      assert r ==> exists i :: OccursAt(hay, needle, i) by {
        if r {
          var j :| OccursAt(hay[1..], needle, j);
          assert hay[1..][j..j + |needle|] == hay[j + 1..j + 1 + |needle|];
          assert OccursAt(hay, needle, j + 1);
        }
      }
      assert (exists i :: OccursAt(hay, needle, i)) ==> r by {
        if exists i :: OccursAt(hay, needle, i) {
          var i :| OccursAt(hay, needle, i);
          assert i != 0;
          assert hay[1..][i - 1..i - 1 + |needle|] == hay[i..i + |needle|];
          assert OccursAt(hay[1..], needle, i - 1);
        }
      }
      r
  }

  // ---------------------------------------------------------------- digits

  predicate IsDigit(c: char) { '0' <= c <= '9' }

  function DigitValue(c: char): (d: nat)
    requires IsDigit(c)
    ensures d < 10
  {
    c as int - '0' as int
  }

  function DigitChar(d: nat): (c: char)
    requires d < 10
    ensures IsDigit(c) && DigitValue(c) == d
  {
    ('0' as int + d) as char
  }

  predicate AllDigits(s: string) { forall k :: 0 <= k < |s| ==> IsDigit(s[k]) }

  /** The decimal digits of `n`, most significant first, without leading zeros. */
  function Digits(n: nat): (s: string)
    ensures |s| > 0 && AllDigits(s)
    decreases n
  {
    if n < 10 then [DigitChar(n)] else Digits(n / 10) + [DigitChar(n % 10)]
  }

  /** The number a string of decimal digits denotes. */
  function DigitsValue(s: string): nat
    requires AllDigits(s)
  {
    if |s| == 0 then 0 else DigitsValue(s[..|s| - 1]) * 10 + DigitValue(s[|s| - 1])
  }

  /** `str(n)` for an integer: an optional minus sign, then the digits of |n|. */
  function DecimalString(n: int): string
  {
    if n < 0 then "-" + Digits(-n) else Digits(n)
  }

  /** 10 to the power `k`. */
  function Pow10(k: nat): (p: nat)
    ensures p >= 1
  {
    if k == 0 then 1 else 10 * Pow10(k - 1)
  }

  lemma {:induction false} DigitsValueOfDigits(n: nat)
    ensures DigitsValue(Digits(n)) == n
    decreases n
  {
    if n >= 10 {
      var s := Digits(n);
      assert s[..|s| - 1] == Digits(n / 10);
      DigitsValueOfDigits(n / 10);
    }
  }

  /** A number below 10^k has at most k digits. */
  lemma {:induction false} DigitsLength(n: nat, k: nat)
    requires k >= 1 && n < Pow10(k)
    ensures |Digits(n)| <= k
    decreases k
  {
    if n >= 10 {
      assert k >= 2;
      assert n / 10 < Pow10(k - 1);
      DigitsLength(n / 10, k - 1);
    }
  }

  // ------------------------------------------------------------ whitespace

  /** The ASCII characters `int()` skips around a number: space and `\t \n
      \v \f \r`. The separators `\x1c` to `\x1f`, which `str.isspace` also
      accepts, are not skipped by `int()`. */
  predicate IsSpace(c: char)
  {
    c == ' ' || (9 <= c as int <= 13)
  }

  function StripLeft(s: string): string
  {
    if |s| > 0 && IsSpace(s[0]) then StripLeft(s[1..]) else s
  }

  function StripRight(s: string): string
  {
    if |s| > 0 && IsSpace(s[|s| - 1]) then StripRight(s[..|s| - 1]) else s
  }

  /** Stripping the left keeps a suffix of the string. */
  lemma {:induction false} StripLeftIsSuffix(s: string)
    ensures |StripLeft(s)| <= |s| && StripLeft(s) == s[|s| - |StripLeft(s)|..]
  {
    if |s| > 0 && IsSpace(s[0]) {
      StripLeftIsSuffix(s[1..]);
      assert s[1..][|s| - 1 - |StripLeft(s[1..])|..] == s[|s| - |StripLeft(s[1..])|..];
    }
  }

  /** Stripping the right keeps a prefix of the string. */
  lemma {:induction false} StripRightIsPrefix(s: string)
    ensures |StripRight(s)| <= |s| && StripRight(s) == s[..|StripRight(s)|]
  {
    if |s| > 0 && IsSpace(s[|s| - 1]) {
      StripRightIsPrefix(s[..|s| - 1]);
      assert s[..|s| - 1][..|StripRight(s[..|s| - 1])|] == s[..|StripRight(s[..|s| - 1])|];
    }
  }

  /** `s` without the leading and trailing whitespace `int()` skips. */
  function Strip(s: string): string
  {
    StripRight(StripLeft(s))
  }

  // --------------------------------------------------------- int and format

  /** One or more decimal digits and nothing else, read as a number. */
  function ParseUnsigned(b: string): (r: Result<nat>)
    ensures r.Ok? <==> |b| > 0 && AllDigits(b)
  {
    if |b| == 0 || !AllDigits(b) then Err(ValueError) else Ok(DigitsValue(b))
  }

  /** An optional `+` or `-` followed by digits. */
  function ParseSigned(t: string): Result<int>
  {
    if |t| > 0 && (t[0] == '-' || t[0] == '+') then
      match ParseUnsigned(t[1..])
      case Err(e) => Err(e)
      case Ok(v) => if t[0] == '-' then Ok(-(v as int)) else Ok(v as int)
    else
      match ParseUnsigned(t)
      case Err(e) => Err(e)
      case Ok(v) => Ok(v as int)
  }

  /** `int(s)` on a string: surrounding whitespace is ignored, then an optional
      `+` or `-` and one or more decimal digits must remain; anything else
      raises ValueError. */
  function ParseInt(s: string): (r: Result<int>)
    ensures r.Err? ==> r.error == ValueError
  {
    ParseSigned(Strip(s))
  }

  function Spaces(n: nat): (s: string)
    ensures |s| == n && forall k :: 0 <= k < n ==> s[k] == ' '
  {
    if n == 0 then "" else " " + Spaces(n - 1)
  }

  /** A string right-aligned in a field of at least `width` characters. */
  function PadLeft(s: string, width: nat): (t: string)
    ensures |t| == if |s| < width then width else |s|
  {
    if |s| < width then Spaces(width - |s|) + s else s
  }

  /** The padded string ends in `s`, and everything before it is a space. */
  lemma PadLeftLayout(s: string, width: nat)
    ensures var t := PadLeft(s, width);
            t[|t| - |s|..] == s && forall k :: 0 <= k < |t| - |s| ==> t[k] == ' '
  {
    var t := PadLeft(s, width);
    if |s| < width {
      assert t == Spaces(width - |s|) + s;
    }
  }

  /** `int()` skips tabs, newlines and spaces around a number, but not the
      information separator `\x1c`, which `str.isspace` counts as
      whitespace. */
  lemma SeparatorNotSkipped()
    ensures ParseInt("\t 3\n") == Ok(3)
    ensures ParseInt("\U{1c}3") == Err(ValueError)
  {
    assert Strip("\t 3\n") == "3" by {
      assert StripLeft("\t 3\n") == "3\n" by {
        assert "\t 3\n"[1..] == " 3\n" && " 3\n"[1..] == "3\n";
      }
      assert "3\n"[..1] == "3";
    }
    assert DigitsValue("3") == 3 by { assert "3"[..0] == ""; }
  }

  /** The format `{x:<width>d}`: `str(x)` right-aligned to `width`. */
  function FormatInt(x: int, width: nat): string
  {
    PadLeft(DecimalString(x), width)
  }

  // ---------------------------------------------------------------- lemmas

  lemma {:induction false} StripLeftSpaces(n: nat, s: string)
    requires |s| > 0 ==> !IsSpace(s[0])
    ensures StripLeft(Spaces(n) + s) == s
    decreases n
  {
    var u := Spaces(n) + s;
    if n > 0 {
      assert u == " " + (Spaces(n - 1) + s);
      assert u[1..] == Spaces(n - 1) + s;
      assert IsSpace(u[0]);
      assert StripLeft(u) == StripLeft(u[1..]);
      StripLeftSpaces(n - 1, s);
    } else {
      assert u == s;
    }
  }

  lemma StripRightClean(s: string)
    requires |s| > 0 ==> !IsSpace(s[|s| - 1])
    ensures StripRight(s) == s
  {
  }

  /** `int(str(n)) == n` for every integer. */
  lemma ParseDecimalString(n: int)
    ensures ParseInt(DecimalString(n)) == Ok(n)
  {
    ParseFormatInt(n, 0);
  }

  /** Stripping a right-aligned field gives back its unpadded content. */
  lemma StripPadLeft(s: string, width: nat)
    requires |s| > 0 && !IsSpace(s[0]) && !IsSpace(s[|s| - 1])
    ensures Strip(PadLeft(s, width)) == s
  {
    var t := PadLeft(s, width);
    assert t == Spaces(|t| - |s|) + s;
    StripLeftSpaces(|t| - |s|, s);
    StripRightClean(s);
  }

  /** `int()` of any string whose stripped form is `str(x)` reads back `x`. */
  lemma ParseStripsTo(u: string, x: int)
    requires Strip(u) == DecimalString(x)
    ensures ParseInt(u) == Ok(x)
  {
    var t := Strip(u);
    if x < 0 {
      var digits := Digits(-x);
      assert t == "-" + digits;
      assert t[0] == '-' && t[1..] == digits;
      DigitsValueOfDigits(-x);
    } else {
      var digits := Digits(x);
      assert t == digits && IsDigit(t[0]);
      DigitsValueOfDigits(x);
    }
  }

  /** Reading back a formatted field: `int(f'{x:5d}') == x`, whatever the width. */
  lemma ParseFormatInt(x: int, width: nat)
    ensures ParseInt(FormatInt(x, width)) == Ok(x)
  {
    var s := DecimalString(x);
    var digits := if x < 0 then Digits(-x) else Digits(x);
    assert IsDigit(digits[0]) && IsDigit(digits[|digits| - 1]);
    assert s[|s| - 1] == digits[|digits| - 1];
    StripPadLeft(s, width);
    ParseStripsTo(FormatInt(x, width), x);
  }

  /** A string without any decimal digit is never accepted by `int()`. */
  lemma ParseIntNeedsDigit(s: string)
    requires forall k :: 0 <= k < |s| ==> !IsDigit(s[k])
    ensures ParseInt(s) == Err(ValueError)
  {
    var l := StripLeft(s);
    var t := StripRight(l);
    StripLeftIsSuffix(s);
    StripRightIsPrefix(l);
    forall k | 0 <= k < |t|
      ensures !IsDigit(t[k])
    {
      assert t[k] == l[k] == s[|s| - |l| + k];
    }
    assert ParseUnsigned(t).Err? by {
      if |t| > 0 { assert !IsDigit(t[0]); }
    }
    if |t| > 0 {
      assert ParseUnsigned(t[1..]).Err? by {
        if |t| > 1 { assert !IsDigit(t[1..][0]); }
      }
    }
  }

  /** `str(x)` fits a field of width w when |x| has few enough digits. */
  lemma DecimalStringLength(x: int, w: nat)
    requires w >= 1
    requires 0 <= x < Pow10(w) || (w >= 2 && -(Pow10(w - 1) as int) < x < 0)
    ensures |DecimalString(x)| <= w
  {
    if x < 0 {
      DigitsLength(-x, w - 1);
    } else {
      DigitsLength(x, w);
    }
  }
}
