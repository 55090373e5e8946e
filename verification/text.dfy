/**
 * The string and number operations of JavaScript that the sync engine and
 * the controller rely on: decimal formatting (`String(n)`, template
 * literals), `padStart(2, '0')`, `parseInt`, `includes`, the two regular
 * expressions `/\d+/` and `/line-(\d+)/`, and the default string order of
 * `Array.prototype.sort`.
 */
module Text {
  import opened Sequences

  datatype Option<+T> = None | Some(value: T)

  /** A number produced by `parseInt` or `Math.max`/`Math.min`: an integer or NaN. */
  datatype JsInt = Int(v: int) | NaN

  predicate IsDigit(c: char) { '0' <= c <= '9' }

  predicate AllDigits(s: string) { forall i :: 0 <= i < |s| ==> IsDigit(s[i]) }

  function DigitValue(c: char): (d: nat)
    requires IsDigit(c)
    ensures d < 10
  {
    c as int - '0' as int
  }

  function DigitChar(d: nat): (c: char)
    requires d < 10
    ensures IsDigit(c) && DigitValue(c) == d
  {
    (d + '0' as int) as char
  }

  /** The value of a run of decimal digits, most significant digit first. */
  function DecimalValue(s: string): nat
    requires AllDigits(s)
  {
    if s == [] then 0 else DecimalValue(s[..|s| - 1]) * 10 + DigitValue(s[|s| - 1])
  }

  /** A digit string without leading zeros, as `String(n)` prints it. */
  predicate Canonical(s: string)
  {
    |s| > 0 && AllDigits(s) && (s[0] != '0' || |s| == 1)
  }

  /** `String(n)` for a non-negative integer. */
  function NatToString(n: nat): (s: string)
    ensures Canonical(s)
    ensures DecimalValue(s) == n
  {
    if n < 10 then [DigitChar(n)]
    else
      var p := NatToString(n / 10);
      var s := p + [DigitChar(n % 10)];
      assert s[..|s| - 1] == p;
      s
  }

  /** `String(i)` for any integer: a minus sign before the digits of |i|. */
  function IntToString(i: int): (s: string)
    ensures i >= 0 ==> Canonical(s) && DecimalValue(s) == i
    ensures i < 0 ==> |s| >= 2 && s[0] == '-' && Canonical(s[1..]) && DecimalValue(s[1..]) == -i
  {
    if i < 0 then "-" + NatToString(-i) else NatToString(i)
  }

  /** What a template literal prints for a JavaScript integer or NaN. */
  function JsIntToString(n: JsInt): (s: string)
    ensures n.Int? ==> s == IntToString(n.v)
    ensures n.NaN? ==> !AllDigits(s)
  {
    match n
    case Int(v) => IntToString(v)
    case NaN => assert !IsDigit("NaN"[0]); "NaN"
  }

  /** `s.padStart(2, '0')`: zeros on the left up to length 2, longer strings unchanged. */
  function PadStart2(s: string): (r: string)
    ensures |s| >= 2 ==> r == s
    ensures |s| < 2 ==> |r| == 2 && r[2 - |s|..] == s
    ensures forall i :: 0 <= i < |r| - |s| ==> r[i] == '0'
  {
    if |s| >= 2 then s else if |s| == 1 then "0" + s else "00"
  }

  lemma {:induction false} DecimalValueBound(s: string)
    requires AllDigits(s)
    ensures DecimalValue(s) < Pow10(|s|)
  {
    if s != [] {
      DecimalValueBound(s[..|s| - 1]);
    }
  }

  function Pow10(k: nat): (p: nat)
    ensures p >= 1
  {
    if k == 0 then 1 else 10 * Pow10(k - 1)
  }

  /** A canonical digit string has at least as many digits as its value needs. */
  lemma {:induction false} CanonicalValueLowerBound(s: string)
    requires Canonical(s) && |s| >= 2
    ensures DecimalValue(s) >= Pow10(|s| - 1)
  {
    var p := s[..|s| - 1];
    assert p[0] == s[0];
    if |s| > 2 {
      CanonicalValueLowerBound(p);
    } else {
      assert DecimalValue(p) == DigitValue(s[0]);
    }
  }

  /** Printing the value of a canonical digit string gives the string back. */
  lemma {:induction false} NatToStringOfDecimalValue(s: string)
    requires Canonical(s)
    ensures NatToString(DecimalValue(s)) == s
  {
    var n := DecimalValue(s);
    if |s| == 1 {
      assert s[..|s| - 1] == [] && DecimalValue(s[..|s| - 1]) == 0;
      assert n == DigitValue(s[0]);
      assert NatToString(n) == [DigitChar(n)];
    } else {
      var p := s[..|s| - 1];
      assert p[0] == s[0];
      CanonicalValueLowerBound(s);
      assert n >= 10 by {
        assert Pow10(|s| - 1) >= 10 by { Pow10Monotone(1, |s| - 1); }
      }
      assert n / 10 == DecimalValue(p) && n % 10 == DigitValue(s[|s| - 1]);
      NatToStringOfDecimalValue(p);
      assert DigitChar(n % 10) == s[|s| - 1];
      assert s == p + [s[|s| - 1]];
    }
  }

  lemma {:induction false} Pow10Monotone(i: nat, j: nat)
    requires i <= j
    ensures Pow10(i) <= Pow10(j)
  {
    if i < j {
      Pow10Monotone(i, j - 1);
    }
  }

  /** The four-digit years: `String(y)` has exactly four digits. */
  lemma {:induction false} FourDigitYear(y: int)
    requires 1000 <= y <= 9999
    ensures |IntToString(y)| == 4
  {
    var s := IntToString(y);
    DecimalValueBound(s);
    if |s| < 4 {
      Pow10Monotone(|s|, 3);
    }
    if |s| > 4 {
      CanonicalValueLowerBound(s);
      Pow10Monotone(4, |s| - 1);
    }
  }

  /** `padStart(2, '0')` of a number below 100 is its two-digit decimal form. */
  lemma {:induction false} PadTwoDigits(n: nat)
    requires n < 100
    ensures |PadStart2(NatToString(n))| == 2
    ensures AllDigits(PadStart2(NatToString(n)))
    ensures DecimalValue(PadStart2(NatToString(n))) == n
  {
    var s := NatToString(n);
    DecimalValueBound(s);
    if |s| > 2 {
      CanonicalValueLowerBound(s);
      Pow10Monotone(2, |s| - 1);
    }
    if |s| == 1 {
      var r := PadStart2(s);
      assert r == ['0', s[0]];
      assert r[..1] == ['0'];
      assert DecimalValue(r) == DecimalValue(['0']) * 10 + DigitValue(s[0]);
      assert DecimalValue(['0']) == 0 by { assert ['0'][..0] == []; }
      assert DecimalValue(s) == DigitValue(s[0]) by { assert s[..0] == []; }
    }
  }

  /** The converse of PadTwoDigits: two digits are restored by parsing and padding. */
  lemma {:induction false} PadOfTwoDigitValue(s: string)
    requires |s| == 2 && AllDigits(s)
    ensures PadStart2(NatToString(DecimalValue(s))) == s
  {
    var d0, d1 := DigitValue(s[0]), DigitValue(s[1]);
    assert s[..1] == [s[0]];
    assert DecimalValue([s[0]]) == d0 by { assert [s[0]][..0] == []; }
    assert DecimalValue(s) == d0 * 10 + d1;
    if d0 == 0 {
      assert NatToString(d1) == [DigitChar(d1)];
      assert DigitChar(d1) == s[1];
      assert s == ['0', s[1]];
    } else {
      assert Canonical(s);
      NatToStringOfDecimalValue(s);
    }
  }

  /** The longest prefix of `s` made of digits. */
  function LeadingDigits(s: string): (p: string)
    ensures p <= s && AllDigits(p)
    ensures |p| < |s| ==> !IsDigit(s[|p|])
  {
    if s != [] && IsDigit(s[0]) then [s[0]] + LeadingDigits(s[1..]) else []
  }

  predicate IsHexDigit(c: char) { IsDigit(c) || 'a' <= c <= 'f' || 'A' <= c <= 'F' }

  predicate AllHexDigits(s: string) { forall i :: 0 <= i < |s| ==> IsHexDigit(s[i]) }

  function HexDigitValue(c: char): (d: nat)
    requires IsHexDigit(c)
    ensures d < 16
  {
    if IsDigit(c) then DigitValue(c)
    else if 'a' <= c <= 'f' then c as int - 'a' as int + 10
    else c as int - 'A' as int + 10
  }

  /** The value of a run of hexadecimal digits, most significant digit first. */
  function HexValue(s: string): nat
    requires AllHexDigits(s)
  {
    if s == [] then 0 else HexValue(s[..|s| - 1]) * 16 + HexDigitValue(s[|s| - 1])
  }

  /** The longest prefix of `s` made of hexadecimal digits. */
  function LeadingHexDigits(s: string): (p: string)
    ensures p <= s && AllHexDigits(p)
    ensures |p| < |s| ==> !IsHexDigit(s[|p|])
  {
    if s != [] && IsHexDigit(s[0]) then [s[0]] + LeadingHexDigits(s[1..]) else []
  }

  /** The text after an optional leading `-` or `+`. */
  function Unsigned(s: string): string
  {
    if s != [] && (s[0] == '-' || s[0] == '+') then s[1..] else s
  }

  /** The `0x` or `0X` prefix that makes `parseInt` without a radix read base 16. */
  predicate HexPrefixed(t: string)
  {
    |t| >= 2 && t[0] == '0' && (t[1] == 'x' || t[1] == 'X')
  }

  /**
   * `parseInt(s)` without a radix: an optional sign, then either `0x`/`0X`
   * and the longest run of hexadecimal digits, or the longest run of
   * decimal digits; NaN when that run is empty.
   */
  function ParseInt(s: string): (r: JsInt)
    ensures Canonical(s) ==> r == Int(DecimalValue(s))
  {
    var negative := s != [] && s[0] == '-';
    var rest := Unsigned(s);
    if HexPrefixed(rest) then
      var digits := LeadingHexDigits(rest[2..]);
      if digits == [] then NaN
      else Int(if negative then -(HexValue(digits) as int) else HexValue(digits))
    else
      var digits := LeadingDigits(rest);
      if digits == [] then NaN
      else
        assert Canonical(s) ==> digits == s by {
          if Canonical(s) { AllDigitsLeading(s); }
        }
        Int(if negative then -(DecimalValue(digits) as int) else DecimalValue(digits))
  }

  /**
   * `parseInt` gives NaN exactly when no digit of the base follows the
   * optional sign and the optional `0x` prefix.
   */
  lemma ParseIntNaN(s: string)
    ensures var t := Unsigned(s);
            ParseInt(s).NaN? <==> if HexPrefixed(t) then |t| == 2 || !IsHexDigit(t[2]) else t == [] || !IsDigit(t[0])
  {
  }

  /** The hexadecimal prefix: `parseInt("0x1A")` is 26, `parseInt("-0X10")` is -16 and `parseInt("0x")` is NaN. */
  lemma ParseIntHex()
    ensures ParseInt("0x1A") == Int(26)
    ensures ParseInt("-0X10") == Int(-16)
    ensures ParseInt("0x").NaN?
  {
    assert LeadingHexDigits("1A") == "1A" by {
      assert LeadingHexDigits("A") == "A";
    }
    assert HexValue("1A") == 26 by {
      assert "1A"[..1] == "1";
    }
    assert LeadingHexDigits("10") == "10" by {
      assert LeadingHexDigits("0") == "0";
    }
    assert HexValue("10") == 16 by {
      assert "10"[..1] == "1";
    }
  }

  lemma {:induction false} AllDigitsLeading(s: string)
    requires AllDigits(s)
    ensures LeadingDigits(s) == s
  {
    if s != [] {
      AllDigitsLeading(s[1..]);
    }
  }

  /** `s.includes(sub)`. */
  function Contains(s: string, sub: string): (b: bool)
    ensures b <==> exists i :: 0 <= i <= |s| && sub <= s[i..]
  {
    if sub <= s then (assert s[0..] == s; true)
    else if s == [] then false
    else
      var b := Contains(s[1..], sub);
      assert forall i :: 1 <= i <= |s| ==> s[i..] == s[1..][i - 1..];
      assert forall i :: 0 <= i <= |s| - 1 ==> s[1..][i..] == s[i + 1..];
      b
  }

  /** The position of the first digit of `s`, or `|s|` when it has none. */
  function FirstDigitIndex(s: string): (i: nat)
    ensures i <= |s|
    ensures forall j :: 0 <= j < i ==> !IsDigit(s[j])
    ensures i < |s| ==> IsDigit(s[i])
  {
    if s == [] || IsDigit(s[0]) then 0
    else
      var k := FirstDigitIndex(s[1..]);
      assert forall j :: 1 <= j < |s| ==> s[j] == s[1..][j - 1];
      k + 1
  }

  /**
   * The first match of `/\d+/` in `s`: the longest digit run starting at
   * the first digit of `s`.
   */
  function FirstDigitRun(s: string): (r: Option<string>)
    ensures r.None? <==> (forall i :: 0 <= i < |s| ==> !IsDigit(s[i]))
    ensures r.Some? ==> exists i :: 0 <= i < |s| && IsDigit(s[i]) && r.value == LeadingDigits(s[i..])
                         && forall j :: 0 <= j < i ==> !IsDigit(s[j])
  {
    var i := FirstDigitIndex(s);
    if i == |s| then None else Some(LeadingDigits(s[i..]))
  }

  /**
   * The first digit run of a digit-free text, followed by digits and then
   * by a text that does not start with a digit, is those digits.
   */
  lemma FirstDigitRunAfter(p: string, t: string, rest: string)
    requires forall j :: 0 <= j < |p| ==> !IsDigit(p[j])
    requires t != [] && AllDigits(t)
    requires rest == [] || !IsDigit(rest[0])
    ensures FirstDigitRun(p + t + rest) == Some(t)
  {
    var s := p + t + rest;
    assert FirstDigitIndex(s) == |p| by {
      assert forall j :: 0 <= j < |p| ==> s[j] == p[j];
      assert s[|p|] == t[0];
    }
    assert s[|p|..] == t + rest;
    LeadingDigitsStop(t, rest);
  }

  /** The leading digits of digits followed by a non-digit are those digits. */
  lemma {:induction false} LeadingDigitsStop(t: string, rest: string)
    requires AllDigits(t)
    requires rest == [] || !IsDigit(rest[0])
    ensures LeadingDigits(t + rest) == t
  {
    if t == [] {
      assert t + rest == rest;
    } else {
      assert (t + rest)[1..] == t[1..] + rest;
      LeadingDigitsStop(t[1..], rest);
    }
  }

  /**
   * The capture group of the first match of `/line-(\d+)/` in `s`: the
   * digit run after the first "line-" that is followed by a digit.
   */
  function MatchLineDigits(s: string): (r: Option<string>)
    ensures r.Some? ==> r.value != [] && AllDigits(r.value)
    ensures "line-" <= s && |s| > 5 && IsDigit(s[5]) ==> r == Some(LeadingDigits(s[5..]))
    ensures |s| < 6 ==> r.None?
  {
    if "line-" <= s && |s| > 5 && IsDigit(s[5]) then Some(LeadingDigits(s[5..]))
    else if s == [] then None
    else MatchLineDigits(s[1..])
  }

  /** There is no capture exactly when no "line-" in `s` is followed by a digit. */
  lemma {:induction false} MatchLineDigitsNone(s: string)
    ensures MatchLineDigits(s).None? <==> forall i :: 0 <= i && i + 5 < |s| ==> !("line-" <= s[i..] && IsDigit(s[i + 5]))
  {
    if s != [] {
      MatchLineDigitsNone(s[1..]);
      forall i | 1 <= i && i + 5 < |s|
        ensures s[i..] == s[1..][i - 1..] && s[i + 5] == s[1..][i + 4]
      {
      }
      assert s[0..] == s;
    }
  }

  /** The default order of `Array.prototype.sort`: lexicographic by character. */
  predicate StrLt(a: string, b: string)
  {
    if b == [] then false
    else if a == [] then true
    else a[0] < b[0] || (a[0] == b[0] && StrLt(a[1..], b[1..]))
  }

  predicate StrLe(a: string, b: string) { a == b || StrLt(a, b) }

  lemma {:induction false} StrLtIrreflexive(a: string)
    ensures !StrLt(a, a)
  {
    if a != [] {
      StrLtIrreflexive(a[1..]);
    }
  }

  lemma {:induction false} StrLtTransitive(a: string, b: string, c: string)
    requires StrLt(a, b) && StrLt(b, c)
    ensures StrLt(a, c)
  {
    if a != [] && a[0] == b[0] && b[0] == c[0] {
      StrLtTransitive(a[1..], b[1..], c[1..]);
    }
  }

  lemma {:induction false} StrLtTrichotomy(a: string, b: string)
    ensures StrLt(a, b) || a == b || StrLt(b, a)
  {
    if a != [] && b != [] && a[0] == b[0] {
      StrLtTrichotomy(a[1..], b[1..]);
      if a[1..] == b[1..] {
        assert a == [a[0]] + a[1..] && b == [b[0]] + b[1..];
      }
    }
  }

  lemma StrLeTransitive(a: string, b: string, c: string)
    requires StrLe(a, b) && StrLe(b, c)
    ensures StrLe(a, c)
  {
    if StrLt(a, b) && StrLt(b, c) {
      StrLtTransitive(a, b, c);
    }
  }

  lemma StrLtAsymmetric(a: string, b: string)
    requires StrLt(a, b)
    ensures !StrLt(b, a) && a != b
  {
    StrLtIrreflexive(a);
    if StrLt(b, a) {
      StrLtTransitive(a, b, a);
    }
  }

  /** Two strictly increasing lists of strings with the same members are the same list. */
  lemma {:induction false} StrictlySortedUnique(a: seq<string>, b: seq<string>)
    requires forall i, j :: 0 <= i < j < |a| ==> StrLt(a[i], a[j])
    requires forall i, j :: 0 <= i < j < |b| ==> StrLt(b[i], b[j])
    requires forall x :: x in a <==> x in b
    ensures a == b
  {
    if b != [] {
      assert b[0] in b;
    }
    if a != [] {
      assert a[0] in a;
      var i :| 0 <= i < |a| && a[i] == b[0];
      var j :| 0 <= j < |b| && b[j] == a[0];
      if i > 0 {
        StrLtAsymmetric(a[0], a[i]);
      } else if j > 0 {
        StrLtAsymmetric(b[0], b[j]);
      }
      assert a[0] == b[0];
      forall x ensures x in a[1..] <==> x in b[1..] {
        if x in a[1..] {
          var k :| 0 <= k < |a| - 1 && a[1..][k] == x;
          StrLtAsymmetric(a[0], a[k + 1]);
          assert x in b;
          var m :| 0 <= m < |b| && b[m] == x;
          assert b[1..][m - 1] == x;
        }
        if x in b[1..] {
          var k :| 0 <= k < |b| - 1 && b[1..][k] == x;
          StrLtAsymmetric(b[0], b[k + 1]);
          assert x in a;
          var m :| 0 <= m < |a| && a[m] == x;
          assert a[1..][m - 1] == x;
        }
      }
      StrictlySortedUnique(a[1..], b[1..]);
      assert a == [a[0]] + a[1..] && b == [b[0]] + b[1..];
    }
  }

  /** Strings in non-decreasing order, each no greater than the next. */
  predicate StrSorted(s: seq<string>)
  {
    |s| < 2 || (StrLe(s[0], s[1]) && StrSorted(s[1..]))
  }

  /** In a sorted list every string is no greater than every later one. */
  lemma {:induction false} StrSortedPairwise(s: seq<string>)
    requires StrSorted(s)
    ensures forall i, j :: 0 <= i < j < |s| ==> StrLe(s[i], s[j])
  {
    if |s| >= 2 {
      StrSortedPairwise(s[1..]);
      forall i, j | 0 <= i < j < |s| ensures StrLe(s[i], s[j]) {
        if i == 0 && j > 1 {
          assert StrLe(s[1], s[1..][j - 1]);
          StrLeTransitive(s[0], s[1], s[j]);
        } else if i > 0 {
          assert StrLe(s[1..][i - 1], s[1..][j - 1]);
        }
      }
    }
  }

  function InsertString(x: string, s: seq<string>): (r: seq<string>)
    requires StrSorted(s)
    ensures |r| == |s| + 1 && (r[0] == x || (s != [] && r[0] == s[0]))
    ensures StrSorted(r)
    ensures multiset(r) == multiset(s) + multiset{x}
  {
    if s == [] then [x]
    else if !StrLt(s[0], x) then
      StrLtTrichotomy(x, s[0]);
      assert ([x] + s)[1..] == s;
      [x] + s
    else
      var t := InsertString(x, s[1..]);
      var r := [s[0]] + t;
      assert r[1..] == t;
      InsertAfterHead(s, t, x);
      r
  }

  /** `Array.prototype.sort()` with no comparator, on strings. */
  function SortStrings(s: seq<string>): (r: seq<string>)
    ensures StrSorted(r)
    ensures multiset(r) == multiset(s)
  {
    if s == [] then []
    else
      assert s == [s[0]] + s[1..];
      InsertString(s[0], SortStrings(s[1..]))
  }

  /** A sorted sequence without repetitions is strictly increasing. */
  lemma SortedDistinctIsStrict(s: seq<string>)
    requires StrSorted(s)
    requires forall i, j :: 0 <= i < j < |s| ==> s[i] != s[j]
    ensures forall i, j :: 0 <= i < j < |s| ==> StrLt(s[i], s[j])
  {
    StrSortedPairwise(s);
  }
}
