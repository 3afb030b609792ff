/** Number conversions and the integer rounding used for percentages:
    `parseInt`, `x || default`, and `Math.round(100 * part / total)`. */
module Numbers {
  import opened Text
  import opened Js
  import opened Wrappers

  function HexDigitValue(c: char): (d: int)
    ensures -1 <= d < 16
  {
    if '0' <= c <= '9' then c as int - '0' as int
    else if 'a' <= c <= 'f' then c as int - 'a' as int + 10
    else if 'A' <= c <= 'F' then c as int - 'A' as int + 10
    else -1
  }

  /** The longest prefix of `s` made of decimal digits. */
  function LeadingDigits(s: string): (p: string)
    ensures AllDigits(p) && StartsWith(s, p)
    ensures |p| < |s| ==> !IsDigit(s[|p|])
  {
    if s != [] && IsDigit(s[0]) then [s[0]] + LeadingDigits(s[1..]) else []
  }

  /** The longest prefix of `s` made of hexadecimal digits. */
  function LeadingHex(s: string): (p: string)
    ensures StartsWith(s, p)
    ensures forall i :: 0 <= i < |p| ==> HexDigitValue(p[i]) >= 0
  {
    if s != [] && HexDigitValue(s[0]) >= 0 then [s[0]] + LeadingHex(s[1..]) else []
  }

  function HexValue(s: string): nat
    requires forall i :: 0 <= i < |s| ==> HexDigitValue(s[i]) >= 0
  {
    if s == [] then 0 else HexValue(s[..|s| - 1]) * 16 + HexDigitValue(s[|s| - 1])
  }

  /** The magnitude `parseInt` reads after the sign: a `0x`/`0X`
      hexadecimal or a decimal digit run; `None` when no digit follows. */
  function ParseMagnitude(u: string): Option<nat> {
    if StartsWith(u, "0x") || StartsWith(u, "0X") then
      var h := LeadingHex(u[2..]);
      if h == [] then None else Some(HexValue(h))
    else
      var d := LeadingDigits(u);
      if d == [] then None else Some(DigitsValue(d))
  }

  /** `parseInt(s)` with no radix: leading white space, an optional sign,
      then the magnitude; NaN when no digit follows. */
  function ParseInt(s: string): (r: Value)
    ensures r.Num? || r.NaN?
  {
    var t := TrimStart(s);
    var neg := |t| > 0 && t[0] == '-';
    var u := if |t| > 0 && (t[0] == '-' || t[0] == '+') then t[1..] else t;
    match ParseMagnitude(u)
    case None => NaN
    case Some(m) => Num(if neg then -(m as int) else m)
  }

  lemma {:induction false} LeadingDigitsAll(s: string)
    requires AllDigits(s)
    ensures LeadingDigits(s) == s
  {
    if s != [] {
      LeadingDigitsAll(s[1..]);
    }
  }

  /** A decimal numeral is read as its value. */
  lemma MagnitudeOfNumeral(n: nat)
    ensures ParseMagnitude(NatToString(n)) == Some(n)
  {
    var p := NatToString(n);
    NatToStringValue(n);
    NatToStringDigits(n);
    LeadingDigitsAll(p);
    assert !StartsWith(p, "0x") && !StartsWith(p, "0X") by {
      if |p| >= 2 {
        assert p[0] != '0';
      }
    }
  }

  /** A decimal numeral without sign parses to its value. */
  lemma ParseNatString(n: nat)
    ensures ParseInt(NatToString(n)) == Num(n)
  {
    var p := NatToString(n);
    MagnitudeOfNumeral(n);
    NatToStringDigits(n);
    assert IsDigit(p[0]) && !IsSpace(p[0]);
    assert TrimStart(p) == p;
    assert p[0] != '-' && p[0] != '+';
  }

  /** A minus sign before a decimal numeral negates what it parses to. */
  lemma ParseNegString(n: nat)
    requires n > 0
    ensures ParseInt("-" + NatToString(n)) == Num(-(n as int))
  {
    var p := NatToString(n);
    var s := "-" + p;
    MagnitudeOfNumeral(n);
    assert !IsSpace(s[0]);
    assert TrimStart(s) == s;
    assert s[0] == '-' && s[1..] == p;
  }

  /** `parseInt` reads back what `String(n)` prints. */
  lemma ParseIntToString(n: int)
    ensures ParseInt(IntToString(n)) == Num(n)
  {
    var m: nat := if n < 0 then -n else n;
    var p := NatToString(m);
    if n < 0 {
      ParseNegString(m);
      assert IntToString(n) == "-" + p;
    } else {
      ParseNatString(m);
      assert IntToString(n) == p;
    }
  }

  /** No magnitude can be read from a string without digits. */
  lemma MagnitudeNoDigits(u: string)
    requires forall i :: 0 <= i < |u| ==> !IsDigit(u[i])
    ensures ParseMagnitude(u) == None
  {
    if |u| > 0 {
      assert !IsDigit(u[0]);
      assert !StartsWith(u, "0x") && !StartsWith(u, "0X") by {
        if |u| >= 2 {
          assert u[..2][0] == u[0];
        }
      }
    }
  }

  /** A string with no digit in it parses to NaN. */
  lemma ParseIntNoDigits(s: string)
    requires forall i :: 0 <= i < |s| ==> !IsDigit(s[i])
    ensures ParseInt(s) == NaN
  {
    var t := TrimStart(s);
    assert forall i :: 0 <= i < |t| ==> t[i] == s[|s| - |t| + i];
    var u := if |t| > 0 && (t[0] == '-' || t[0] == '+') then t[1..] else t;
    assert forall i :: 0 <= i < |u| ==> !IsDigit(u[i]);
    MagnitudeNoDigits(u);
  }

  /** `parseInt(x) || d`: the parsed number unless it is NaN or zero. */
  function OrDefault(v: Value, d: int): (r: Value)
    ensures r == (if Truthy(v) then v else Num(d))
  {
    if Truthy(v) then v else Num(d)
  }

  /** `Math.round(100 * part / total)` for a positive total, as integer
      rounding half up. */
  function RoundPercent(part: int, total: int): (r: int)
    requires total > 0
    ensures 2 * total * r - total <= 200 * part < 2 * total * r + total
  {
    var r := (200 * part + total) / (2 * total);
    assert (200 * part + total) == r * (2 * total) + (200 * part + total) % (2 * total);
    r
  }

  /** The percentage the reports show: 0 when there is nothing to divide by. */
  function Percent(part: int, total: int): int {
    if total > 0 then RoundPercent(part, total) else 0
  }

  /** Multiplying by a non-negative number keeps an inequality. */
  lemma MulLe(c: int, a: int, b: int)
    requires c >= 0 && a <= b
    ensures c * a <= c * b
  {
    assert c * b - c * a == c * (b - a);
  }

  /** A part of a whole is between 0 and 100 percent, and the extremes are
      exact. */
  lemma PercentBounds(part: int, total: int)
    requires 0 <= part <= total
    ensures 0 <= Percent(part, total) <= 100
    ensures part == 0 ==> Percent(part, total) == 0
    ensures part == total && total > 0 ==> Percent(part, total) == 100
  {
    if total > 0 {
      var r := RoundPercent(part, total);
      var t2 := 2 * total;
      assert t2 * r - total <= 200 * part < t2 * r + total;
      if r < 0 {
        MulLe(t2, r, -1);
      }
      if r > 100 {
        MulLe(t2, 101, r);
      }
      if part == 0 && r > 0 {
        MulLe(t2, 1, r);
      }
      if part == total && r < 100 {
        MulLe(t2, r, 99);
      }
    }
  }

  /** A larger part never rounds to a smaller percentage. */
  lemma PercentMonotonic(a: int, b: int, total: int)
    requires a <= b
    ensures Percent(a, total) <= Percent(b, total)
  {
    if total > 0 {
      var ra, rb := RoundPercent(a, total), RoundPercent(b, total);
      var t2 := 2 * total;
      assert t2 * ra - total <= 200 * a && 200 * b < t2 * rb + total;
      if ra > rb {
        MulLe(t2, rb + 1, ra);
      }
    }
  }
}
