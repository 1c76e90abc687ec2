/**
 * The report id carried in the detail route `/research/{id}`: written as the
 * decimal text of the number by the research list, read back with `parseInt`
 * by the detail page.
 */
module Routes {
  import opened Wrappers
  import opened Strings

  /** The value of a character as a digit in bases up to 36; 36 for any other character. */
  function DigitValue(c: char): (d: nat)
    ensures d <= 36
    ensures '0' <= c <= '9' ==> d == c as int - '0' as int
  {
    if '0' <= c <= '9' then c as int - '0' as int
    else if 'a' <= c <= 'z' then c as int - 'a' as int + 10
    else if 'A' <= c <= 'Z' then c as int - 'A' as int + 10
    else 36
  }

  /** The longest prefix of `s` made of digits of the radix. */
  function DigitPrefix(s: string, radix: nat): (ds: string)
    ensures |ds| <= |s| && ds == s[..|ds|]
    ensures forall i :: 0 <= i < |ds| ==> DigitValue(ds[i]) < radix
    ensures |ds| < |s| ==> DigitValue(s[|ds|]) >= radix
    decreases |s|
  {
    if s != [] && DigitValue(s[0]) < radix then [s[0]] + DigitPrefix(s[1..], radix) else []
  }

  /** The number a string of digits denotes, most significant first. */
  function DigitsValue(ds: string, radix: nat): nat
    decreases |ds|
  {
    if ds == [] then 0
    else DigitsValue(ds[..|ds| - 1], radix) * radix + DigitValue(ds[|ds| - 1])
  }

  /** The value of the longest run of digits of the radix at the start of `s`, if there is one. */
  function LeadingNumber(s: string, radix: nat): Option<nat> {
    var ds := DigitPrefix(s, radix);
    if ds == [] then None else Some(DigitsValue(ds, radix))
  }

  /** The digits after the sign: a `0x`/`0X` prefix selects base 16, otherwise base 10. */
  function ParseMagnitude(u: string): Option<nat> {
    if |u| >= 2 && u[0] == '0' && (u[1] == 'x' || u[1] == 'X') then LeadingNumber(u[2..], 16)
    else LeadingNumber(u, 10)
  }

  /** The text after an optional leading sign. */
  function AfterSign(t: string): string {
    if t != [] && (t[0] == '-' || t[0] == '+') then t[1..] else t
  }

  /** A parsed magnitude with the sign applied; no number stays no number. */
  function ApplySign(negative: bool, magnitude: Option<nat>): Option<int> {
    match magnitude
    case None => None
    case Some(m) => var value: int := m; Some(if negative then -value else value)
  }

  /**
   * `parseInt(s)` with no radix: leading whitespace skipped, an optional sign,
   * then the magnitude; no digits at all is NaN, which equals no id.
   */
  function ParseInt(s: string): (n: Option<int>)
    ensures TrimStart(s) == [] ==> n.None?
    ensures n.Some? && n.value < 0 ==> TrimStart(s)[0] == '-'
  {
    var t := TrimStart(s);
    ApplySign(t != [] && t[0] == '-', ParseMagnitude(AfterSign(t)))
  }

  function DigitChar(d: nat): (c: char)
    requires d < 10
    ensures '0' <= c <= '9' && DigitValue(c) == d
  {
    ('0' as int + d) as char
  }

  /** The decimal digits of a natural number, without leading zeros. */
  function NatDigits(n: nat): (ds: string)
    ensures |ds| >= 1
    ensures forall i :: 0 <= i < |ds| ==> '0' <= ds[i] <= '9'
    decreases n
  {
    if n < 10 then [DigitChar(n)] else NatDigits(n / 10) + [DigitChar(n % 10)]
  }

  /** `${id}`: the decimal text of an integer id, as the research list writes it into the route. */
  function IdSegment(id: int): (seg: string)
    ensures seg != [] && (seg[0] == '-' <==> id < 0)
    ensures forall i :: (if id < 0 then 1 else 0) <= i < |seg| ==> '0' <= seg[i] <= '9'
  {
    if id < 0 then "-" + NatDigits(-id) else NatDigits(id)
  }

  lemma {:induction false} NatDigitsValue(n: nat)
    ensures DigitsValue(NatDigits(n), 10) == n
    decreases n
  {
    if n >= 10 {
      var ds := NatDigits(n);
      assert ds[..|ds| - 1] == NatDigits(n / 10);
      NatDigitsValue(n / 10);
    }
  }

  lemma {:induction false} DigitPrefixOfDigits(ds: string)
    requires forall i :: 0 <= i < |ds| ==> '0' <= ds[i] <= '9'
    ensures DigitPrefix(ds, 10) == ds
  {
    DigitPrefixAll(ds, 10);
  }

  /** A string made only of digits of the radix is its own longest digit prefix. */
  lemma {:induction false} DigitPrefixAll(ds: string, radix: nat)
    requires forall i :: 0 <= i < |ds| ==> DigitValue(ds[i]) < radix
    ensures DigitPrefix(ds, radix) == ds
    decreases |ds|
  {
    if ds != [] {
      DigitPrefixAll(ds[1..], radix);
    }
  }

  /** The scan for digits stops at the first character that is not one: later text is ignored. */
  lemma {:induction false} DigitPrefixStops(ds: string, rest: string, radix: nat)
    requires forall i :: 0 <= i < |ds| ==> DigitValue(ds[i]) < radix
    requires rest == [] || DigitValue(rest[0]) >= radix
    ensures DigitPrefix(ds + rest, radix) == ds
    decreases |ds|
  {
    if ds != [] {
      assert (ds + rest)[1..] == ds[1..] + rest;
      DigitPrefixStops(ds[1..], rest, radix);
    }
  }

  /** Leading whitespace is skipped by the trim at the start. */
  lemma {:induction false} TrimStartSkipsSpace(ws: string, s: string)
    requires forall i :: 0 <= i < |ws| ==> IsSpace(ws[i])
    ensures TrimStart(ws + s) == TrimStart(s)
    decreases |ws|
  {
    if ws != [] {
      var w := ws + s;
      assert w != [] && IsSpace(w[0]);
      assert TrimStart(w) == TrimStart(w[1..]);
      assert w[1..] == ws[1..] + s;
      TrimStartSkipsSpace(ws[1..], s);
    } else {
      assert ws + s == s;
    }
  }

  /** `parseInt` ignores whitespace before the number. */
  lemma ParseIntSkipsSpace(ws: string, s: string)
    requires forall i :: 0 <= i < |ws| ==> IsSpace(ws[i])
    ensures ParseInt(ws + s) == ParseInt(s)
  {
    TrimStartSkipsSpace(ws, s);
  }

  /** `parseInt` reads a `0x` prefix followed by hexadecimal digits in base 16. */
  lemma ParseIntHex(ds: string)
    requires |ds| >= 1 && forall i :: 0 <= i < |ds| ==> DigitValue(ds[i]) < 16
    ensures ParseInt("0x" + ds) == Some(DigitsValue(ds, 16))
  {
    var s := "0x" + ds;
    assert s[0] == '0' && s[1] == 'x' && s[2..] == ds;
    assert TrimStart(s) == s;
    assert AfterSign(s) == s;
    DigitPrefixAll(ds, 16);
  }

  /** Text that starts with a decimal digit has no whitespace or sign to skip: only its magnitude is read. */
  lemma ParseUnsigned(s: string)
    requires s != [] && '0' <= s[0] <= '9'
    ensures ParseInt(s) == ParseMagnitude(s)
  {
    assert TrimStart(s) == s;
    assert AfterSign(s) == s;
  }

  /**
   * `parseInt` reads decimal digits up to the first character that is not one
   * and ignores the rest, unless a lone `0` followed by `x` starts a hexadecimal number.
   */
  lemma ParseIntIgnoresTrailing(ds: string, rest: string)
    requires |ds| >= 1 && forall i :: 0 <= i < |ds| ==> '0' <= ds[i] <= '9'
    requires rest == [] || !('0' <= rest[0] <= '9')
    requires ds == "0" && rest != [] ==> rest[0] != 'x' && rest[0] != 'X'
    ensures ParseInt(ds + rest) == Some(DigitsValue(ds, 10))
  {
    assert (ds + rest)[0] == ds[0];
    ParseUnsigned(ds + rest);
    DecimalPrefixMagnitude(ds, rest);
  }

  lemma DecimalPrefixMagnitude(ds: string, rest: string)
    requires |ds| >= 1 && forall i :: 0 <= i < |ds| ==> '0' <= ds[i] <= '9'
    requires rest == [] || !('0' <= rest[0] <= '9')
    requires ds == "0" && rest != [] ==> rest[0] != 'x' && rest[0] != 'X'
    ensures ParseMagnitude(ds + rest) == Some(DigitsValue(ds, 10))
  {
    var s := ds + rest;
    assert !(|s| >= 2 && s[0] == '0' && (s[1] == 'x' || s[1] == 'X')) by {
      if |s| >= 2 && s[0] == '0' {
        if |ds| == 1 {
          assert ds == "0" && s[1] == rest[0];
        } else {
          assert s[1] == ds[1];
        }
      }
    }
    assert rest == [] || DigitValue(rest[0]) >= 10;
    DigitPrefixStops(ds, rest, 10);
  }

  /** An optional minus sign followed by decimal digits parses to their value, signed. */
  lemma ParseSignedDigits(negative: bool, ds: string)
    requires |ds| >= 1 && forall i :: 0 <= i < |ds| ==> '0' <= ds[i] <= '9'
    ensures ParseInt(if negative then ['-'] + ds else ds) == ApplySign(negative, Some(DigitsValue(ds, 10)))
  {
    var s := if negative then ['-'] + ds else ds;
    assert s[0] == (if negative then '-' else ds[0]);
    assert !IsSpace(s[0]);
    var t := TrimStart(s);
    assert t == s;
    assert (t != [] && t[0] == '-') == negative;
    assert AfterSign(t) == ds;
    DecimalMagnitude(ds);
  }

  lemma DecimalMagnitude(ds: string)
    requires |ds| >= 1 && forall i :: 0 <= i < |ds| ==> '0' <= ds[i] <= '9'
    ensures ParseMagnitude(ds) == Some(DigitsValue(ds, 10))
  {
    assert |ds| >= 2 ==> ds[1] != 'x' && ds[1] != 'X';
    DigitPrefixOfDigits(ds);
  }

  /** Reading back the route segment written for an id gives that id. */
  lemma ParseIdSegment(id: int)
    ensures ParseInt(IdSegment(id)) == Some(id)
  {
    var m: nat := if id < 0 then -id else id;
    NatDigitsValue(m);
    ParseSignedDigits(id < 0, NatDigits(m));
  }
}
