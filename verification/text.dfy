/** String operations the views rely on: the case-insensitive substring test
    behind `icontains`, decimal rendering of the slug suffix (`f"{base}-{i}"`)
    and decimal parsing of the `category` query parameter (`int(...)`). */
module Text {
  import opened Base

  /** Case folding as the database's `LIKE` applies it: ASCII letters only. */
  function LowerChar(c: char): char {
    if 'A' <= c <= 'Z' then (c as int + 32) as char else c
  }

  function Lower(s: string): (r: string)
    ensures |r| == |s|
    ensures forall i :: 0 <= i < |s| ==> r[i] == LowerChar(s[i])
  {
    seq(|s|, i requires 0 <= i < |s| => LowerChar(s[i]))
  }

  predicate IsPrefix(p: string, s: string) {
    |p| <= |s| && s[..|p|] == p
  }

  /** `sub` occurs in `s`, scanning start positions left to right. */
  predicate Contains(s: string, sub: string)
    decreases |s|
  {
    IsPrefix(sub, s) || (|s| > 0 && Contains(s[1..], sub))
  }

  /** `sub` occurs in `s` at start position `i`. */
  ghost predicate OccursAt(s: string, sub: string, i: int) {
    0 <= i && i + |sub| <= |s| && s[i..i + |sub|] == sub
  }

  /** The scan finds `sub` exactly when some start position holds it. */
  lemma {:induction false} ContainsIff(s: string, sub: string)
    ensures Contains(s, sub) <==> exists i :: OccursAt(s, sub, i)
    decreases |s|
  {
    if |s| > 0 {
      ContainsIff(s[1..], sub);
    }
    if Contains(s, sub) {
      if IsPrefix(sub, s) {
        assert OccursAt(s, sub, 0);
      } else {
        var i :| OccursAt(s[1..], sub, i);
        assert s[1..][i..i + |sub|] == s[i + 1..i + 1 + |sub|];
        assert OccursAt(s, sub, i + 1);
      }
    }
    forall i | OccursAt(s, sub, i)
      ensures Contains(s, sub)
    {
      if i > 0 {
        assert s[1..][i - 1..i - 1 + |sub|] == s[i..i + |sub|];
        assert OccursAt(s[1..], sub, i - 1);
      }
    }
  }

  /** Django's `icontains` lookup. */
  predicate ContainsIgnoringCase(s: string, sub: string) {
    Contains(Lower(s), Lower(sub))
  }

  predicate IsDigit(c: char) {
    '0' <= c <= '9'
  }

  predicate AllDigits(s: string) {
    forall i :: 0 <= i < |s| ==> IsDigit(s[i])
  }

  function DigitChar(d: nat): (c: char)
    requires d < 10
    ensures IsDigit(c)
  {
    ('0' as int + d) as char
  }

  function DigitValue(c: char): (d: nat)
    requires IsDigit(c)
    ensures d < 10
  {
    c as int - '0' as int
  }

  /** Decimal rendering of a natural number, as Python's `str(i)`. */
  function NatToString(n: nat): (r: string)
    ensures |r| >= 1
    ensures AllDigits(r)
    decreases n
  {
    if n < 10 then [DigitChar(n)] else NatToString(n / 10) + [DigitChar(n % 10)]
  }

  /** The value of a string of decimal digits, most significant first. */
  function DigitsValue(s: string): nat
    requires AllDigits(s)
    decreases |s|
  {
    if |s| == 0 then 0 else DigitsValue(s[..|s| - 1]) * 10 + DigitValue(s[|s| - 1])
  }

  /** `int(s)` for a non-negative decimal literal; anything else is refused. */
  function ParseNat(s: string): (r: Option<nat>)
    ensures r.Some? <==> s != "" && AllDigits(s)
  {
    if s != "" && AllDigits(s) then Some(DigitsValue(s)) else None
  }

  /** `int(s)` for a decimal literal with an optional sign. */
  function ParseInt(s: string): (r: Option<int>)
    ensures r.Some? <==> ParseNat(s).Some? || (|s| >= 2 && (s[0] == '-' || s[0] == '+') && ParseNat(s[1..]).Some?)
    ensures ParseNat(s).Some? ==> r == Some(ParseNat(s).value as int)
    ensures r.Some? && s[0] == '-' ==> r.value == -(ParseNat(s[1..]).value as int)
    ensures r.Some? && s[0] == '+' ==> r.value == ParseNat(s[1..]).value
  {
    if |s| >= 1 && (s[0] == '-' || s[0] == '+') then
      match ParseNat(s[1..])
      case None => None
      case Some(n) => Some(if s[0] == '-' then -(n as int) else n as int)
    else
      match ParseNat(s)
      case None => None
      case Some(n) => Some(n as int)
  }

  lemma {:induction false} DigitsValueOfNatToString(n: nat)
    ensures DigitsValue(NatToString(n)) == n
    decreases n
  {
    if n >= 10 {
      DigitsValueOfNatToString(n / 10);
      var s := NatToString(n);
      assert s[..|s| - 1] == NatToString(n / 10);
    }
  }

  /** Parsing a rendered number gives the number back. */
  lemma ParseNatToString(n: nat)
    ensures ParseNat(NatToString(n)) == Some(n)
  {
    DigitsValueOfNatToString(n);
  }

  lemma NatToStringInjective(a: nat, b: nat)
    ensures NatToString(a) == NatToString(b) ==> a == b
  {
    ParseNatToString(a);
    ParseNatToString(b);
  }

  function Pow10(d: nat): nat {
    if d == 0 then 1 else 10 * Pow10(d - 1)
  }

  /** A number below 10^d renders in at most d digits. */
  lemma {:induction false} NatToStringLength(n: nat, d: nat)
    requires 1 <= d && n < Pow10(d)
    ensures |NatToString(n)| <= d
    decreases d
  {
    if n >= 10 {
      assert d >= 2;
      NatToStringLength(n / 10, d - 1);
    }
  }

  /** A pattern longer than the text never occurs in it. */
  lemma {:induction false} ContainsTooLong(s: string, sub: string)
    requires |sub| > |s|
    ensures !Contains(s, sub)
    decreases |s|
  {
    if |s| > 0 {
      ContainsTooLong(s[1..], sub);
    }
  }

  /** Python slicing `s[:n]`. */
  function Truncate(s: string, n: nat): (r: string)
    ensures |r| == Min(n, |s|)
    ensures IsPrefix(r, s)
  {
    if |s| <= n then s else s[..n]
  }
}
