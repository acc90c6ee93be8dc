/** Decimal numerals as JavaScript prints and parses them. */
module Decimal {
  import opened Text

  predicate IsDigit(c: char) { '0' <= c <= '9' }

  ghost predicate AllDigits(s: string) { forall i :: 0 <= i < |s| ==> IsDigit(s[i]) }

  predicate HasOnlyDigits(s: string)
    ensures HasOnlyDigits(s) <==> AllDigits(s)
  {
    s == [] || (IsDigit(s[0]) && HasOnlyDigits(s[1..]))
  }

  function DigitOf(d: int): (c: char)
    requires 0 <= d < 10
    ensures IsDigit(c)
  {
    (48 + d) as char
  }

  function DigitValue(c: char): (d: nat)
    requires IsDigit(c)
    ensures d < 10
  {
    c as int - 48
  }

  /** `String(n)` for a non-negative integer. */
  function Print(n: nat): string {
    (if n < 10 then [] else Print(n / 10)) + [DigitOf(n % 10)]
  }

  function Value(s: string): nat
    requires AllDigits(s)
  {
    if s == [] then 0 else 10 * Value(s[..|s| - 1]) + DigitValue(s[|s| - 1])
  }

  lemma {:induction false} LastDigit(n: nat)
    ensures n / 10 * 10 + n % 10 == n && DigitValue(DigitOf(n % 10)) == n % 10
  {
  }

  lemma {:induction false} ValueAppends(s: string, c: char)
    requires AllDigits(s) && IsDigit(c)
    ensures AllDigits(s + [c]) && Value(s + [c]) == 10 * Value(s) + DigitValue(c)
  {
    assert (s + [c])[..|s|] == s;
  }

  lemma {:induction false} ValueOfPrint(n: nat)
    ensures |Print(n)| >= 1 && AllDigits(Print(n)) && Value(Print(n)) == n
  {
    hide DigitOf, DigitValue, IsDigit, AllDigits, Value;
    NoDigits();
    LastDigit(n);
    if n < 10 {
      ValueAppends([], DigitOf(n % 10));
    } else {
      ValueOfPrint(n / 10);
      ValueAppends(Print(n / 10), DigitOf(n % 10));
    }
  }

  lemma {:induction false} NoDigits()
    ensures AllDigits([]) && Value([]) == 0
  {
  }

  /** Character classes of `parseInt`'s leading white space (ECMA-262, StrWhiteSpaceChar). */
  predicate IsSpace(c: char) {
    || '\t' <= c <= '\r' || c == ' ' || c == '\U{A0}' || c == '\U{1680}' || '\U{2000}' <= c <= '\U{200A}'
    || c == '\U{2028}' || c == '\U{2029}' || c == '\U{202F}' || c == '\U{205F}' || c == '\U{3000}' || c == '\U{FEFF}'
  }

  function DigitPrefix(s: string): (p: string)
    ensures AllDigits(p)
  {
    if s == [] || !IsDigit(s[0]) then [] else [s[0]] + DigitPrefix(s[1..])
  }

  /** `parseInt(s, 10)`; None is NaN. */
  function ParseInt(s: string): Option<int> {
    if s == [] then None
    else if IsSpace(s[0]) then ParseInt(s[1..])
    else
      var unsigned := if s[0] == '+' || s[0] == '-' then s[1..] else s;
      var digits := DigitPrefix(unsigned);
      if digits == [] then None
      else if s[0] == '-' then Some(-(Value(digits) as int)) else Some(Value(digits))
  }

  lemma {:induction false} DigitPrefixOfDigits(s: string)
    requires AllDigits(s)
    ensures DigitPrefix(s) == s
  {
    if s != [] {
      DigitPrefixOfDigits(s[1..]);
      assert s == [s[0]] + s[1..];
    }
  }

  lemma {:induction false} DigitIsNotSpace(c: char)
    requires IsDigit(c)
    ensures !IsSpace(c) && c != '+' && c != '-'
  {
  }

  lemma {:induction false} ParseIntOfDigits(s: string)
    requires s != [] && AllDigits(s)
    ensures ParseInt(s) == Some(Value(s) as int)
  {
    DigitPrefixOfDigits(s);
    DigitIsNotSpace(s[0]);
  }

  lemma {:induction false} ParseIntOfOne()
    ensures ParseInt("1") == Some(1)
  {
    ParseIntOfDigits("1");
    assert "1"[..0] == [];
    assert DigitValue('1') == 1;
  }

  lemma {:induction false} DigitPrefixStops(digits: string, junk: string)
    requires AllDigits(digits) && (junk == [] || !IsDigit(junk[0]))
    ensures DigitPrefix(digits + junk) == digits
  {
    if digits == [] {
      assert digits + junk == junk;
    } else {
      DigitPrefixStops(digits[1..], junk);
      assert (digits + junk)[1..] == digits[1..] + junk;
      assert digits == [digits[0]] + digits[1..];
    }
  }

  lemma {:induction false} ParseIntSkipsSpace(space: string, s: string)
    requires forall i :: 0 <= i < |space| ==> IsSpace(space[i])
    ensures ParseInt(space + s) == ParseInt(s)
  {
    if space == [] {
      assert space + s == s;
    } else {
      ParseIntSkipsSpace(space[1..], s);
      assert (space + s)[1..] == space[1..] + s;
    }
  }

  /** Leading space, a sign, the digits that follow; whatever comes after them is ignored. */
  lemma {:induction false} ParseIntOfNumeral(space: string, sign: string, digits: string, junk: string)
    requires forall i :: 0 <= i < |space| ==> IsSpace(space[i])
    requires sign in {"", "+", "-"} && AllDigits(digits) && digits != [] && (junk == [] || !IsDigit(junk[0]))
    ensures ParseInt(space + sign + digits + junk)
         == Some(if sign == "-" then -(Value(digits) as int) else Value(digits))
  {
    var s := sign + digits + junk;
    assert space + sign + digits + junk == space + s;
    ParseIntSkipsSpace(space, s);
    DigitPrefixStops(digits, junk);
    DigitIsNotSpace(digits[0]);
    assert (if sign == "" then s else s[1..]) == digits + junk;
    assert !IsSpace('+') && !IsSpace('-');
  }

  /** Without a digit after the space and the sign it is not a number. */
  lemma {:induction false} ParseIntOfNoNumeral(space: string, sign: string, junk: string)
    requires forall i :: 0 <= i < |space| ==> IsSpace(space[i])
    requires sign in {"", "+", "-"} && (junk == [] || !IsDigit(junk[0]))
    requires sign == "" && junk != [] ==> !IsSpace(junk[0]) && junk[0] != '+' && junk[0] != '-'
    ensures ParseInt(space + sign + junk) == None
  {
    var s := sign + junk;
    assert space + sign + junk == space + s;
    ParseIntSkipsSpace(space, s);
    assert (if sign == "" then s else s[1..]) == junk;
    assert !IsSpace('+') && !IsSpace('-');
  }

  /** Digits as a number is printed: at least one, and no leading zero. */
  predicate Canonical(s: string) { s != [] && HasOnlyDigits(s) && (s[0] == '0' ==> |s| == 1) }

  lemma {:induction false} CanonicalIsPositive(s: string)
    requires Canonical(s) && s != "0"
    ensures Value(s) > 0
  {
    var n := |s| - 1;
    if n > 0 {
      assert AllDigits(s[..n]);
      CanonicalIsPositive(s[..n]);
    } else {
      assert s == [s[0]] && s[..0] == [];
      assert s[0] != '0';
    }
  }

  lemma {:induction false} PrintExample()
    ensures Print(120) == "120"
  {
    assert Print(1) == "1";
    assert Print(12) == "12";
  }

  /** Printing is onto the canonical numerals: printing the value of one gives it back. */
  lemma {:induction false} PrintOfValue(s: string)
    requires Canonical(s)
    ensures Print(Value(s)) == s
  {
    var n := |s| - 1;
    assert s == s[..n] + [s[n]];
    LastDigit(DigitValue(s[n]));
    if n > 0 {
      assert AllDigits(s[..n]) && Canonical(s[..n]);
      PrintOfValue(s[..n]);
      CanonicalIsPositive(s);
      CanonicalHead(s);
    } else {
      assert s[..0] == [];
    }
  }

  lemma {:induction false} CanonicalHead(s: string)
    requires Canonical(s) && |s| > 1
    ensures Value(s[..|s| - 1]) > 0
  {
    assert AllDigits(s[..|s| - 1]) && Canonical(s[..|s| - 1]);
    CanonicalIsPositive(s[..|s| - 1]);
  }

  lemma {:induction false} PrintIsCanonical(n: nat)
    ensures Canonical(Print(n))
    ensures n > 0 ==> Print(n)[0] != '0'
  {
    ValueOfPrint(n);
    if n >= 10 {
      PrintIsCanonical(n / 10);
    }
  }
}
