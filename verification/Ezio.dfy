/** Number parsing as myatoi does it with strtol: optional blanks, sign and 0x prefix,
    the whole string consumed, and an error outside the range of a 64-bit long. */
module Ezio {
  import opened Strings

  const LONG_MIN: int := -0x8000_0000_0000_0000
  const LONG_MAX: int := 0x7fff_ffff_ffff_ffff

  predicate IsSpace(c: char)
  {
    c == ' ' || '\t' <= c <= '\r'
  }

  function Digit(c: char): Option<nat>
  {
    if '0' <= c <= '9' then Some(c as int - '0' as int)
    else if 'a' <= c <= 'z' then Some(c as int - 'a' as int + 10)
    else if 'A' <= c <= 'Z' then Some(c as int - 'A' as int + 10)
    else None
  }

  predicate IsDigit(c: char, base: nat)
  {
    Digit(c).Some? && Digit(c).value < base
  }

  predicate AllDigits(s: string, base: nat)
  {
    forall i :: 0 <= i < |s| ==> IsDigit(s[i], base)
  }

  function DigitsValue(s: string, base: nat): nat
    requires AllDigits(s, base)
  {
    if s == "" then 0
    else DigitsValue(s[..|s| - 1], base) * base + Digit(s[|s| - 1]).value
  }

  function SkipSpaces(s: string): string
  {
    if s != "" && IsSpace(s[0]) then SkipSpaces(s[1..]) else s
  }

  function SkipHexPrefix(s: string, base: nat): string
  {
    if base == 16 && |s| > 2 && s[0] == '0' && (s[1] == 'x' || s[1] == 'X') then s[2..] else s
  }

  /** None is the exception myatoi throws. */
  function Myatoi(s: string, base: nat): Option<int>
  {
    var t := SkipSpaces(s);
    var negative := t != "" && t[0] == '-';
    var digits := SkipHexPrefix(if t != "" && t[0] in "+-" then t[1..] else t, base);
    if digits == "" || !AllDigits(digits, base) then None
    else
      var v: int := if negative then -(DigitsValue(digits, base) as int) else DigitsValue(digits, base);
      if LONG_MIN <= v <= LONG_MAX then Some(v) else None
  }

  /** The usual spelling of a number, in decimal or in lower-case hexadecimal. */
  function Digits(n: nat, base: nat): (s: string)
    requires base == 10 || base == 16
    ensures s != "" && AllDigits(s, base)
    decreases n
  {
    var last := [ "0123456789abcdef"[n % base] ];
    if n < base then last else Digits(n / base, base) + last
  }

  lemma {:induction false} DigitsRead(n: nat, base: nat)
    requires base == 10 || base == 16
    ensures DigitsValue(Digits(n, base), base) == n
    decreases n
  {
    var s := Digits(n, base);
    LastDigit(n, base);
    if n < base {
      assert s[..0] == "";
    } else {
      DigitsRead(n / base, base);
      assert s[..|s| - 1] == Digits(n / base, base);
    }
  }

  lemma LastDigit(n: nat, base: nat)
    requires base == 10 || base == 16
    ensures Digit("0123456789abcdef"[n % base]) == Some(n % base)
    ensures n == n / base * base + n % base && (n < base ==> n % base == n)
  {
    if base == 10 {
      assert n % base == n % 10 && n / base == n / 10;
    } else {
      assert n % base == n % 16 && n / base == n / 16;
    }
  }

  /** A string of digits starts with no blank, sign or prefix to skip. */
  lemma DigitsPlain(s: string, base: nat)
    requires s != "" && AllDigits(s, base) && (base == 10 || base == 16)
    ensures SkipSpaces(s) == s && s[0] !in "+-" && SkipHexPrefix(s, base) == s
  {
    assert IsDigit(s[0], base);
    assert |s| > 1 ==> IsDigit(s[1], base);
  }

  /** Reading back a printed number gives the number. */
  lemma DigitsRoundTrip(n: nat, base: nat)
    requires (base == 10 || base == 16) && n <= LONG_MAX
    ensures Myatoi(Digits(n, base), base) == Some(n)
  {
    var s := Digits(n, base);
    assert DigitsValue(s, base) == n by { DigitsRead(n, base); }
    DigitsPlain(s, base);
  }

  /** ---- Numbers as they are written ---- */

  /** `c` stands for the number v: a decimal digit, or a letter of either case from ten on. */
  predicate Numeral(c: char, v: nat)
  {
    v < 16 && (c == "0123456789abcdef"[v] || c == "0123456789ABCDEF"[v])
  }

  /** A non-empty string of digits, with any leading zeros and letters in any mix of case. */
  ghost predicate Spells(s: string, digits: seq<nat>, base: nat)
  {
    s != "" && |s| == |digits| && forall i :: 0 <= i < |s| ==> digits[i] < base && Numeral(s[i], digits[i])
  }

  function Power(base: nat, n: nat): nat
  {
    if n == 0 then 1 else base * Power(base, n - 1)
  }

  /** The value of a positional notation, most significant digit first. */
  function Positional(digits: seq<nat>, base: nat): nat
  {
    if digits == [] then 0 else digits[0] * Power(base, |digits| - 1) + Positional(digits[1..], base)
  }

  lemma NumeralDigit(c: char, v: nat)
    ensures v < 16 ==> (Numeral(c, v) <==> Digit(c) == Some(v))
  {
  }

  lemma {:induction false} PositionalSnoc(digits: seq<nat>, last: nat, base: nat)
    ensures Positional(digits + [last], base) == Positional(digits, base) * base + last
    decreases |digits|
  {
    var all := digits + [last];
    if digits == [] {
      assert all[1..] == [] && Power(base, 0) == 1;
    } else {
      var d, rest := digits[0], digits[1..];
      assert all[1..] == rest + [last];
      PositionalSnoc(rest, last, base);
      Shifted(d, base, Power(base, |digits| - 1), Positional(rest, base));
    }
  }

  lemma Shifted(d: nat, base: nat, power: nat, rest: nat)
    ensures (d * power + rest) * base == d * (base * power) + rest * base
  {
  }

  /** Digits read from the back are worth what they are worth by position. */
  lemma {:induction false} SpelledValue(s: string, digits: seq<nat>, base: nat)
    requires |s| == |digits| && base <= 16
    requires forall i :: 0 <= i < |s| ==> digits[i] < base && Numeral(s[i], digits[i])
    ensures AllDigits(s, base) && DigitsValue(s, base) == Positional(digits, base)
    decreases |s|
  {
    forall i | 0 <= i < |s| ensures Digit(s[i]) == Some(digits[i])
    {
      NumeralDigit(s[i], digits[i]);
    }
    if s != "" {
      var n := |s| - 1;
      SpelledValue(s[..n], digits[..n], base);
      PositionalSnoc(digits[..n], digits[n], base);
      assert digits == digits[..n] + [digits[n]];
    }
  }

  /** Every string of digits is read as its positional value, up to the largest long. */
  lemma NumberRead(s: string, digits: seq<nat>, base: nat)
    requires (base == 10 || base == 16) && Spells(s, digits, base)
    ensures Myatoi(s, base) == if Positional(digits, base) <= LONG_MAX then Some(Positional(digits, base)) else None
  {
    SpelledValue(s, digits, base);
    DigitsPlain(s, base);
  }

  predicate AllBlank(s: string)
  {
    forall i :: 0 <= i < |s| ==> s[i] == ' ' || 9 <= s[i] as int <= 13
  }

  /** A string of digits worth n. */
  ghost predicate Worth(word: string, base: nat, n: nat)
  {
    exists digits :: Spells(word, digits, base) && Positional(digits, base) == n
  }

  /** Digits, in base 16 perhaps after a prefix. */
  ghost predicate Unsigned(u: string, base: nat, n: nat)
  {
    || Worth(u, base, n)
    || (base == 16 && |u| > 2 && u[0] == '0' && (u[1] == 'x' || u[1] == 'X') && Worth(u[2..], base, n))
  }

  ghost predicate Signed(t: string, base: nat, v: int)
  {
    || (v >= 0 && Unsigned(t, base, v))
    || (t != "" && t[0] == '+' && v >= 0 && Unsigned(t[1..], base, v))
    || (t != "" && t[0] == '-' && v <= 0 && Unsigned(t[1..], base, -v))
  }

  /** What strtol takes a whole string for: blanks, a sign, a prefix of base 16 and digits,
      worth v, in the range of a long. */
  ghost predicate Written(s: string, base: nat, v: int)
  {
    LONG_MIN <= v <= LONG_MAX && exists k: nat :: k <= |s| && AllBlank(s[..k]) && Signed(s[k..], base, v)
  }

  lemma {:induction false} BlanksSkipped(s: string, k: nat)
    requires k <= |s| && AllBlank(s[..k]) && (k < |s| ==> !IsSpace(s[k]))
    ensures SkipSpaces(s) == s[k..]
    decreases k
  {
    if k > 0 {
      assert s[..k][0] == s[0];
      assert s[1..][..k - 1] == s[..k][1..] && s[1..][k - 1..] == s[k..];
      BlanksSkipped(s[1..], k - 1);
    }
  }

  lemma {:induction false} SkipSpacesSplits(s: string) returns (k: nat)
    ensures k <= |s| && AllBlank(s[..k]) && SkipSpaces(s) == s[k..]
    decreases |s|
  {
    if s != "" && IsSpace(s[0]) {
      var n := SkipSpacesSplits(s[1..]);
      k := n + 1;
      assert s[1..][n..] == s[k..];
      forall i | 0 <= i < k ensures s[i] == ' ' || 9 <= s[i] as int <= 13
      {
        assert i > 0 ==> s[i] == s[1..][..n][i - 1];
      }
    } else {
      k := 0;
    }
  }

  /** A word is worth what its digits, read one by one, are worth. */
  lemma WorthValue(word: string, base: nat, n: nat)
    requires base <= 16
    ensures Worth(word, base, n) <==> word != "" && AllDigits(word, base) && DigitsValue(word, base) == n
  {
    if word != "" && AllDigits(word, base) {
      forall i | 0 <= i < |word| ensures Digit(word[i]).Some? && Digit(word[i]).value < base
      {
        assert IsDigit(word[i], base);
      }
      var digits := seq(|word|, i requires 0 <= i < |word| => Digit(word[i]).value);
      forall i | 0 <= i < |word| ensures Numeral(word[i], digits[i])
      {
        NumeralDigit(word[i], digits[i]);
      }
      SpelledValue(word, digits, base);
      assert Spells(word, digits, base);
    }
    if Worth(word, base, n) {
      var digits :| Spells(word, digits, base) && Positional(digits, base) == n;
      SpelledValue(word, digits, base);
    }
  }

  lemma DigitsWorth(n: nat, base: nat)
    requires base == 10 || base == 16
    ensures Worth(Digits(n, base), base, n)
  {
    DigitsRead(n, base);
    WorthValue(Digits(n, base), base, n);
  }

  /** No digit string begins with a blank, a sign or a prefix. */
  lemma WorthPlain(word: string, base: nat, n: nat)
    requires Worth(word, base, n) && (base == 10 || base == 16)
    ensures word != "" && word[0] !in "+-" && !IsSpace(word[0]) && SkipHexPrefix(word, base) == word
  {
    WorthValue(word, base, n);
    DigitsPlain(word, base);
    assert IsDigit(word[0], base);
  }

  lemma UnsignedValue(u: string, base: nat, n: nat)
    requires base == 10 || base == 16
    ensures var word := SkipHexPrefix(u, base);
      Unsigned(u, base, n) <==> word != "" && AllDigits(word, base) && DigitsValue(word, base) == n
    ensures Unsigned(u, base, n) ==> u != "" && u[0] !in "+-" && !IsSpace(u[0])
  {
    hide Worth;
    hide AllDigits;
    hide DigitsValue;
    WorthValue(u, base, n);
    if Worth(u, base, n) {
      WorthPlain(u, base, n);
    }
    if |u| > 2 {
      WorthValue(u[2..], base, n);
    }
  }

  /** What myatoi makes of a string without its leading blanks. */
  function Converted(t: string, base: nat): Option<int>
  {
    var digits := SkipHexPrefix(if t != "" && t[0] in "+-" then t[1..] else t, base);
    if digits == "" || !AllDigits(digits, base) then None
    else Some(if t != "" && t[0] == '-' then -(DigitsValue(digits, base) as int) else DigitsValue(digits, base))
  }

  lemma SignedValue(t: string, base: nat, v: int)
    requires base == 10 || base == 16
    ensures Signed(t, base, v) <==> Converted(t, base) == Some(v)
    ensures Signed(t, base, v) ==> t != "" && !IsSpace(t[0])
  {
    hide Unsigned;
    hide AllDigits;
    hide DigitsValue;
    hide SkipHexPrefix;
    var n := if v < 0 then -v else v;
    UnsignedValue(t, base, n);
    if t != "" {
      UnsignedValue(t[1..], base, n);
    }
  }

  lemma MyatoiConverts(s: string, base: nat, v: int)
    ensures Myatoi(s, base) == Some(v) <==> LONG_MIN <= v <= LONG_MAX && Converted(SkipSpaces(s), base) == Some(v)
  {
    hide AllDigits;
    hide DigitsValue;
    hide SkipHexPrefix;
    hide SkipSpaces;
  }

  /** A string is read as v exactly when it is written so. */
  lemma MyatoiExact(s: string, base: nat, v: int)
    requires base == 10 || base == 16
    ensures Myatoi(s, base) == Some(v) <==> Written(s, base, v)
  {
    hide Myatoi;
    hide Signed;
    hide Converted;
    hide SkipSpaces;
    hide AllBlank;
    MyatoiConverts(s, base, v);
    if Written(s, base, v) {
      var k: nat :| k <= |s| && AllBlank(s[..k]) && Signed(s[k..], base, v);
      SignedValue(s[k..], base, v);
      BlanksSkipped(s, k);
    }
    if Myatoi(s, base) == Some(v) {
      var k := SkipSpacesSplits(s);
      SignedValue(s[k..], base, v);
    }
  }
}
