/**
 * The JavaScript built-ins the review engine relies on, restated over integers and
 * strings: `Number.prototype.toString` for integers, `parseInt(s, 10)`,
 * `String.prototype.trim` and `toLowerCase` (ASCII letters only), `Array.prototype.join`,
 * and `Math.floor(Math.random() * m)`.
 */
module Builtins {
  import opened Wrappers

  predicate IsDigit(c: char) { '0' <= c <= '9' }

  predicate AllDigits(s: string) { forall i :: 0 <= i < |s| ==> IsDigit(s[i]) }

  function DigitValue(c: char): (d: nat)
    requires IsDigit(c)
    ensures d < 10
  {
    c as int - '0' as int
  }

  function DigitChar(d: nat): (c: char)
    requires d < 10
    ensures IsDigit(c) && DigitValue(c) == d
  {
    (d + '0' as int) as char
  }

  /** `n.toString()` for a non-negative integer: its decimal digits, without leading zeros. */
  function NatToString(n: nat): (s: string)
    ensures |s| >= 1 && AllDigits(s)
    ensures n < 10 <==> |s| == 1
  {
    if n < 10 then [DigitChar(n)] else NatToString(n / 10) + [DigitChar(n % 10)]
  }

  /** `i.toString()` for any integer: a minus sign before the digits of a negative number. */
  function IntToString(i: int): (s: string)
    ensures |s| >= 1
    ensures i >= 0 <==> IsDigit(s[0])
  {
    if i < 0 then "-" + NatToString(-i) else NatToString(i)
  }

  /** The value of a string of decimal digits, most significant first. */
  function DigitsValue(s: string): nat
    requires AllDigits(s)
  {
    if s == [] then 0 else DigitsValue(s[..|s| - 1]) * 10 + DigitValue(s[|s| - 1])
  }

  /** Distinct numbers print differently. */
  lemma {:induction false} NatToStringInjective(a: nat, b: nat)
    requires NatToString(a) == NatToString(b)
    ensures a == b
  {
    if a >= 10 {
      var sa, sb := NatToString(a), NatToString(b);
      assert b >= 10;
      assert DigitChar(a % 10) == sa[|sa| - 1] == sb[|sb| - 1] == DigitChar(b % 10);
      assert NatToString(a / 10) == sa[..|sa| - 1] == sb[..|sb| - 1] == NatToString(b / 10);
      NatToStringInjective(a / 10, b / 10);
    } else {
      assert DigitChar(a) == NatToString(a)[0] == NatToString(b)[0];
    }
  }

  lemma IntToStringInjective(a: int, b: int)
    requires IntToString(a) == IntToString(b)
    ensures a == b
  {
    if a < 0 && b < 0 {
      assert NatToString(-a) == IntToString(a)[1..] == IntToString(b)[1..] == NatToString(-b);
      NatToStringInjective(-a, -b);
    } else if a >= 0 && b >= 0 {
      NatToStringInjective(a, b);
    } else {
      assert false;
    }
  }

  /** Reading back the digits that `NatToString` prints gives the number again. */
  lemma {:induction false} DigitsValueOfNatToString(n: nat)
    ensures DigitsValue(NatToString(n)) == n
  {
    var s := NatToString(n);
    if n >= 10 {
      assert s[..|s| - 1] == NatToString(n / 10);
      DigitsValueOfNatToString(n / 10);
    } else {
      assert s[..|s| - 1] == [];
    }
  }

  /**
   * A decimal field followed by a separator that starts with a non-digit can be read back
   * unambiguously: equal concatenations have equal fields.
   */
  lemma SplitAtSeparator(p: string, q: string, p': string, q': string, sep: string)
    requires AllDigits(p) && AllDigits(p')
    requires |sep| > 0 && !IsDigit(sep[0])
    requires p + sep + q == p' + sep + q'
    ensures p == p' && q == q'
  {
    var w := p + sep + q;
    assert w == p' + sep + q';
    assert !IsDigit(w[|p|]) && !IsDigit(w[|p'|]);
    assert forall k :: 0 <= k < |p| ==> w[k] == p[k];
    assert forall k :: 0 <= k < |p'| ==> w[k] == p'[k];
    assert |p| == |p'|;
    assert p == w[..|p|] == p';
    assert q == w[|p| + |sep|..] == q';
  }

  /**
   * The characters `trim` and `parseInt` skip: ECMAScript WhiteSpace and LineTerminator
   * (tab, line feed, vertical tab, form feed, carriage return, space, no-break space,
   * the Unicode space separators, line and paragraph separators, and the byte order mark).
   */
  predicate IsWhitespace(c: char)
  {
    c == '\t' || c == '\n' || c == '\U{B}' || c == '\U{C}' || c == '\r' || c == ' '
    || c == '\U{A0}' || c == '\U{1680}' || ('\U{2000}' <= c <= '\U{200A}')
    || c == '\U{2028}' || c == '\U{2029}' || c == '\U{202F}' || c == '\U{205F}'
    || c == '\U{3000}' || c == '\U{FEFF}'
  }

  predicate NoWhitespace(s: string) { forall i :: 0 <= i < |s| ==> !IsWhitespace(s[i]) }

  predicate AllWhitespace(s: string) { forall i :: 0 <= i < |s| ==> IsWhitespace(s[i]) }

  /** Drops leading white space. */
  function TrimStart(s: string): (r: string)
    ensures |r| <= |s| && r == s[|s| - |r|..]
    ensures r == [] || !IsWhitespace(r[0])
    ensures AllWhitespace(s[..|s| - |r|])
  {
    if s != [] && IsWhitespace(s[0]) then TrimStart(s[1..]) else s
  }

  /** Drops trailing white space. */
  function TrimEnd(s: string): (r: string)
    ensures |r| <= |s| && r == s[..|r|]
    ensures r == [] || !IsWhitespace(r[|r| - 1])
    ensures AllWhitespace(s[|r|..])
  {
    if s != [] && IsWhitespace(s[|s| - 1]) then TrimEnd(s[..|s| - 1]) else s
  }

  /** `s.trim()`. */
  function Trim(s: string): string
  {
    TrimEnd(TrimStart(s))
  }

  lemma {:induction false} TrimStartSkipsPadding(pad: string, s: string)
    requires AllWhitespace(pad)
    requires s == [] || !IsWhitespace(s[0])
    ensures TrimStart(pad + s) == s
  {
    if pad != [] {
      assert (pad + s)[1..] == pad[1..] + s;
      TrimStartSkipsPadding(pad[1..], s);
    } else {
      assert pad + s == s;
    }
  }

  lemma {:induction false} TrimEndSkipsPadding(s: string, pad: string)
    requires AllWhitespace(pad)
    requires s == [] || !IsWhitespace(s[|s| - 1])
    ensures TrimEnd(s + pad) == s
  {
    if pad != [] {
      assert (s + pad)[..|s + pad| - 1] == s + pad[..|pad| - 1];
      TrimEndSkipsPadding(s, pad[..|pad| - 1]);
    } else {
      assert s + pad == s;
    }
  }

  /** Surrounding white space does not survive `trim`, and a word without any is kept whole. */
  lemma TrimDropsPadding(before: string, word: string, after: string)
    requires AllWhitespace(before) && AllWhitespace(after)
    requires word != [] && NoWhitespace(word)
    ensures Trim(before + word + after) == word
  {
    assert before + word + after == before + (word + after);
    TrimStartSkipsPadding(before, word + after);
    TrimEndSkipsPadding(word, after);
  }

  /** A word without white space is its own trim. */
  lemma TrimOfWord(word: string)
    requires word != [] && NoWhitespace(word)
    ensures Trim(word) == word
  {
    assert [] + word + [] == word;
    TrimDropsPadding([], word, []);
  }

  function LowerChar(c: char): char
  {
    if 'A' <= c <= 'Z' then (c as int + 32) as char else c
  }

  /** `s.toLowerCase()` restricted to ASCII letters. */
  function Lower(s: string): string
  {
    seq(|s|, i requires 0 <= i < |s| => LowerChar(s[i]))
  }

  /** Lower-casing maps white space to white space and other characters to other characters. */
  lemma LowerKeepsWhitespace(c: char)
    ensures IsWhitespace(LowerChar(c)) <==> IsWhitespace(c)
  {
  }

  /** `parts.join(sep)`. */
  function Join(parts: seq<string>, sep: string): string
  {
    if |parts| == 0 then ""
    else if |parts| == 1 then parts[0]
    else parts[0] + sep + Join(parts[1..], sep)
  }

  /** `s.includes(t)`: `t` occurs in `s` as a run of consecutive characters. */
  predicate OccursIn(t: string, s: string)
  {
    exists i, j :: 0 <= i <= j <= |s| && s[i..j] == t
  }

  lemma OccursInMiddle(a: string, t: string, b: string)
    ensures OccursIn(t, a + t + b)
  {
    var s := a + t + b;
    assert s[|a|..|a| + |t|] == t;
  }

  lemma OccursInWider(t: string, m: string, a: string, b: string)
    requires OccursIn(t, m)
    ensures OccursIn(t, a + m + b)
  {
    var i, j :| 0 <= i <= j <= |m| && m[i..j] == t;
    var s := a + m + b;
    assert s[|a| + i..|a| + j] == m[i..j];
  }

  /** Every part occurs in the joined string. */
  lemma {:induction false} JoinShowsParts(parts: seq<string>, sep: string, k: nat)
    requires k < |parts|
    ensures OccursIn(parts[k], Join(parts, sep))
  {
    if |parts| == 1 {
      OccursInMiddle("", parts[0], "");
      assert "" + parts[0] + "" == Join(parts, sep);
    } else if k == 0 {
      OccursInMiddle("", parts[0], sep + Join(parts[1..], sep));
      assert "" + parts[0] + (sep + Join(parts[1..], sep)) == Join(parts, sep);
    } else {
      JoinShowsParts(parts[1..], sep, k - 1);
      OccursInWider(parts[k], Join(parts[1..], sep), parts[0] + sep, "");
      assert parts[0] + sep + Join(parts[1..], sep) + "" == Join(parts, sep);
    }
  }

  /** The longest prefix of `s` made of decimal digits. */
  function DigitPrefix(s: string): (p: string)
    ensures AllDigits(p) && p <= s
    ensures |p| < |s| ==> !IsDigit(s[|p|])
  {
    if s != [] && IsDigit(s[0]) then [s[0]] + DigitPrefix(s[1..]) else []
  }

  /** The number the digits at the start of `u` spell, or NaN (`None`) when there are none. */
  function ParseDigits(u: string): Option<int>
  {
    var z := DigitPrefix(u);
    if z == [] then None else Some(DigitsValue(z))
  }

  /** An optional sign, then the digits that follow it. */
  function ParseSigned(t: string): Option<int>
  {
    if |t| > 0 && t[0] == '-' then
      match ParseDigits(t[1..])
      case None => None
      case Some(m) => Some(-m)
    else if |t| > 0 && t[0] == '+' then ParseDigits(t[1..])
    else ParseDigits(t)
  }

  /**
   * `parseInt(s, 10)`: skip leading white space, read an optional sign, then as many decimal
   * digits as follow. `None` is NaN (no digit at that point); trailing text is ignored.
   */
  function ParseInt(s: string): Option<int>
  {
    ParseSigned(TrimStart(s))
  }

  /** The digit run of digits followed by a non-digit is those digits. */
  lemma {:induction false} DigitPrefixStops(digits: string, rest: string)
    requires AllDigits(digits)
    requires rest == [] || !IsDigit(rest[0])
    ensures DigitPrefix(digits + rest) == digits
  {
    if digits != [] {
      assert (digits + rest)[1..] == digits[1..] + rest;
      DigitPrefixStops(digits[1..], rest);
    } else {
      assert digits + rest == rest;
    }
  }

  /** White space before the text does not change what `parseInt` reads. */
  lemma ParseIntSkipsPadding(pad: string, t: string)
    requires AllWhitespace(pad)
    requires t == [] || !IsWhitespace(t[0])
    ensures ParseInt(pad + t) == ParseInt(t)
  {
    TrimStartSkipsPadding(pad, t);
    TrimStartSkipsPadding([], t);
    assert [] + t == t;
  }

  lemma ParseDigitsThenText(n: nat, rest: string)
    requires rest == [] || !IsDigit(rest[0])
    ensures ParseDigits(NatToString(n) + rest) == Some(n)
  {
    DigitPrefixStops(NatToString(n), rest);
    DigitsValueOfNatToString(n);
  }

  lemma ParseSignedOfDigits(n: nat, rest: string)
    requires rest == [] || !IsDigit(rest[0])
    ensures ParseSigned(NatToString(n) + rest) == Some(n)
  {
    ParseDigitsThenText(n, rest);
  }

  lemma ParseSignedOfMinusDigits(n: nat, rest: string)
    requires rest == [] || !IsDigit(rest[0])
    ensures ParseSigned("-" + NatToString(n) + rest) == Some(-(n as int))
  {
    ParseDigitsThenText(n, rest);
    assert ("-" + NatToString(n) + rest)[1..] == NatToString(n) + rest;
  }

  /** `parseInt` reads the number `toString` prints and ignores a non-digit tail. */
  lemma ParseIntOfNumberThenText(i: int, rest: string)
    requires rest == [] || !IsDigit(rest[0])
    ensures ParseInt(IntToString(i) + rest) == Some(i)
  {
    var t := IntToString(i) + rest;
    assert !IsWhitespace(t[0]);
    assert TrimStart(t) == t;
    if i < 0 {
      ParseSignedOfMinusDigits(-i, rest);
      assert t == "-" + NatToString(-i) + rest;
    } else {
      ParseSignedOfDigits(i, rest);
    }
  }

  /**
   * `parseInt` reads back what `toString` prints, whatever white space comes before it and
   * whatever follows it that does not start with a digit.
   */
  lemma ParseIntReadsLeadingNumber(pad: string, i: int, rest: string)
    requires AllWhitespace(pad)
    requires rest == [] || !IsDigit(rest[0])
    ensures ParseInt(pad + IntToString(i) + rest) == Some(i)
  {
    var t := IntToString(i) + rest;
    assert pad + IntToString(i) + rest == pad + t;
    ParseIntSkipsPadding(pad, t);
    ParseIntOfNumberThenText(i, rest);
  }

  /** `parseInt` reads back what `toString` prints. */
  lemma ParseIntOfIntToString(i: int)
    ensures ParseInt(IntToString(i)) == Some(i)
  {
    ParseIntOfNumberThenText(i, []);
    assert IntToString(i) + [] == IntToString(i);
  }

  /** A zero before a run of digits does not change its value. */
  lemma {:induction false} DigitsValueLeadingZero(s: string)
    requires AllDigits(s)
    ensures AllDigits("0" + s) && DigitsValue("0" + s) == DigitsValue(s)
  {
    var t := "0" + s;
    if s == [] {
      assert t[..0] == [];
    } else {
      assert t[..|t| - 1] == "0" + s[..|s| - 1];
      DigitsValueLeadingZero(s[..|s| - 1]);
    }
  }

  /** `parseInt` ignores zeros before the digits: "056" reads as 56. */
  lemma {:induction false} ParseIntIgnoresLeadingZeros(zeros: string, n: nat)
    requires forall k :: 0 <= k < |zeros| ==> zeros[k] == '0'
    ensures ParseInt(zeros + NatToString(n)) == Some(n)
  {
    var d := NatToString(n);
    LeadingZerosValue(zeros, d);
    DigitsValueOfNatToString(n);
    ParseIntOfDigits(zeros + d);
  }

  /** `parseInt` of a non-empty run of digits is its value. */
  lemma ParseIntOfDigits(t: string)
    requires t != [] && AllDigits(t)
    ensures ParseInt(t) == Some(DigitsValue(t))
  {
    var c := t[0];
    assert '0' <= c <= '9';
    assert !IsWhitespace(c);
    assert TrimStart(t) == t;
    assert c != '-' && c != '+';
    DigitPrefixStops(t, []);
    assert t + [] == t;
  }

  lemma {:induction false} LeadingZerosValue(zeros: string, s: string)
    requires forall k :: 0 <= k < |zeros| ==> zeros[k] == '0'
    requires AllDigits(s)
    ensures AllDigits(zeros + s) && DigitsValue(zeros + s) == DigitsValue(s)
  {
    if zeros != [] {
      LeadingZerosValue(zeros[1..], s);
      DigitsValueLeadingZero(zeros[1..] + s);
      assert zeros + s == "0" + (zeros[1..] + s);
    } else {
      assert zeros + s == s;
    }
  }

  /** `parseInt` keeps a leading number and drops the text after it. */
  lemma ParseIntKeepsLeadingNumber()
    ensures ParseInt("12abc") == Some(12)
  {
    assert [] + "12abc" == "12abc";
    TrimStartSkipsPadding([], "12abc");
    assert "12abc" == "12" + "abc";
    DigitPrefixStops("12", "abc");
    assert DigitsValue("12") == 12 by {
      assert "12"[..1] == "1";
      assert "1"[..0] == [];
    }
    var t := "12abc";
    assert t[0] != '-' && t[0] != '+';
    assert ParseSigned(t) == ParseDigits(t);
  }

  /** `parseInt` yields NaN when no digit comes first. */
  lemma ParseIntWithoutDigitsIsNaN()
    ensures ParseInt("abc") == None
  {
    assert [] + "abc" == "abc";
    TrimStartSkipsPadding([], "abc");
    assert DigitPrefix("abc") == [];
  }

  /** `Math.floor(Math.random() * m)` for the draw `u` that `Math.random()` returned. */
  function RandomIndex(u: real, m: nat): (i: nat)
    requires 0.0 <= u < 1.0 && m > 0
    ensures i < m
  {
    ScaledDrawBounds(u, m);
    (u * m as real).Floor
  }

  lemma ScaledDrawBounds(u: real, m: nat)
    requires 0.0 <= u < 1.0 && m > 0
    ensures 0.0 <= u * m as real < m as real
  {
  }

  /** Every index below `m` is drawn by some value of `Math.random()`. */
  lemma RandomIndexCovers(m: nat, k: nat)
    requires k < m
    ensures 0.0 <= k as real / m as real < 1.0
    ensures RandomIndex(k as real / m as real, m) == k
  {
    assert (k as real / m as real) * m as real == k as real;
  }
}
