/** The ECMAScript (ECMA-262) string operations the command-line client relies on:
    String.prototype.trim, String.prototype.toLowerCase, String.prototype.split and
    Array.prototype.join with a one-character separator, the global parseInt without a
    radix, and Number.prototype.toString for integral numbers. */
module JsText {
  import opened Wrappers

  /** WhiteSpace (ECMA-262 section 12.2) and LineTerminator (section 12.3): the code points
      that trim and parseInt skip. Space_Separator is the Unicode Zs category. */
  predicate IsWhiteSpace(c: char) {
    || c == '\t' || c == '\U{000B}' || c == '\U{000C}' || c == ' ' || c == '\U{00A0}' || c == '\U{FEFF}'
    || c == '\U{1680}' || ('\U{2000}' <= c <= '\U{200A}') || c == '\U{202F}' || c == '\U{205F}'
    || c == '\U{3000}'
    || c == '\n' || c == '\r' || c == '\U{2028}' || c == '\U{2029}'
  }

  predicate IsBlank(s: string) {
    forall i :: 0 <= i < |s| ==> IsWhiteSpace(s[i])
  }

  /** Number of white-space characters at the start of s. */
  function LeadingBlank(s: string): (n: nat)
    ensures n <= |s| && IsBlank(s[..n])
    ensures n < |s| ==> !IsWhiteSpace(s[n])
  {
    if s != [] && IsWhiteSpace(s[0]) then
      var n := 1 + LeadingBlank(s[1..]);
      assert s[..n][1..] == s[1..][..n - 1];
      n
    else 0
  }

  /** Number of white-space characters at the end of s. */
  function TrailingBlank(s: string): (n: nat)
    ensures n <= |s| && IsBlank(s[|s| - n..])
    ensures n < |s| ==> !IsWhiteSpace(s[|s| - n - 1])
  {
    if s != [] && IsWhiteSpace(s[|s| - 1]) then
      var n := 1 + TrailingBlank(s[..|s| - 1]);
      assert s[|s| - n..] == s[..|s| - 1][|s| - n..] + [s[|s| - 1]];
      n
    else 0
  }

  /** s without its leading white space (String.prototype.trimStart). */
  function TrimStart(s: string): string {
    s[LeadingBlank(s)..]
  }

  /** String.prototype.trim: s with white space removed at both ends. s is a blank run,
      then r, then a blank run, and r neither starts nor ends with white space, so only
      the blank ends are gone. r is empty exactly when s is blank, and an already trimmed
      s is left alone. */
  function Trim(s: string): (r: string)
    ensures |r| <= |s|
    ensures LeadingBlank(s) + |r| <= |s| && r == s[LeadingBlank(s)..LeadingBlank(s) + |r|]
    ensures IsBlank(s[..LeadingBlank(s)]) && IsBlank(s[LeadingBlank(s) + |r|..])
    ensures r == [] <==> IsBlank(s)
    ensures r != [] ==> !IsWhiteSpace(r[0]) && !IsWhiteSpace(r[|r| - 1])
    ensures s == [] || (!IsWhiteSpace(s[0]) && !IsWhiteSpace(s[|s| - 1])) ==> r == s
  {
    TrimIsMiddle(s);
    TrimEmptyIffBlank(s);
    TrimEndsNotBlank(s);
    TrimKeepsTrimmed(s);
    TrimCore(s)
  }

  /** s without its leading blanks, then without its trailing ones. */
  function TrimCore(s: string): string {
    var t := s[LeadingBlank(s)..];
    t[..|t| - TrailingBlank(t)]
  }

  /** What trim keeps is the stretch of s between its leading and its trailing blanks. */
  lemma {:induction false} TrimIsMiddle(s: string)
    ensures var lead := LeadingBlank(s); var r := TrimCore(s);
      && lead + |r| <= |s| && r == s[lead..lead + |r|] && IsBlank(s[lead + |r|..])
  {
    var lead := LeadingBlank(s);
    var t := s[lead..];
    MiddleOf(s, lead, t, TrailingBlank(t));
  }

  /** Cutting a blank tail off t == s[lead..] keeps the stretch of s up to that tail. */
  lemma {:induction false} MiddleOf(s: string, lead: nat, t: string, trail: nat)
    requires lead <= |s| && t == s[lead..] && trail <= |t| && IsBlank(t[|t| - trail..])
    ensures var r := t[..|t| - trail];
      && lead + |r| <= |s| && r == s[lead..lead + |r|] && IsBlank(s[lead + |r|..])
  {
    var k := |t| - trail;
    assert t[..k] == s[lead..lead + k];
    assert t[k..] == s[lead + k..];
  }

  lemma {:induction false} TrimEmptyIffBlank(s: string)
    ensures TrimCore(s) == [] <==> IsBlank(s)
  {
    TrimEmptyIsBlank(s);
    BlankTrimsToEmpty(s);
  }

  lemma {:induction false} TrimEmptyIsBlank(s: string)
    ensures TrimCore(s) == [] ==> IsBlank(s)
  {
    var lead := LeadingBlank(s);
    var r := TrimCore(s);
    TrimIsMiddle(s);
    if r == [] {
      assert IsBlank(s[lead..]);
      assert s == s[..lead] + s[lead..];
      BlankConcat(s[..lead], s[lead..]);
    }
  }

  lemma BlankConcat(a: string, b: string)
    requires IsBlank(a) && IsBlank(b)
    ensures IsBlank(a + b)
  {
  }

  lemma BlankTrimsToEmpty(s: string)
    ensures IsBlank(s) ==> LeadingBlank(s) == |s|
  {
    var n := LeadingBlank(s);
    assert n < |s| ==> !IsWhiteSpace(s[n]);
  }

  lemma TrimEndsNotBlank(s: string)
    ensures var r := TrimCore(s); r != [] ==> !IsWhiteSpace(r[0]) && !IsWhiteSpace(r[|r| - 1])
  {
    var lead := LeadingBlank(s);
    var t := s[lead..];
    var trail := TrailingBlank(t);
    var r := t[..|t| - trail];
    if r != [] {
      assert r[0] == s[lead];
      assert r[|r| - 1] == t[|t| - trail - 1];
    }
  }

  lemma TrimKeepsTrimmed(s: string)
    ensures s == [] || (!IsWhiteSpace(s[0]) && !IsWhiteSpace(s[|s| - 1])) ==>
      TrimCore(s) == s
  {
    if s != [] && !IsWhiteSpace(s[0]) && !IsWhiteSpace(s[|s| - 1]) {
      assert LeadingBlank(s) == 0;
      assert TrailingBlank(s) == 0;
    }
  }

  /** String.prototype.toLowerCase for the characters whose lower-case form is a single
      ASCII letter: A-Z and U+212A KELVIN SIGN. Every other character is kept, which is
      where this differs from Unicode case mapping; it never changes whether the result
      equals an ASCII keyword (see README). */
  function LowerChar(c: char): char {
    if 'A' <= c <= 'Z' then (c as int + 32) as char
    else if c == '\U{212A}' then 'k'
    else c
  }

  function ToLowerCase(s: string): string {
    seq(|s|, i requires 0 <= i < |s| => LowerChar(s[i]))
  }

  /** A keyword the handlers compare lower-cased input with: lower-case ASCII letters and
      underscores. */
  predicate IsKeyword(w: string) {
    forall i :: 0 <= i < |w| ==> 'a' <= w[i] <= 'z' || w[i] == '_'
  }

  /** c is w itself, w's capital, or the Kelvin sign where w is 'k'. */
  predicate CaseVariant(c: char, w: char) {
    || c == w
    || ('a' <= w <= 'z' && c as int == w as int - 32)
    || (w == 'k' && c == '\U{212A}')
  }

  lemma LowerCharToKeyword(c: char, w: char)
    requires 'a' <= w <= 'z' || w == '_'
    ensures LowerChar(c) == w <==> CaseVariant(c, w)
  {
  }

  /** Comparing toLowerCase(s) with a keyword matches s against the keyword ignoring
      ASCII case: same length, and each character the keyword's own, its capital, or the
      Kelvin sign for a 'k'. */
  lemma {:induction false} LowerMatchesKeyword(s: string, w: string)
    requires IsKeyword(w)
    ensures ToLowerCase(s) == w <==> |s| == |w| && forall i :: 0 <= i < |s| ==> CaseVariant(s[i], w[i])
  {
    var r := ToLowerCase(s);
    if |s| == |w| {
      forall i | 0 <= i < |s|
        ensures r[i] == w[i] <==> CaseVariant(s[i], w[i])
      {
        LowerCharToKeyword(s[i], w[i]);
      }
      if forall i :: 0 <= i < |s| ==> CaseVariant(s[i], w[i]) {
        assert forall i :: 0 <= i < |s| ==> r[i] == w[i];
      }
    }
  }

  /** Number of occurrences of c in s. */
  function Count(s: string, c: char): nat {
    if s == [] then 0 else (if s[0] == c then 1 else 0) + Count(s[1..], c)
  }

  lemma {:induction false} CountAppend(a: string, b: string, c: char)
    ensures Count(a + b, c) == Count(a, c) + Count(b, c)
  {
    if a != [] {
      assert (a + b)[1..] == a[1..] + b;
      CountAppend(a[1..], b, c);
    } else {
      assert a + b == b;
    }
  }

  lemma {:induction false} CountAbsent(s: string, c: char)
    requires c !in s
    ensures Count(s, c) == 0
  {
    if s != [] {
      assert c !in s[1..];
      CountAbsent(s[1..], c);
    }
  }

  /** Position of the first c in s. */
  function IndexOf(s: string, c: char): (i: nat)
    requires c in s
    ensures i < |s| && s[i] == c && c !in s[..i]
  {
    if s[0] == c then 0
    else
      var i := IndexOf(s[1..], c);
      assert s[..i + 1] == [s[0]] + s[1..][..i];
      i + 1
  }

  /** Array.prototype.join with a one-character separator. */
  function Join(parts: seq<string>, sep: char): string {
    if |parts| == 0 then ""
    else if |parts| == 1 then parts[0]
    else parts[0] + [sep] + Join(parts[1..], sep)
  }

  /** String.prototype.split with a one-character separator: the pieces between the
      separators, so one more piece than there are separators (an empty s gives [""]);
      no piece holds the separator and joining the pieces gives s back. */
  function Split(s: string, sep: char): (parts: seq<string>)
    ensures |parts| == Count(s, sep) + 1
    ensures forall i :: 0 <= i < |parts| ==> sep !in parts[i]
    ensures Join(parts, sep) == s
    decreases |s|
  {
    if sep in s then
      var i := IndexOf(s, sep);
      var rest := Split(s[i + 1..], sep);
      SplitAtFirst(s, sep, i, rest);
      [s[..i]] + rest
    else
      CountAbsent(s, sep);
      [s]
  }

  /** Cutting s at its first separator and splitting the remainder gives a split of s. */
  lemma SplitAtFirst(s: string, sep: char, i: nat, rest: seq<string>)
    requires i < |s| && s[i] == sep && sep !in s[..i]
    requires |rest| == Count(s[i + 1..], sep) + 1
    requires forall k :: 0 <= k < |rest| ==> sep !in rest[k]
    requires Join(rest, sep) == s[i + 1..]
    ensures |[s[..i]] + rest| == Count(s, sep) + 1
    ensures forall k :: 0 <= k < |[s[..i]] + rest| ==> sep !in ([s[..i]] + rest)[k]
    ensures Join([s[..i]] + rest, sep) == s
  {
    var parts := [s[..i]] + rest;
    assert s == s[..i] + ([sep] + s[i + 1..]);
    CountAppend(s[..i], [sep] + s[i + 1..], sep);
    CountAppend([sep], s[i + 1..], sep);
    CountAbsent(s[..i], sep);
    assert parts[1..] == rest;
    assert Count([sep], sep) == 1;
    assert Join(parts, sep) == s;
  }

  /** The first separator in p + [sep] + t is the one after p when p has none. */
  lemma {:induction false} IndexOfAfter(p: string, sep: char, t: string)
    requires sep !in p
    ensures IndexOf(p + [sep] + t, sep) == |p|
  {
    if p != [] {
      assert (p + [sep] + t)[1..] == p[1..] + [sep] + t;
      assert sep !in p[1..];
      IndexOfAfter(p[1..], sep, t);
    }
  }

  /** Splitting a join of separator-free pieces gives the pieces back. */
  lemma {:induction false} SplitJoin(parts: seq<string>, sep: char)
    requires |parts| >= 1
    requires forall i :: 0 <= i < |parts| ==> sep !in parts[i]
    ensures Split(Join(parts, sep), sep) == parts
  {
    if |parts| > 1 {
      var s := Join(parts, sep);
      var p, t := parts[0], Join(parts[1..], sep);
      assert s == p + [sep] + t;
      IndexOfAfter(p, sep, t);
      assert s[..|p|] == p;
      assert s[|p| + 1..] == t;
      SplitJoin(parts[1..], sep);
      assert parts == [p] + parts[1..];
    }
  }

  /** `s.split(sep).map(x => x.trim())`. */
  function SplitTrim(s: string, sep: char): (r: seq<string>)
    ensures |r| == Count(s, sep) + 1
    ensures forall i :: 0 <= i < |r| ==> r[i] == Trim(Split(s, sep)[i])
  {
    var parts := Split(s, sep);
    seq(|parts|, i requires 0 <= i < |parts| => Trim(parts[i]))
  }

  // ----- Number.prototype.toString for integral numbers -----

  function DigitChar(d: nat): (c: char)
    requires d < 10
  {
    "0123456789"[d]
  }

  /** Decimal numeral of n, most significant digit first, without leading zeros. */
  function NatToString(n: nat): (s: string)
    ensures |s| >= 1
    ensures forall i :: 0 <= i < |s| ==> '0' <= s[i] <= '9'
    ensures s[0] == '0' ==> n == 0 && |s| == 1
  {
    if n < 10 then [DigitChar(n)] else NatToString(n / 10) + [DigitChar(n % 10)]
  }

  /** The text JavaScript gives an integral number below 1e21 in magnitude. */
  function IntToString(n: int): string {
    if n < 0 then "-" + NatToString(-n) else NatToString(n)
  }

  // ----- parseInt(string) without a radix, ECMA-262 section 19.2.5 -----

  /** Value of c as a digit of radix up to 36, or 36 when c is no such digit. */
  function DigitValue(c: char): (d: nat)
    ensures d <= 36
  {
    if '0' <= c <= '9' then c as int - '0' as int
    else if 'a' <= c <= 'z' then c as int - 'a' as int + 10
    else if 'A' <= c <= 'Z' then c as int - 'A' as int + 10
    else 36
  }

  /** Length of the longest prefix of s made of radix digits. */
  function DigitRun(s: string, radix: nat): (n: nat)
    ensures n <= |s|
    ensures forall i :: 0 <= i < n ==> DigitValue(s[i]) < radix
    ensures n < |s| ==> DigitValue(s[n]) >= radix
  {
    if s != [] && DigitValue(s[0]) < radix then 1 + DigitRun(s[1..], radix) else 0
  }

  /** Value of the numeral z in the given radix, most significant digit first. */
  function DigitsValue(z: string, radix: nat): nat {
    if z == [] then 0 else DigitsValue(z[..|z| - 1], radix) * radix + DigitValue(z[|z| - 1])
  }

  /** The digits of a numeral after its sign: a "0x"/"0X" prefix selects radix 16,
      otherwise radix 10, and the longest run of digits is read; None when there is none. */
  function ParseMagnitude(s: string): Option<nat> {
    var hex := |s| >= 2 && s[0] == '0' && (s[1] == 'x' || s[1] == 'X');
    var radix := if hex then 16 else 10;
    var z := if hex then s[2..] else s;
    var end := DigitRun(z, radix);
    if end == 0 then None else Some(DigitsValue(z[..end], radix))
  }

  /** parseInt(input): None stands for NaN; +0 and -0 both give Some(0). Leading white
      space is skipped, one sign is taken, and the magnitude is read from what follows;
      the text after the digits is ignored. */
  function ParseInt(input: string): Option<int> {
    ParseSigned(TrimStart(input))
  }

  /** parseInt after the leading white space: an optional sign, then the magnitude. */
  function ParseSigned(s: string): Option<int> {
    var negative := s != [] && s[0] == '-';
    var unsigned := if s != [] && (s[0] == '+' || s[0] == '-') then s[1..] else s;
    match ParseMagnitude(unsigned)
    case None => None
    case Some(m) =>
      var value: int := if negative then -(m as int) else m;
      Some(value)
  }

  lemma {:induction false} NatToStringValue(n: nat)
    ensures DigitsValue(NatToString(n), 10) == n
  {
    var s := NatToString(n);
    var last := DigitChar(n % 10);
    DigitValueOfDigitChar(n % 10);
    if n >= 10 {
      var prefix := NatToString(n / 10);
      assert s == prefix + [last];
      assert s[..|s| - 1] == prefix && s[|s| - 1] == last;
      NatToStringValue(n / 10);
      assert DigitsValue(s, 10) == (n / 10) * 10 + n % 10;
    } else {
      assert s == [last] && s[..0] == [];
    }
  }

  lemma DigitValueOfDigitChar(d: nat)
    requires d < 10
    ensures DigitValue(DigitChar(d)) == d
  {
  }

  /** parseInt reads back the numeral of n, and stops there when the text that follows
      does not continue the numeral: it neither starts with a decimal digit nor turns a
      leading "0" into the hexadecimal prefix. */
  lemma ParseIntOfNumeral(n: int, rest: string)
    requires rest == [] || DigitValue(rest[0]) >= 10
    requires n == 0 && rest != [] ==> rest[0] != 'x' && rest[0] != 'X'
    ensures ParseInt(IntToString(n) + rest) == Some(n)
  {
    if n < 0 {
      var m: nat := -n;
      assert IntToString(n) == "-" + NatToString(m);
      ParseIntOfNegative(m, rest);
    } else {
      assert IntToString(n) == NatToString(n);
      ParseIntOfNatural(n, rest);
    }
  }

  lemma ParseIntOfNatural(m: nat, rest: string)
    requires rest == [] || DigitValue(rest[0]) >= 10
    requires m == 0 && rest != [] ==> rest[0] != 'x' && rest[0] != 'X'
    ensures ParseInt(NatToString(m) + rest) == Some(m)
  {
    var input := NatToString(m) + rest;
    assert '0' <= input[0] <= '9';
    TrimStartUnblank(input);
    ParseMagnitudeOfNumeral(m, rest);
    ParseSignedUnsigned(input, m);
  }

  lemma ParseIntOfNegative(m: nat, rest: string)
    requires m > 0
    requires rest == [] || DigitValue(rest[0]) >= 10
    ensures ParseInt("-" + NatToString(m) + rest) == Some(-(m as int))
  {
    var input := "-" + NatToString(m) + rest;
    TrimStartUnblank(input);
    assert input[1..] == NatToString(m) + rest;
    ParseMagnitudeOfNumeral(m, rest);
    ParseSignedNegative(input, m);
  }

  lemma ParseSignedUnsigned(s: string, m: nat)
    requires s != [] && s[0] != '-' && s[0] != '+'
    requires ParseMagnitude(s) == Some(m)
    ensures ParseSigned(s) == Some(m)
  {
  }

  lemma ParseSignedNegative(s: string, m: nat)
    requires s != [] && s[0] == '-'
    requires ParseMagnitude(s[1..]) == Some(m)
    ensures ParseSigned(s) == Some(-(m as int))
  {
  }

  /** Text that does not start with white space is its own trimStart. */
  lemma TrimStartUnblank(s: string)
    requires s != [] && !IsWhiteSpace(s[0])
    ensures TrimStart(s) == s
  {
    assert LeadingBlank(s) == 0;
  }

  lemma ParseMagnitudeOfNumeral(m: nat, rest: string)
    requires rest == [] || DigitValue(rest[0]) >= 10
    requires m == 0 && rest != [] ==> rest[0] != 'x' && rest[0] != 'X'
    ensures ParseMagnitude(NatToString(m) + rest) == Some(m)
  {
    var digits := NatToString(m);
    var s := digits + rest;
    assert !(|s| >= 2 && s[0] == '0' && (s[1] == 'x' || s[1] == 'X')) by {
      if |s| >= 2 && s[0] == '0' {
        assert s[1] == rest[0];
      }
    }
    DigitRunOfNumeral(digits, rest);
    assert s[..|digits|] == digits;
    NatToStringValue(m);
  }

  lemma {:induction false} DigitRunOfNumeral(digits: string, rest: string)
    requires forall i :: 0 <= i < |digits| ==> '0' <= digits[i] <= '9'
    requires rest == [] || DigitValue(rest[0]) >= 10
    ensures DigitRun(digits + rest, 10) == |digits|
  {
    if digits != [] {
      assert (digits + rest)[1..] == digits[1..] + rest;
      DigitRunOfNumeral(digits[1..], rest);
    }
  }

  /** A decimal numeral reads back as the integer it was made from. */
  lemma ParseIntRoundTrip(n: int)
    ensures ParseInt(IntToString(n)) == Some(n)
  {
    ParseIntOfNumeral(n, []);
    assert IntToString(n) + [] == IntToString(n);
  }
}
