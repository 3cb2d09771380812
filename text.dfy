/**
 * String helpers with the meaning the catalog and session code rely on from
 * JavaScript's `String` methods: `\s`, ASCII case mapping, `includes`, `trim`,
 * `split`/`join`, `replace(/\s+/g, '-')`, and the integer cases of `String(n)`,
 * `parseInt` and `Number`.
 */
module Text {

  /** The characters the JavaScript class `\s` matches (also what `trim` strips). */
  predicate IsSpace(c: char) {
    c == ' ' || c == '\t' || c == '\n' || c == '\r' || c == '\U{000B}' || c == '\U{000C}'
    || c == '\U{00A0}' || c == '\U{1680}' || ('\U{2000}' <= c <= '\U{200A}')
    || c == '\U{2028}' || c == '\U{2029}' || c == '\U{202F}' || c == '\U{205F}'
    || c == '\U{3000}' || c == '\U{FEFF}'
  }

  predicate NoSpace(s: string) {
    forall k :: 0 <= k < |s| ==> !IsSpace(s[k])
  }

  predicate IsUpper(c: char) { 'A' <= c <= 'Z' }

  predicate IsDigit(c: char) { '0' <= c <= '9' }

  function LowerChar(c: char): (d: char)
    ensures !IsUpper(d)
    ensures !IsUpper(c) ==> d == c
  {
    if IsUpper(c) then (c as int + 32) as char else c
  }

  function UpperChar(c: char): char {
    if 'a' <= c <= 'z' then (c as int - 32) as char else c
  }

  /** `toLowerCase`, on the ASCII letters. */
  function Lower(s: string): (r: string)
    ensures |r| == |s|
    ensures forall k :: 0 <= k < |s| ==> r[k] == LowerChar(s[k])
  {
    if s == [] then [] else [LowerChar(s[0])] + Lower(s[1..])
  }

  lemma {:induction false} LowerAppend(a: string, b: string)
    ensures Lower(a + b) == Lower(a) + Lower(b)
  {
    forall k | 0 <= k < |a + b| ensures Lower(a + b)[k] == (Lower(a) + Lower(b))[k] {
      if k < |a| {
        assert (a + b)[k] == a[k];
      } else {
        assert (a + b)[k] == b[k - |a|];
      }
    }
  }

  /** `t` occurs in `s` starting at position `i`. */
  predicate OccursAt(s: string, t: string, i: int) {
    0 <= i && i + |t| <= |s| && s[i..i + |t|] == t
  }

  /** `s.includes(t)`: `t` occurs in `s` as a contiguous block. */
  predicate Contains(s: string, t: string)
    decreases |s|
  {
    |t| <= |s| && (s[..|t|] == t || Contains(s[1..], t))
  }

  lemma {:induction false} ContainsAt(s: string, t: string, i: int)
    requires OccursAt(s, t, i)
    ensures Contains(s, t)
    decreases i
  {
    if i > 0 {
      assert s[1..][i - 1..i - 1 + |t|] == s[i..i + |t|];
      ContainsAt(s[1..], t, i - 1);
    } else {
      assert s[..|t|] == s[0..0 + |t|];
    }
  }

  lemma {:induction false} ContainsHasIndex(s: string, t: string) returns (i: int)
    requires Contains(s, t)
    ensures OccursAt(s, t, i)
    decreases |s|
  {
    if s[..|t|] == t {
      i := 0;
      assert s[0..0 + |t|] == s[..|t|];
    } else {
      var j := ContainsHasIndex(s[1..], t);
      i := j + 1;
      assert s[i..i + |t|] == s[1..][j..j + |t|];
    }
  }

  /** A block of either part is a block of the concatenation. */
  lemma ContainsInConcat(a: string, b: string, t: string)
    ensures Contains(a, t) ==> Contains(a + b, t)
    ensures Contains(b, t) ==> Contains(a + b, t)
  {
    if Contains(a, t) {
      var i := ContainsHasIndex(a, t);
      assert (a + b)[i..i + |t|] == a[i..i + |t|];
      ContainsAt(a + b, t, i);
    }
    if Contains(b, t) {
      var i := ContainsHasIndex(b, t);
      assert (a + b)[|a| + i..|a| + i + |t|] == b[i..i + |t|];
      ContainsAt(a + b, t, |a| + i);
    }
  }

  lemma ContainsItself(s: string)
    ensures Contains(s, s)
  {
    assert s[..|s|] == s;
  }

  /** Every part occurs in the joined string. */
  lemma {:induction false} JoinContainsParts(parts: seq<string>, sep: string)
    ensures forall i :: 0 <= i < |parts| ==> Contains(Join(parts, sep), parts[i])
  {
    if |parts| == 1 {
      ContainsItself(parts[0]);
    } else if |parts| > 1 {
      JoinContainsParts(parts[1..], sep);
      var rest := Join(parts[1..], sep);
      forall i | 0 <= i < |parts| ensures Contains(Join(parts, sep), parts[i]) {
        if i == 0 {
          ContainsItself(parts[0]);
          ContainsInConcat(parts[0], sep, parts[0]);
          ContainsInConcat(parts[0] + sep, rest, parts[0]);
        } else {
          assert parts[i] == parts[1..][i - 1];
          ContainsInConcat(parts[0] + sep, rest, parts[i]);
        }
      }
    }
  }

  /** `includes` holds exactly when some position of `s` starts a copy of `t`. */
  lemma ContainsIff(s: string, t: string)
    ensures Contains(s, t) <==> exists i :: OccursAt(s, t, i)
  {
    if Contains(s, t) {
      var i := ContainsHasIndex(s, t);
    }
    if exists i :: OccursAt(s, t, i) {
      var i :| OccursAt(s, t, i);
      ContainsAt(s, t, i);
    }
  }

  /** Drops a run of leading whitespace. */
  function DropSpaces(s: string): (r: string)
    ensures |r| <= |s| && r == s[|s| - |r|..]
    ensures r == [] || !IsSpace(r[0])
  {
    if s != [] && IsSpace(s[0]) then DropSpaces(s[1..]) else s
  }

  /** Drops a run of trailing whitespace. */
  function DropTrailingSpaces(s: string): (r: string)
    ensures |r| <= |s| && r == s[..|r|]
    ensures r == [] || !IsSpace(r[|r| - 1])
  {
    if s != [] && IsSpace(s[|s| - 1]) then DropTrailingSpaces(s[..|s| - 1]) else s
  }

  /** `trim()`. */
  function Trim(s: string): string {
    DropTrailingSpaces(DropSpaces(s))
  }

  lemma NoSpaceSlice(s: string, lo: int, hi: int)
    requires NoSpace(s) && 0 <= lo <= hi <= |s|
    ensures NoSpace(s[lo..hi])
  {
    assert forall k :: 0 <= k < hi - lo ==> s[lo..hi][k] == s[lo + k];
  }

  lemma {:induction false} TrimNoSpace(s: string)
    requires NoSpace(s)
    ensures Trim(s) == s
  {
  }

  /** `replace(/\s+/g, '-')`: every maximal run of whitespace becomes one `-`. */
  function Hyphenate(s: string): (r: string)
    decreases |s|
  {
    if s == [] then []
    else if IsSpace(s[0]) then "-" + Hyphenate(DropSpaces(s))
    else [s[0]] + Hyphenate(s[1..])
  }

  /** The output of `replace(/\s+/g, '-')` holds no whitespace at all. */
  lemma {:induction false} HyphenateNoSpace(s: string)
    ensures NoSpace(Hyphenate(s))
    decreases |s|
  {
    if s == [] {
    } else if IsSpace(s[0]) {
      HyphenateNoSpace(DropSpaces(s));
    } else {
      HyphenateNoSpace(s[1..]);
    }
  }

  lemma {:induction false} HyphenateKeepsSpaceFree(a: string, b: string)
    requires NoSpace(a)
    ensures Hyphenate(a + b) == a + Hyphenate(b)
    decreases |a|
  {
    if a != [] {
      assert (a + b)[0] == a[0] && !IsSpace(a[0]);
      assert (a + b)[1..] == a[1..] + b;
      HyphenateKeepsSpaceFree(a[1..], b);
    } else {
      assert a + b == b;
    }
  }

  /** `s.toLowerCase().replace(/\s+/g, '-')`, as the brand filter compares it. */
  function Slug(s: string): string {
    Hyphenate(Lower(s))
  }

  /** Position of the first `c` in `s`, or -1 (`indexOf`). */
  function IndexOf(s: string, c: char): (i: int)
    ensures -1 <= i < |s|
    ensures i == -1 <==> c !in s
    ensures i >= 0 ==> s[i] == c && c !in s[..i]
  {
    if s == [] then -1
    else if s[0] == c then 0
    else var j := IndexOf(s[1..], c); if j < 0 then -1 else j + 1
  }

  /** `s.split(c)` for a one-character separator. */
  function Split(s: string, c: char): (parts: seq<string>)
    ensures |parts| >= 1
    ensures parts[0] == if c in s then s[..IndexOf(s, c)] else s
    ensures forall w :: w in parts ==> c !in w
    decreases |s|
  {
    var i := IndexOf(s, c);
    if i < 0 then [s] else [s[..i]] + Split(s[i + 1..], c)
  }

  /** Splitting at the first separator: the part before it, then the split of the rest. */
  lemma SplitAt(s: string, c: char, i: int)
    requires i == IndexOf(s, c) && 0 <= i
    ensures Split(s, c) == [s[..i]] + Split(s[i + 1..], c)
  {
    var parts := Split(s, c);
    assert parts == [s[..i]] + Split(s[i + 1..], c);
  }

  /** `parts.join(sep)`. */
  function Join(parts: seq<string>, sep: string): string {
    if |parts| == 0 then ""
    else if |parts| == 1 then parts[0]
    else parts[0] + sep + Join(parts[1..], sep)
  }

  /** Joining the pieces of a split with the separator gives back the string. */
  lemma {:induction false} SplitJoin(s: string, c: char)
    ensures Join(Split(s, c), [c]) == s
    decreases |s|
  {
    var i := IndexOf(s, c);
    if i >= 0 {
      var rest := Split(s[i + 1..], c);
      JoinCons(s[..i], rest, [c]);
      SplitJoin(s[i + 1..], c);
      assert s == s[..i] + [c] + s[i + 1..];
    }
  }

  lemma JoinCons(p: string, rest: seq<string>, sep: string)
    requires |rest| >= 1
    ensures Join([p] + rest, sep) == p + sep + Join(rest, sep)
  {
    assert ([p] + rest)[1..] == rest;
  }

  /** `w.charAt(0).toUpperCase() + w.slice(1)`. */
  function Capitalize(w: string): string {
    if w == [] then [] else [UpperChar(w[0])] + w[1..]
  }

  function DigitChar(d: nat): char
    requires d < 10
  {
    ('0' as int + d) as char
  }

  /** The decimal digits of `n`, as `String(n)` writes a non-negative integer. */
  function NatToString(n: nat): (s: string)
    ensures |s| >= 1
    ensures forall k :: 0 <= k < |s| ==> IsDigit(s[k])
  {
    if n < 10 then [DigitChar(n)] else NatToString(n / 10) + [DigitChar(n % 10)]
  }

  /** `String(i)` for an integer. */
  function IntToString(i: int): string {
    if i < 0 then "-" + NatToString(-i) else NatToString(i)
  }

  predicate AllDigits(s: string) {
    forall k :: 0 <= k < |s| ==> IsDigit(s[k])
  }

  /** The value of a string of decimal digits. */
  function DigitsValue(s: string): nat
    requires AllDigits(s)
  {
    if s == [] then 0 else 10 * DigitsValue(s[..|s| - 1]) + (s[|s| - 1] as int - '0' as int)
  }

  /** Reading back the digits `String(n)` wrote gives `n`. */
  lemma {:induction false} DigitsRoundTrip(n: nat)
    ensures DigitsValue(NatToString(n)) == n
  {
    if n >= 10 {
      DigitsRoundTrip(n / 10);
      var s := NatToString(n);
      assert s[..|s| - 1] == NatToString(n / 10);
    }
  }

  /** The longest prefix of decimal digits. */
  function DigitPrefix(s: string): (d: string)
    ensures AllDigits(d) && |d| <= |s| && d == s[..|d|]
    ensures |d| < |s| ==> !IsDigit(s[|d|])
  {
    if s != [] && IsDigit(s[0]) then [s[0]] + DigitPrefix(s[1..]) else []
  }

  lemma {:induction false} DigitPrefixOfDigits(d: string, rest: string)
    requires AllDigits(d)
    requires rest == [] || !IsDigit(rest[0])
    ensures DigitPrefix(d + rest) == d
  {
    if d != [] {
      assert (d + rest)[1..] == d[1..] + rest;
      DigitPrefixOfDigits(d[1..], rest);
    }
  }

  /**
   * A JavaScript number as far as the code here produces one from a string:
   * an integer, `NaN`, or `Infinity`.
   */
  datatype Num = Finite(v: int) | NaN | PosInf

  /** The value of the longest digit prefix of `u`, negated when `neg`; `NaN` if there is none. */
  function SignedDigits(neg: bool, u: string): Num {
    var d := DigitPrefix(u);
    if d == [] then NaN
    else var v: int := DigitsValue(d); if neg then Finite(-v) else Finite(v)
  }

  /** `parseInt(s)`: optional whitespace and sign, then the longest digit prefix. */
  function ParseInt(s: string): Num {
    var t := DropSpaces(s);
    if |t| > 0 && t[0] == '-' then SignedDigits(true, t[1..])
    else if |t| > 0 && t[0] == '+' then SignedDigits(false, t[1..])
    else SignedDigits(false, t)
  }

  /**
   * `Number(s)` on integers written in decimal: blank is 0, a run of digits is
   * its value, and every other text is `NaN` — including the decimals,
   * exponents, hexadecimal and signed forms that `Number` would read as numbers.
   */
  function ToNumber(s: string): Num {
    var t := Trim(s);
    if t == [] then Finite(0)
    else if AllDigits(t) then Finite(DigitsValue(t))
    else NaN
  }

  lemma SignedDigitsOfString(neg: bool, n: nat, rest: string)
    requires rest == [] || !IsDigit(rest[0])
    ensures SignedDigits(neg, NatToString(n) + rest) == Finite(if neg then 0 - n as int else n)
  {
    DigitPrefixOfDigits(NatToString(n), rest);
    DigitsRoundTrip(n);
  }

  lemma KeepsLeadingNonSpace(s: string)
    requires s != [] && !IsSpace(s[0])
    ensures DropSpaces(s) == s
  {
  }

  /** `parseInt` reads back what `String` wrote, whatever non-digit follows. */
  lemma ParseIntOfString(n: nat, rest: string)
    requires rest == [] || !IsDigit(rest[0])
    ensures ParseInt(NatToString(n) + rest) == Finite(n)
  {
    var t := NatToString(n) + rest;
    assert t[0] == NatToString(n)[0];
    DigitNotSpace(t[0]);
    KeepsLeadingNonSpace(t);
    SignedDigitsOfString(false, n, rest);
  }

  /** `parseInt` reads back what `String` wrote. */
  lemma ParseIntOfNatString(n: nat)
    ensures ParseInt(NatToString(n)) == Finite(n)
  {
    ParseIntOfString(n, []);
    assert NatToString(n) + [] == NatToString(n);
  }

  /** `parseInt` reads back any integer written by `String`, negative ones too, whatever non-digit follows. */
  lemma ParseIntOfIntString(i: int, rest: string)
    requires rest == [] || !IsDigit(rest[0])
    ensures ParseInt(IntToString(i) + rest) == Finite(i)
  {
    if i >= 0 {
      ParseIntOfString(i, rest);
    } else {
      var u := NatToString(-i) + rest;
      var t := IntToString(i) + rest;
      assert t == ['-'] + u;
      assert t[0] == '-' && t[1..] == u;
      KeepsLeadingNonSpace(t);
      SignedDigitsOfString(true, -i, rest);
    }
  }

  /** `parseInt` of a string that starts with no blank, sign or digit is `NaN`. */
  lemma ParseIntOfNonNumeric(s: string)
    requires s != [] && !IsSpace(s[0]) && s[0] != '-' && s[0] != '+' && !IsDigit(s[0])
    ensures ParseInt(s) == NaN
  {
    KeepsLeadingNonSpace(s);
  }

  /** `Number` reads back what `String` wrote. */
  lemma ToNumberOfString(n: nat)
    ensures ToNumber(NatToString(n)) == Finite(n)
  {
    var s := NatToString(n);
    DigitNotSpace(s[0]);
    DigitNotSpace(s[|s| - 1]);
    assert Trim(s) == s;
    DigitsRoundTrip(n);
  }

  lemma DigitNotSpace(c: char)
    requires IsDigit(c)
    ensures !IsSpace(c)
  {
  }

  /** `String` of a number (integers, `NaN`). */
  function NumToString(x: Num): string {
    match x
    case Finite(v) => IntToString(v)
    case NaN => "NaN"
    case PosInf => "Infinity"
  }
}
