/** The C string routines that the bbgroup parser uses. */
module TextScan {
  import opened Wrappers
  import opened Numerals

  predicate IsSpace(c: char) {
    c == ' ' || '\t' <= c <= '\r'
  }

  function SkipSpaces(s: string): (r: string)
    ensures r == [] || !IsSpace(r[0])
    ensures forall c :: c in r ==> c in s
  {
    if s != [] && IsSpace(s[0]) then SkipSpaces(s[1..]) else s
  }

  /** strchr, as an index. */
  function Find(s: string, c: char): (r: Option<nat>)
    ensures r.None? <==> c !in s
    ensures r.Some? ==> r.value < |s| && s[r.value] == c && c !in s[..r.value]
  {
    if s == [] then None
    else if s[0] == c then Some(0)
    else match Find(s[1..], c)
         case None => None
         case Some(i) =>
           assert s[..i + 1] == [s[0]] + s[1..][..i];
           Some(i + 1)
  }

  lemma {:induction false} FindAfter(a: string, c: char, b: string)
    requires c !in a
    ensures Find(a + [c] + b, c) == Some(|a|)
  {
    if a != [] {
      FindAfter(a[1..], c, b);
      assert (a + [c] + b)[1..] == a[1..] + [c] + b;
    }
  }

  /** The pieces between the occurrences of c; always one more than there are of those. */
  function SplitOn(s: string, c: char): (r: seq<string>)
    ensures r != []
    decreases |s|
  {
    match Find(s, c)
    case None => [s]
    case Some(i) => [s[..i]] + SplitOn(s[i + 1..], c)
  }

  lemma SplitAfter(a: string, c: char, b: string)
    requires c !in a
    ensures SplitOn(a + [c] + b, c) == [a] + SplitOn(b, c)
  {
    FindAfter(a, c, b);
    var s := a + [c] + b;
    assert s[..|a|] == a && s[|a| + 1..] == b;
  }

  lemma {:induction false} PiecesAvoid(s: string, c: char, p: string)
    requires p in SplitOn(s, c)
    ensures c !in p && forall x :: x in p ==> x in s
    decreases |s|
  {
    match Find(s, c) {
      case None =>
      case Some(i) =>
        if p != s[..i] {
          PiecesAvoid(s[i + 1..], c, p);
        }
    }
  }

  function NonEmpty(ps: seq<string>): seq<string> {
    if ps == [] then [] else (if ps[0] == "" then [] else [ps[0]]) + NonEmpty(ps[1..])
  }

  lemma {:induction false} NonEmptyIn(ps: seq<string>, p: string)
    ensures p in NonEmpty(ps) <==> p in ps && p != ""
  {
    if ps != [] {
      NonEmptyIn(ps[1..], p);
    }
  }

  /** What repeated strtok returns: the pieces that are not empty. */
  function Tokens(s: string, c: char): seq<string> {
    NonEmpty(SplitOn(s, c))
  }

  lemma TokensAfter(a: string, c: char, b: string)
    requires c !in a
    ensures Tokens(a + [c] + b, c) == (if a == "" then [] else [a]) + Tokens(b, c)
  {
    SplitAfter(a, c, b);
    assert ([a] + SplitOn(b, c))[1..] == SplitOn(b, c);
  }

  lemma TokensAlone(a: string, c: char)
    requires c !in a
    ensures Tokens(a, c) == if a == "" then [] else [a]
  {
    assert SplitOn(a, c) == [a];
    assert NonEmpty([a][1..]) == [];
  }

  // ----- numbers --------------------------------------------------------------

  /** The value of a digit, in either case of letters. */
  function DigitOf(c: char): Option<nat> {
    if '0' <= c <= '9' then Some(c as int - '0' as int)
    else if 'A' <= c <= 'F' then Some(c as int - 'A' as int + 10)
    else if 'a' <= c <= 'f' then Some(c as int - 'a' as int + 10)
    else None
  }

  predicate IsDigit(c: char, base: nat) {
    DigitOf(c).Some? && DigitOf(c).value < base
  }

  /** How many digits s starts with. */
  function DigitRun(s: string, base: nat): (n: nat)
    ensures n <= |s| && AllDigits(s[..n], base)
    ensures n < |s| ==> !IsDigit(s[n], base)
  {
    if s == [] || !IsDigit(s[0], base) then 0 else
      var n := 1 + DigitRun(s[1..], base);
      assert s[..n] == [s[0]] + s[1..][..n - 1];
      n
  }

  predicate AllDigits(s: string, base: nat) {
    forall i :: 0 <= i < |s| ==> IsDigit(s[i], base)
  }

  function Shift(v: nat, base: nat, d: nat): nat {
    v * base + d
  }

  function Value(s: string, base: nat): nat
    requires AllDigits(s, base)
  {
    if s == [] then 0 else
      var k := |s| - 1;
      assert IsDigit(s[k], base);
      Shift(Value(s[..k], base), base, DigitOf(s[k]).value)
  }

  /** An unsigned number at the start of s, and what follows it. */
  function ScanNat(s: string, base: nat): Option<(nat, string)> {
    var n := DigitRun(s, base);
    if n == 0 then None else Some((Value(s[..n], base), s[n..]))
  }

  /** %d after white space: an optional sign and digits. */
  function ScanInt(s: string): Option<(int, string)> {
    var t := SkipSpaces(s);
    var sign := if t != [] && t[0] == '-' then -1 else 1;
    match ScanNat(if t != [] && (t[0] == '-' || t[0] == '+') then t[1..] else t, 10)
    case None => None
    case Some((v, rest)) => Some((sign * v, rest))
  }

  /** " : %a": white space, a colon, white space, hexadecimal digits. */
  function ScanAddress(s: string): Option<(nat, string)> {
    var t := SkipSpaces(s);
    if t == [] || t[0] != ':' then None else ScanNat(SkipSpaces(t[1..]), 16)
  }

  lemma {:induction false} DigitsAreDigits(n: nat, base: nat)
    requires 2 <= base <= 16
    ensures AllDigits(Digits(n, base), base) && Value(Digits(n, base), base) == n
    decreases n
  {
    hide Value, AllDigits, Shift;
    if n < base {
      OneDigit(n, base);
    } else {
      ShiftQuotient(n, base);
      DigitsAreDigits(n / base, base);
      DigitChar(n % base, base);
      ValueSnoc(Digits(n / base, base), DIGITS[n % base], base);
    }
  }

  lemma OneDigit(n: nat, base: nat)
    requires n < base <= 16
    ensures AllDigits([DIGITS[n]], base) && Value([DIGITS[n]], base) == n
  {
    DigitChar(n, base);
    ValueSnoc("", DIGITS[n], base);
    assert "" + [DIGITS[n]] == [DIGITS[n]];
  }

  lemma ShiftQuotient(n: nat, base: nat)
    requires 2 <= base <= n
    ensures n / base < n && Shift(n / base, base, n % base) == n
  {
    QuotientSmaller(n, base);
  }

  lemma ValueSnoc(s: string, c: char, base: nat)
    requires IsDigit(c, base) && AllDigits(s, base)
    ensures AllDigits(s + [c], base)
    ensures Value(s + [c], base) == Shift(Value(s, base), base, DigitOf(c).value)
  {
    assert (s + [c])[..|s|] == s;
  }

  lemma DigitChar(d: nat, base: nat)
    requires d < base <= 16
    ensures IsDigit(DIGITS[d], base) && DigitOf(DIGITS[d]).value == d
  {
    assert DIGITS[d] == if d < 10 then '0' + d as char else 'A' + (d - 10) as char;
  }

  lemma {:induction false} RunOf(a: string, b: string, base: nat)
    requires AllDigits(a, base)
    requires b == [] || !IsDigit(b[0], base)
    ensures DigitRun(a + b, base) == |a|
  {
    if a == [] {
      assert a + b == b;
    } else {
      RunOf(a[1..], b, base);
      assert (a + b)[1..] == a[1..] + b;
    }
  }

  /** A printed number is scanned back, up to the first character that is no digit. */
  lemma {:induction false} ScanPrinted(n: nat, base: nat, rest: string)
    requires 2 <= base <= 16 && (rest == [] || !IsDigit(rest[0], base))
    ensures ScanNat(Digits(n, base) + rest, base) == Some((n, rest))
  {
    DigitsAreDigits(n, base);
    var a := Digits(n, base);
    RunOf(a, rest, base);
    assert (a + rest)[..|a|] == a && (a + rest)[|a|..] == rest;
  }
}
