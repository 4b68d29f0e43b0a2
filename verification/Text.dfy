/** String operations the source takes from its standard library, on the ASCII
    range: trimming, splitting, case folding, numerals in base 10 and 16. */
module Text {
  import opened Wrappers

  predicate IsSpace(c: char) {
    c == ' ' || '\t' <= c <= '\r'
  }

  predicate NoSpace(s: string) {
    forall i | 0 <= i < |s| :: !IsSpace(s[i])
  }

  // ----- Trimming -----

  function TrimStart(s: string): string {
    if s != [] && IsSpace(s[0]) then TrimStart(s[1..]) else s
  }

  function TrimEnd(s: string): string {
    if s != [] && IsSpace(s[|s| - 1]) then TrimEnd(s[..|s| - 1]) else s
  }

  function Trim(s: string): string {
    TrimEnd(TrimStart(s))
  }

  lemma TrimTight(s: string)
    requires s == [] || (!IsSpace(s[0]) && !IsSpace(s[|s| - 1]))
    ensures Trim(s) == s
  {
  }

  // ----- Splitting -----

  /** The pieces between occurrences of `c`; there is always at least one. */
  function Split(s: string, c: char): (r: seq<string>)
    ensures |r| >= 1
  {
    if s == [] then [[]]
    else
      var r := Split(s[1..], c);
      if s[0] == c then [[]] + r else [[s[0]] + r[0]] + r[1..]
  }

  function Join(parts: seq<string>, c: char): string
    requires |parts| >= 1
  {
    if |parts| == 1 then parts[0] else parts[0] + [c] + Join(parts[1..], c)
  }

  lemma {:induction false} SplitWhole(s: string, c: char)
    requires c !in s
    ensures Split(s, c) == [s]
  {
    if s != [] {
      SplitWhole(s[1..], c);
      assert [s[0]] + s[1..] == s;
    }
  }

  lemma SplitCons(x: char, s: string, c: char)
    ensures var r := Split(s, c);
            Split([x] + s, c) == if x == c then [[]] + r else [[x] + r[0]] + r[1..]
  {
    assert ([x] + s)[1..] == s;
  }

  lemma {:induction false} SplitAt(a: string, b: string, c: char)
    ensures Split(a + [c] + b, c) == Split(a, c) + Split(b, c)
  {
    if a == [] {
      SplitCons(c, b, c);
      assert a + [c] + b == [c] + b;
    } else {
      SplitAt(a[1..], b, c);
      SplitAtCons(a[0], a[1..], b, c);
      assert a == [a[0]] + a[1..];
    }
  }

  lemma SplitAtCons(x: char, rest: string, b: string, c: char)
    requires Split(rest + [c] + b, c) == Split(rest, c) + Split(b, c)
    ensures Split([x] + rest + [c] + b, c) == Split([x] + rest, c) + Split(b, c)
  {
    SplitCons(x, rest, c);
    SplitCons(x, rest + [c] + b, c);
    assert [x] + rest + [c] + b == [x] + (rest + [c] + b);
    ConsAppend(x, Split(rest, c), Split(b, c));
  }

  lemma ConsAppend(x: char, r: seq<string>, t: seq<string>)
    requires |r| >= 1
    ensures [[]] + (r + t) == ([[]] + r) + t
    ensures [[x] + (r + t)[0]] + (r + t)[1..] == ([[x] + r[0]] + r[1..]) + t
  {
  }

  lemma {:induction false} SplitPieces(s: string, c: char)
    ensures forall i | 0 <= i < |Split(s, c)| :: c !in Split(s, c)[i]
    ensures Join(Split(s, c), c) == s
  {
    if s != [] {
      SplitPieces(s[1..], c);
      var r := Split(s[1..], c);
      var t := Split(s, c);
      if s[0] == c {
        assert t[1..] == r;
      } else {
        if |t| > 1 { assert t[1..] == r[1..]; }
        assert [s[0]] + s[1..] == s;
      }
    }
  }

  lemma {:induction false} SplitJoin(parts: seq<string>, c: char)
    requires |parts| >= 1 && forall i | 0 <= i < |parts| :: c !in parts[i]
    ensures Split(Join(parts, c), c) == parts
  {
    SplitWhole(parts[0], c);
    if |parts| > 1 {
      SplitJoin(parts[1..], c);
      SplitAt(parts[0], Join(parts[1..], c), c);
    }
  }

  /** Maximal runs of non-space characters. */
  function Words(s: string): seq<string>
    decreases |s|
  {
    if s == [] then []
    else if IsSpace(s[0]) then Words(s[1..])
    else
      var n := WordLength(s);
      [s[..n]] + Words(s[n..])
  }

  function WordLength(s: string): (n: nat)
    ensures n <= |s| && (s != [] && !IsSpace(s[0]) ==> n > 0)
  {
    if s == [] || IsSpace(s[0]) then 0 else 1 + WordLength(s[1..])
  }

  lemma {:induction false} WordLengthOf(w: string, rest: string)
    requires NoSpace(w) && (rest == [] || IsSpace(rest[0]))
    ensures WordLength(w + rest) == |w|
  {
    if w == [] {
      assert w + rest == rest;
    } else {
      assert (w + rest)[1..] == w[1..] + rest;
      WordLengthOf(w[1..], rest);
    }
  }

  lemma WordFirst(w: string, rest: string)
    requires w != [] && NoSpace(w) && (rest == [] || IsSpace(rest[0]))
    ensures Words(w + rest) == [w] + Words(rest)
  {
    WordLengthOf(w, rest);
    assert (w + rest)[..|w|] == w && (w + rest)[|w|..] == rest;
    assert !IsSpace((w + rest)[0]);
  }

  // ----- Case folding -----

  function LowerChar(c: char): char {
    if 'A' <= c <= 'Z' then (c as int + 32) as char else c
  }

  function Lower(s: string): (r: string)
    ensures |r| == |s| && forall i | 0 <= i < |s| :: r[i] == LowerChar(s[i])
  {
    seq(|s|, i requires 0 <= i < |s| => LowerChar(s[i]))
  }

  lemma LowerLower(s: string)
    ensures Lower(Lower(s)) == Lower(s)
  {
  }

  lemma LowerConcat(a: string, b: string)
    ensures Lower(a + b) == Lower(a) + Lower(b)
  {
  }

  // ----- Numerals -----

  function DigitChar(d: nat): char
    requires d < 16
  {
    if d < 10 then ('0' as int + d) as char else ('a' as int + d - 10) as char
  }

  /** The value of one digit in either case, or none outside the base. */
  function DigitValue(c: char, base: nat): Option<nat> {
    var d := if '0' <= c <= '9' then c as int - '0' as int
             else if 'a' <= c <= 'z' then c as int - 'a' as int + 10
             else if 'A' <= c <= 'Z' then c as int - 'A' as int + 10
             else base;
    if d < base then Some(d) else None
  }

  lemma DigitIgnoresCase(c: char, base: nat)
    requires base <= 16
    ensures DigitValue(LowerChar(c), base) == DigitValue(c, base)
  {
  }

  function Numeral(n: nat, base: nat): string
    requires 2 <= base <= 16
  {
    if n < base then [DigitChar(n)] else Numeral(n / base, base) + [DigitChar(n % base)]
  }

  function ZeroPad(s: string, width: nat): string
    decreases width - |s|
  {
    if |s| < width then ZeroPad("0" + s, width) else s
  }

  predicate AllDigits(s: string, base: nat) {
    s != [] && forall i | 0 <= i < |s| :: DigitValue(s[i], base).Some?
  }

  function NumeralValue(s: string, base: nat): nat
    requires forall i | 0 <= i < |s| :: DigitValue(s[i], base).Some?
  {
    if s == [] then 0
    else NumeralValue(s[..|s| - 1], base) * base + DigitValue(s[|s| - 1], base).value
  }

  lemma {:induction false} NumeralRoundTrip(n: nat, base: nat)
    requires 2 <= base <= 16
    ensures AllDigits(Numeral(n, base), base) && NumeralValue(Numeral(n, base), base) == n
  {
    if n < base {
      DigitRoundTrip(n, base);
      assert Numeral(n, base)[..0] == [];
    } else {
      DivMod(n, base);
      NumeralRoundTrip(n / base, base);
      NumeralGrows(Numeral(n / base, base), n / base, n % base, base);
    }
  }

  lemma NumeralGrows(s: string, q: nat, d: nat, base: nat)
    requires d < base <= 16 && AllDigits(s, base) && NumeralValue(s, base) == q
    ensures AllDigits(s + [DigitChar(d)], base) && NumeralValue(s + [DigitChar(d)], base) == q * base + d
  {
    DigitRoundTrip(d, base);
    AppendDigit(s, DigitChar(d), base);
  }

  lemma DivMod(n: nat, base: nat)
    requires 2 <= base <= 16
    ensures n / base * base + n % base == n && n % base < base
    ensures n > 0 ==> n / base < n
  {
  }

  lemma DigitRoundTrip(d: nat, base: nat)
    requires d < base <= 16
    ensures DigitValue(DigitChar(d), base) == Some(d)
  {
  }

  lemma AppendDigit(s: string, c: char, base: nat)
    requires AllDigits(s, base) && DigitValue(c, base).Some?
    ensures AllDigits(s + [c], base)
    ensures NumeralValue(s + [c], base) == NumeralValue(s, base) * base + DigitValue(c, base).value
  {
    assert (s + [c])[..|s|] == s;
  }

  lemma {:induction false} PadKeepsValue(s: string, width: nat, base: nat)
    requires base >= 2 && AllDigits(s, base)
    ensures AllDigits(ZeroPad(s, width), base)
    ensures NumeralValue(ZeroPad(s, width), base) == NumeralValue(s, base)
    decreases width - |s|
  {
    if |s| < width {
      LeadingZero(s, base);
      PadKeepsValue("0" + s, width, base);
    }
  }

  lemma {:induction false} LeadingZero(s: string, base: nat)
    requires base >= 2 && forall i | 0 <= i < |s| :: DigitValue(s[i], base).Some?
    ensures forall i | 0 <= i < |s| + 1 :: DigitValue(("0" + s)[i], base).Some?
    ensures NumeralValue("0" + s, base) == NumeralValue(s, base)
  {
    if s == [] {
      assert ("0" + s)[..0] == [];
    } else {
      LeadingZero(s[..|s| - 1], base);
      assert ("0" + s)[..|s|] == "0" + s[..|s| - 1];
    }
  }

  lemma DigitsAreNotSpace(s: string, base: nat)
    requires AllDigits(s, base)
    ensures NoSpace(s) && ':' !in s && ',' !in s && '-' !in s && '+' !in s && '"' !in s
  {
  }

  /** An unsigned number below `limit`, with the optional `+` the library admits. */
  function ParseUnsigned(s: string, base: nat, limit: nat): Option<nat> {
    var digits := if s != [] && s[0] == '+' then s[1..] else s;
    if AllDigits(digits, base) && NumeralValue(digits, base) < limit
    then Some(NumeralValue(digits, base)) else None
  }

  /** A signed number in the range -limit <= n < limit. */
  function ParseSigned(s: string, limit: nat): Option<int> {
    if s != [] && s[0] == '-' then
      if AllDigits(s[1..], 10) && NumeralValue(s[1..], 10) <= limit
      then Some(-(NumeralValue(s[1..], 10) as int)) else None
    else
      match ParseUnsigned(s, 10, limit)
      case Some(n) => Some(n)
      case None => None
  }

  lemma ParsePadded(n: nat, width: nat, limit: nat)
    requires n < limit
    ensures var s := ZeroPad(Numeral(n, 10), width);
            AllDigits(s, 10) && ParseUnsigned(s, 10, limit) == Some(n) && ParseSigned(s, limit) == Some(n)
  {
    NumeralRoundTrip(n, 10);
    PadKeepsValue(Numeral(n, 10), width, 10);
    DigitsAreNotSpace(ZeroPad(Numeral(n, 10), width), 10);
    assert ZeroPad(Numeral(n, 10), width)[0] != '-';
  }
}
