/**
 Strings as the program uses them: the byte-wise order of Go's `<`, splitting and
 joining, decimal numerals and the replacements that build derived names.
 A `char` stands for one byte.
 */
module Text {

  datatype Option<+T> = None | Some(value: T) {
    function GetOr(default_: T): T { if Some? then value else default_ }
  }

  /** Go's `a < b` on strings: byte-wise lexicographic. */
  predicate Less(a: string, b: string) {
    |b| > 0 && (|a| == 0 || a[0] < b[0] || (a[0] == b[0] && Less(a[1..], b[1..])))
  }

  lemma {:induction false} LessIrreflexive(a: string)
    ensures !Less(a, a)
  {
    if a != "" { LessIrreflexive(a[1..]); }
  }

  lemma {:induction false} LessTransitive(a: string, b: string, c: string)
    requires Less(a, b) && Less(b, c)
    ensures Less(a, c)
  {
    if |a| > 0 && a[0] == b[0] && b[0] == c[0] {
      LessTransitive(a[1..], b[1..], c[1..]);
    }
  }

  lemma {:induction false} LessTotal(a: string, b: string)
    ensures Less(a, b) || a == b || Less(b, a)
  {
    if |a| > 0 && |b| > 0 && a[0] == b[0] {
      LessTotal(a[1..], b[1..]);
      assert a == [a[0]] + a[1..] && b == [b[0]] + b[1..];
    }
  }

  /** The order read off the strings: after a common beginning one ends, or has the lesser byte. */
  lemma {:induction false} LessIff(a: string, b: string)
    ensures Less(a, b) <==>
              exists k :: 0 <= k <= |a| && k < |b| && a[..k] == b[..k] && (k == |a| || a[k] < b[k])
  {
    if |a| > 0 && |b| > 0 && a[0] == b[0] {
      LessIff(a[1..], b[1..]);
      forall k | 0 < k <= |a| && k <= |b| ensures a[..k] == b[..k] <==> a[1..][..k - 1] == b[1..][..k - 1] {
        assert a[..k] == [a[0]] + a[1..][..k - 1] && b[..k] == [b[0]] + b[1..][..k - 1];
      }
      if Less(a[1..], b[1..]) {
        var k :| 0 <= k <= |a[1..]| && k < |b[1..]| && a[1..][..k] == b[1..][..k] && (k == |a[1..]| || a[1..][k] < b[1..][k]);
        assert a[..k + 1] == b[..k + 1];
      }
      if k :| 0 <= k <= |a| && k < |b| && a[..k] == b[..k] && (k == |a| || a[k] < b[k]) {
        assert k > 0 && a[1..][..k - 1] == b[1..][..k - 1];
      }
    } else if |b| > 0 {
      assert a[..0] == b[..0];
      if |a| > 0 {
        forall k | 0 < k <= |a| && k < |b| ensures a[..k] != b[..k] { assert a[..k][0] == a[0] && b[..k][0] == b[0]; }
      }
    }
  }

  /** The order in the shape that the proofs about sorted lists need. */
  lemma LessOrder()
    ensures forall a :: !Less(a, a)
    ensures forall a, b, c :: Less(a, b) && Less(b, c) ==> Less(a, c)
    ensures forall a, b :: Less(a, b) || a == b || Less(b, a)
  {
    forall a: string { LessIrreflexive(a); }
    forall a, b, c | Less(a, b) && Less(b, c) ensures Less(a, c) { LessTransitive(a, b, c); }
    forall a, b ensures Less(a, b) || a == b || Less(b, a) { LessTotal(a, b); }
  }

  // ---- replacements ----

  /** strings.Replace(s, from, to, -1) for one-byte strings. */
  function Replace(s: string, from: char, to: char): (r: string)
    ensures |r| == |s|
    ensures forall i :: 0 <= i < |s| ==> r[i] == if s[i] == from then to else s[i]
  {
    if s == "" then "" else [if s[0] == from then to else s[0]] + Replace(s[1..], from, to)
  }

  lemma ReplaceAppend(a: string, b: string, from: char, to: char)
    ensures Replace(a + b, from, to) == Replace(a, from, to) + Replace(b, from, to)
  {}

  function LowerChar(c: char): char {
    if 'A' <= c <= 'Z' then (c as int + 32) as char else c
  }

  /** strings.ToLower on ASCII. */
  function Lower(s: string): string {
    if s == "" then "" else [LowerChar(s[0])] + Lower(s[1..])
  }

  lemma {:induction false} LowerIs(s: string)
    ensures |Lower(s)| == |s|
    ensures forall k :: 0 <= k < |s| ==>
              Lower(s)[k] as int == if 'A' <= s[k] <= 'Z' then s[k] as int - 'A' as int + 'a' as int else s[k] as int
  {
    if s != "" { LowerIs(s[1..]); }
  }

  // ---- splitting and joining ----

  /** strings.Split(s, c) for a one-byte separator. */
  function Split(s: string, c: char): (parts: seq<string>)
    ensures |parts| >= 1
  {
    if s == "" then [""]
    else
      var rest := Split(s[1..], c);
      if s[0] == c then [""] + rest else [[s[0]] + rest[0]] + rest[1..]
  }

  /** strings.Join(parts, c). */
  function Join(parts: seq<string>, c: char): string {
    if |parts| == 0 then ""
    else if |parts| == 1 then parts[0]
    else parts[0] + [c] + Join(parts[1..], c)
  }

  lemma {:induction false} JoinSplit(s: string, c: char)
    ensures Join(Split(s, c), c) == s
  {
    if s != "" {
      JoinSplit(s[1..], c);
      var rest := Split(s[1..], c);
      if s[0] == c {
        assert ([""] + rest)[1..] == rest;
      } else {
        assert ([[s[0]] + rest[0]] + rest[1..])[1..] == rest[1..];
      }
    }
  }

  lemma {:induction false} SplitFirst(p: string, rest: string, c: char)
    requires c !in p
    ensures Split(p + [c] + rest, c) == [p] + Split(rest, c)
  {
    if p == "" {
      assert p + [c] + rest == [c] + rest;
      assert ([c] + rest)[1..] == rest;
    } else {
      SplitFirst(p[1..], rest, c);
      assert (p + [c] + rest)[1..] == p[1..] + [c] + rest;
      assert [p[0]] + p[1..] == p;
    }
  }

  lemma AppendParts(x: string, t: seq<string>, r: seq<string>)
    ensures [x] + (t + r) == ([x] + t) + r
    ensures t != [] ==> (t + r)[0] == t[0] && (t + r)[1..] == t[1..] + r
  {}

  lemma {:induction false} SplitConcat(p: string, rest: string, c: char)
    ensures Split(p + ([c] + rest), c) == Split(p, c) + Split(rest, c)
  {
    if p == "" {
      assert p + ([c] + rest) == [c] + rest;
      assert ([c] + rest)[1..] == rest;
    } else {
      var u, t, r := p + ([c] + rest), Split(p[1..], c), Split(rest, c);
      SplitConcat(p[1..], rest, c);
      assert u[0] == p[0] && u[1..] == p[1..] + ([c] + rest);
      AppendParts("", t, r);
      AppendParts([p[0]] + t[0], t[1..], r);
    }
  }

  lemma {:induction false} SplitNone(p: string, c: char)
    requires c !in p
    ensures Split(p, c) == [p]
  {
    if p != "" {
      SplitNone(p[1..], c);
      assert [p[0]] + p[1..] == p;
    }
  }

  lemma {:induction false} SplitJoin(parts: seq<string>, c: char)
    requires |parts| >= 1
    requires forall p :: p in parts ==> c !in p
    ensures Split(Join(parts, c), c) == parts
  {
    if |parts| == 1 {
      SplitNone(parts[0], c);
    } else {
      SplitJoin(parts[1..], c);
      SplitFirst(parts[0], Join(parts[1..], c), c);
    }
  }

  lemma {:induction false} SplitPartsClean(s: string, c: char)
    ensures forall p :: p in Split(s, c) ==> c !in p && forall x :: x in p ==> x in s
  {
    if s != "" {
      SplitPartsClean(s[1..], c);
      var rest := Split(s[1..], c);
      assert forall x :: x in s[1..] ==> x in s;
      if s[0] != c {
        forall p | p in Split(s, c) ensures c !in p && forall x :: x in p ==> x in s {
          if p in rest[1..] { assert p in rest; } else { assert rest[0] in rest; }
        }
      }
    }
  }

  // ---- numerals ----

  function Digit(d: nat): char requires d < 10 { ('0' as int + d) as char }

  /** `%v` of an unsigned integer. */
  function Dec(n: nat): (s: string)
    ensures |s| >= 1 && (|s| == 1 <==> n < 10)
    ensures forall i :: 0 <= i < |s| ==> '0' <= s[i] <= '9'
  {
    if n < 10 then [Digit(n)] else Dec(n / 10) + [Digit(n % 10)]
  }

  lemma {:induction false} DecInjective(m: nat, n: nat)
    requires Dec(m) == Dec(n)
    ensures m == n
  {
    if m >= 10 {
      var a, b := Dec(m), Dec(n);
      assert a[..|a| - 1] == Dec(m / 10) && b[..|b| - 1] == Dec(n / 10);
      assert a[|a| - 1] == Digit(m % 10) && b[|b| - 1] == Digit(n % 10);
      DecInjective(m / 10, n / 10);
    } else {
      assert Dec(m)[0] == Digit(m) && Dec(n)[0] == Digit(n);
    }
  }

  function Digits(s: string): Option<nat> {
    if s == "" then Some(0)
    else if !('0' <= s[|s| - 1] <= '9') then None
    else
      match Digits(s[..|s| - 1])
      case None => None
      case Some(n) => Some(10 * n + (s[|s| - 1] as int - '0' as int))
  }

  /** Reading a numeral back. */
  lemma {:induction false} DigitsOfDec(n: nat)
    ensures Digits(Dec(n)) == Some(n)
  {
    if n < 10 {
      assert [Digit(n)][..0] == "";
    } else {
      var d := Dec(n);
      assert d[..|d| - 1] == Dec(n / 10) && d[|d| - 1] == Digit(n % 10);
      DigitsOfDec(n / 10);
    }
  }

  lemma DecIsDecimal()
    ensures Dec(0) == "0" && Dec(80) == "80" && Dec(31000) == "31000"
  {
    assert Dec(31) == "31" && Dec(310) == "310" && Dec(3100) == "3100";
  }

  /** strconv.Atoi on a 64-bit machine; None is its error. */
  function Atoi(s: string): Option<int> {
    var signed := s != "" && (s[0] == '-' || s[0] == '+');
    var digits := if signed then s[1..] else s;
    if digits == "" then None
    else
      match Digits(digits)
      case None => None
      case Some(n) =>
        var v: int := if signed && s[0] == '-' then -(n as int) else n;
        if -0x8000_0000_0000_0000 <= v < 0x8000_0000_0000_0000 then Some(v) else None
  }

  lemma AtoiOfDigits(d: string, n: nat)
    requires d != "" && '0' <= d[0] <= '9' && Digits(d) == Some(n)
    ensures Atoi(d) == if n < 0x8000_0000_0000_0000 then Some(n as int) else None
    ensures Atoi("+" + d) == Atoi(d)
    ensures Atoi("-" + d) == if n <= 0x8000_0000_0000_0000 then Some(-(n as int)) else None
  {
    assert ("+" + d)[1..] == d && ("-" + d)[1..] == d;
  }

  /** A number as it is written. */
  function Numeral(v: int): string { if v < 0 then "-" + Dec(-v) else Dec(v) }

  /** Signed numerals are read back up to the width of a word, and are errors beyond. */
  lemma AtoiOfNumeral(v: int)
    ensures Atoi(Numeral(v)) == if -0x8000_0000_0000_0000 <= v < 0x8000_0000_0000_0000 then Some(v) else None
  {
    var n: nat := if v < 0 then -v else v;
    var d := Dec(n);
    DigitsOfDec(n);
    AtoiOfDigits(d, n);
  }

  /** Anything else is an error: no digit at all, or a byte that is none. */
  lemma {:induction false} AtoiFails(s: string)
    requires s in ["", "+", "-"] || exists k :: 0 < k < |s| && !('0' <= s[k] <= '9')
    ensures Atoi(s).None?
  {
    if s !in ["", "+", "-"] {
      var k :| 0 < k < |s| && !('0' <= s[k] <= '9');
      if s[0] == '-' || s[0] == '+' { DigitsFail(s[1..], k - 1); } else { DigitsFail(s, k); }
    }
  }

  lemma {:induction false} DigitsFail(s: string, k: nat)
    requires k < |s| && !('0' <= s[k] <= '9')
    ensures Digits(s).None?
  {
    if k < |s| - 1 { DigitsFail(s[..|s| - 1], k); }
  }

  /** A suffix without the separator determines where the last separator is. */
  lemma LastSeparator(x: string, d: string, y: string, e: string, c: char)
    requires x + [c] + d == y + [c] + e
    requires c !in d && c !in e
    ensures x == y && d == e
  {
    var s := x + [c] + d;
    assert s[|x|] == c && s[|y|] == c;
    assert forall k :: |x| < k < |s| ==> s[k] == d[k - |x| - 1] && s[k] != c;
    assert forall k :: |y| < k < |s| ==> s[k] == e[k - |y| - 1] && s[k] != c;
    assert s[..|x|] == x && s[..|y|] == y;
    assert s[|x| + 1..] == d && s[|y| + 1..] == e;
  }
}
