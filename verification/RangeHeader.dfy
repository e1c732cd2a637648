/** The `Range: bytes=0-N` header with which the server reports what it holds. */
module RangeHeader {
  import opened Prelude

  function Digit(d: nat): char
    requires d < 10
  {
    '0' + d as char
  }

  predicate IsDigit(c: char) { '0' <= c <= '9' }

  function DigitValue(c: char): nat
    requires IsDigit(c)
  {
    c as int - '0' as int
  }

  /** Decimal text of a number. */
  function Decimal(n: nat): (s: string)
    ensures s != [] && forall i :: 0 <= i < |s| ==> IsDigit(s[i])
  {
    if n < 10 then [Digit(n)] else Decimal(n / 10) + [Digit(n % 10)]
  }

  function Value(s: string): nat
    requires forall i :: 0 <= i < |s| ==> IsDigit(s[i])
  {
    if s == [] then 0 else 10 * Value(s[..|s| - 1]) + DigitValue(s[|s| - 1])
  }

  /** Unsigned 64-bit parse: an optional plus sign, digits only, no overflow. */
  function ParseU64(s: string): Option<nat> {
    var digits := if s != [] && s[0] == '+' then s[1..] else s;
    if digits == [] || exists i :: 0 <= i < |digits| && !IsDigit(digits[i]) then None
    else if Value(digits) >= TWO_64 then None
    else Some(Value(digits))
  }

  lemma {:induction false} ValueOfDecimal(n: nat)
    ensures Value(Decimal(n)) == n
  {
    if n >= 10 {
      ValueOfDecimal(n / 10);
      var s := Decimal(n);
      assert s[..|s| - 1] == Decimal(n / 10);
    }
  }

  /** Text up to the first `c`, and the text after it if there is one. */
  function Cut(s: string, c: char): (r: (string, Option<string>))
    ensures c !in s ==> r == (s, None)
  {
    if s == [] then ([], None)
    else if s[0] == c then ([], Some(s[1..]))
    else
      var (before, after) := Cut(s[1..], c);
      assert s == [s[0]] + s[1..];
      ([s[0]] + before, after)
  }

  /** From inclusive end to count, in 64 bits. */
  function Successor(end: nat): nat { (end + 1) % TWO_64 }

  const PREFIX: string := "bytes="

  /** Number of bytes received according to the header, if it can be read:
      the second field between dashes, plus one. */
  function ParseRangeHeader(header: Option<string>): Option<nat> {
    if header.None? || !(PREFIX <= header.value) then None
    else match Cut(header.value[|PREFIX|..], '-').1
         case None => None
         case Some(rest) =>
           match ParseU64(Cut(rest, '-').0)
           case None => None
           case Some(end) => Some(Successor(end))
  }

  /** What a server that holds `n > 0` bytes writes. */
  function FormatRange(n: nat): string
    requires n > 0
  {
    PREFIX + "0-" + Decimal(n - 1)
  }

  lemma {:induction false} CutAtFirst(a: string, c: char, b: string)
    requires c !in a
    ensures Cut(a + [c] + b, c) == (a, Some(b))
  {
    if a == [] {
      assert ([c] + b)[1..] == b;
    } else {
      assert (a + [c] + b)[1..] == a[1..] + [c] + b;
      CutAtFirst(a[1..], c, b);
      assert [a[0]] + a[1..] == a;
    }
  }

  lemma {:induction false} ParseDecimal(n: nat)
    ensures ParseU64(Decimal(n)) == if n < TWO_64 then Some(n) else None
  {
    ValueOfDecimal(n);
    assert IsDigit(Decimal(n)[0]);
  }

  /** The number that the client picks out of the header. */
  lemma {:induction false} EndOfRange(n: nat)
    requires n > 0
    ensures ParseRangeHeader(Some(FormatRange(n)))
         == match ParseU64(Decimal(n - 1)) case None => None case Some(end) => Some(Successor(end))
  {
    var d := Decimal(n - 1);
    assert '-' !in d;
    assert FormatRange(n)[|PREFIX|..] == ['0'] + ['-'] + d;
    CutAtFirst(['0'], '-', d);
  }

  lemma SuccessorIff(end: nat)
    requires end < TWO_64
    ensures Successor(end) == end + 1 <==> end + 1 < TWO_64
  {
  }

  /** The client reads what the server holds if and only if that number fits in 64 bits. */
  lemma {:induction false} RangeRoundTrip(n: nat)
    requires n > 0
    ensures var r := ParseRangeHeader(Some(FormatRange(n)));
      r == (if n <= TWO_64 then Some(Successor(n - 1)) else None) && (r == Some(n) <==> n < TWO_64)
  {
    EndOfRange(n);
    ParseDecimal(n - 1);
    if n <= TWO_64 {
      SuccessorIff(n - 1);
    }
  }
}
