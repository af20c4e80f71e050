/** Small things every other module uses: bytes, options, sums and decimal numbers. */
module Basics {

  type Byte = b: int | 0 <= b < 256
  type Bytes = seq<Byte>

  const TAB: Byte := 9
  const NEWLINE: Byte := 10
  const RETURN: Byte := 13
  const BLANK: Byte := 32

  datatype Option<+T> = None | Some(value: T)

  function Min(a: int, b: int): int {
    if a <= b then a else b
  }

  function Max(a: int, b: int): int {
    if a <= b then b else a
  }

  /** The first position of `x`, or the length. */
  function IndexOf<T(==)>(s: seq<T>, x: T): (n: nat)
    ensures n <= |s| && x !in s[..n]
    ensures n < |s| ==> s[n] == x
  {
    if s == [] || s[0] == x then 0
    else
      assert s[..1 + IndexOf(s[1..], x)] == [s[0]] + s[1..][..IndexOf(s[1..], x)];
      1 + IndexOf(s[1..], x)
  }

  lemma {:induction false} IndexOfIs<T>(s: seq<T>, t: seq<T>, x: T)
    requires x !in s
    ensures IndexOf(s + [x] + t, x) == |s|
  {
    if s != [] {
      assert (s + [x] + t)[1..] == s[1..] + [x] + t;
      IndexOfIs(s[1..], t, x);
    }
  }

  /** The first line start at or after `cut` (the end when there is none). */
  function LineStart(contents: Bytes, cut: nat): (r: nat)
    requires cut <= |contents|
    ensures cut <= r <= |contents|
    ensures r == |contents| || (r > 0 && contents[r - 1] == NEWLINE)
  {
    var n := IndexOf(contents[cut..], NEWLINE);
    if n < |contents[cut..]| then cut + n + 1 else |contents|
  }

  // ----- Decimal numbers -----

  function Digit(d: nat): char
    requires d < 10
  {
    '0' + d as char
  }

  function Decimal(n: nat): (s: string)
    ensures s != []
    ensures forall i :: 0 <= i < |s| ==> '0' <= s[i] <= '9'
  {
    if n < 10 then [Digit(n)] else Decimal(n / 10) + [Digit(n % 10)]
  }

  function FromDecimal(s: string): int {
    if s == [] then 0
    else FromDecimal(s[..|s| - 1]) * 10 + (s[|s| - 1] as int - '0' as int)
  }

  lemma {:induction false} DecimalIsReadBack(n: nat)
    ensures FromDecimal(Decimal(n)) == n
  {
    if n < 10 {
      assert [Digit(n)][..0] == [];
    } else {
      DecimalIsReadBack(n / 10);
      var s := Decimal(n);
      assert s[..|s| - 1] == Decimal(n / 10);
    }
  }

  /** Different numbers are written differently. */
  lemma DecimalIsInjective(a: nat, b: nat)
    ensures Decimal(a) == Decimal(b) ==> a == b
  {
    DecimalIsReadBack(a);
    DecimalIsReadBack(b);
  }

  /** The bytes of an ASCII text. */
  function Ascii(s: string): (r: Bytes)
    requires forall i :: 0 <= i < |s| ==> s[i] < 128 as char
    ensures |r| == |s| && forall i :: 0 <= i < |s| ==> r[i] == s[i] as int
  {
    seq(|s|, i requires 0 <= i < |s| => s[i] as int)
  }
}
