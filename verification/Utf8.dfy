/** UTF-8 as section 3 of RFC 3629 defines it: what a Rust string can hold. */
module Utf8 {
  import opened Basics

  predicate Continuation(b: Byte) {
    0x80 <= b < 0xC0
  }

  /** The bytes of the character at the start, or 0 when there is no well-formed one. */
  function CharLen(s: Bytes): (n: nat)
    ensures n <= 4 && n <= |s|
    ensures forall i :: 0 < i < n ==> Continuation(s[i])
  {
    if s == [] then 0
    else if s[0] < 0x80 then 1
    else if 0xC2 <= s[0] <= 0xDF && |s| >= 2 && Continuation(s[1]) then 2
    else if 0xE0 <= s[0] <= 0xEF && |s| >= 3 && Continuation(s[1]) && Continuation(s[2])
      && (s[0] == 0xE0 ==> s[1] >= 0xA0) && (s[0] == 0xED ==> s[1] < 0xA0) then 3
    else if 0xF0 <= s[0] <= 0xF4 && |s| >= 4 && Continuation(s[1]) && Continuation(s[2]) && Continuation(s[3])
      && (s[0] == 0xF0 ==> s[1] >= 0x90) && (s[0] == 0xF4 ==> s[1] < 0x90) then 4
    else 0
  }

  predicate Valid(s: Bytes)
    decreases |s|
  {
    s == [] || (CharLen(s) > 0 && Valid(s[CharLen(s)..]))
  }

  /** `is_char_boundary`. */
  predicate Boundary(s: Bytes, i: nat) {
    i == |s| || (i < |s| && !Continuation(s[i]))
  }

  /** A valid text cut at a character boundary stays valid. */
  lemma {:induction false} CutIsValid(s: Bytes, i: nat)
    requires Valid(s) && i <= |s| && Boundary(s, i)
    ensures Valid(s[i..])
    decreases |s|
  {
    if i == |s| || i == 0 {
      assert s[i..] == [] || s[i..] == s;
    } else {
      var n := CharLen(s);
      assert i >= n;
      assert Boundary(s[n..], i - n);
      CutIsValid(s[n..], i - n);
      assert s[n..][i - n..] == s[i..];
    }
  }

  lemma CharLenOfConcat(s: Bytes, t: Bytes)
    requires CharLen(s) > 0
    ensures CharLen(s + t) == CharLen(s)
  {
  }

  lemma {:induction false} ConcatIsValid(s: Bytes, t: Bytes)
    requires Valid(s) && Valid(t)
    ensures Valid(s + t)
    decreases |s|
  {
    hide CharLen;
    if s == [] {
      assert s + t == t;
    } else {
      var n := CharLen(s);
      CharLenOfConcat(s, t);
      ConcatIsValid(s[n..], t);
      assert (s + t)[n..] == s[n..] + t;
    }
  }

  // ----- Characters -----

  /** A Unicode scalar value. */
  type Scalar = c: int | 0 <= c < 0x11_0000 && !(0xD800 <= c < 0xE000)

  function Encode(c: Scalar): (r: Bytes)
    ensures 1 <= |r| <= 4
    ensures c < 0x80 ==> r == [c]
    ensures c >= 0x80 ==> r[0] >= 0x80
  {
    if c < 0x80 then [c]
    else if c < 0x800 then [0xC0 + c / 0x40, 0x80 + c % 0x40]
    else if c < 0x1_0000 then [0xE0 + c / 0x1000, 0x80 + (c / 0x40) % 0x40, 0x80 + c % 0x40]
    else [0xF0 + c / 0x4_0000, 0x80 + (c / 0x1000) % 0x40, 0x80 + (c / 0x40) % 0x40, 0x80 + c % 0x40]
  }

  function EncodeAll(cs: seq<Scalar>): Bytes {
    if cs == [] then [] else EncodeAll(cs[..|cs| - 1]) + Encode(cs[|cs| - 1])
  }

  // ----- Reading characters back -----

  /** The character at the start of a text. */
  function FirstScalar(s: Bytes): int
    requires CharLen(s) > 0
  {
    match CharLen(s)
    case 1 => s[0]
    case 2 => (s[0] as int - 0xC0) * 0x40 + (s[1] as int - 0x80)
    case 3 => (s[0] as int - 0xE0) * 0x1000 + (s[1] as int - 0x80) * 0x40 + (s[2] as int - 0x80)
    case _ =>
      (s[0] as int - 0xF0) * 0x4_0000 + (s[1] as int - 0x80) * 0x1000 + (s[2] as int - 0x80) * 0x40 +
      (s[3] as int - 0x80)
  }

  lemma SplitSixes(c: nat)
    ensures c == 0x40 * (c / 0x40) + c % 0x40
    ensures c / 0x40 == 0x40 * (c / 0x1000) + (c / 0x40) % 0x40
    ensures c / 0x1000 == 0x40 * (c / 0x4_0000) + (c / 0x1000) % 0x40
  {
  }

  lemma JoinSixes(w: nat, x: nat, y: nat, z: nat)
    requires x < 0x40 && y < 0x40 && z < 0x40
    ensures (w * 0x4_0000 + x * 0x1000 + y * 0x40 + z) / 0x4_0000 == w
    ensures (w * 0x4_0000 + x * 0x1000 + y * 0x40 + z) / 0x1000 == w * 0x40 + x
    ensures (w * 0x4_0000 + x * 0x1000 + y * 0x40 + z) / 0x40 == w * 0x1000 + x * 0x40 + y
    ensures (w * 0x4_0000 + x * 0x1000 + y * 0x40 + z) % 0x40 == z
    ensures (w * 0x1000 + x * 0x40 + y) % 0x40 == y && (w * 0x40 + x) % 0x40 == x
  {
  }

  lemma ThreeReadBack(c: Scalar, s: Bytes)
    requires 0x800 <= c < 0x1_0000 && |s| >= 3 && s[..3] == Encode(c)
    ensures CharLen(s) == 3 && FirstScalar(s) == c
  {
    SplitSixes(c);
    assert s[0] == s[..3][0] && s[1] == s[..3][1] && s[2] == s[..3][2];
  }

  lemma FourReadBack(c: Scalar, s: Bytes)
    requires 0x1_0000 <= c && |s| >= 4 && s[..4] == Encode(c)
    ensures CharLen(s) == 4 && FirstScalar(s) == c
  {
    SplitSixes(c);
    assert s[0] == s[..4][0] && s[1] == s[..4][1] && s[2] == s[..4][2] && s[3] == s[..4][3];
  }

  lemma ShortReadBack(c: Scalar, s: Bytes)
    requires c < 0x800 && |s| >= |Encode(c)| && s[..|Encode(c)|] == Encode(c)
    ensures CharLen(s) == |Encode(c)| && FirstScalar(s) == c
  {
    SplitSixes(c);
    assert forall i :: 0 <= i < |Encode(c)| ==> s[i] == s[..|Encode(c)|][i];
  }

  /** A written character is read back, whatever follows. */
  lemma EncodeReadsBack(c: Scalar, rest: Bytes)
    ensures CharLen(Encode(c) + rest) == |Encode(c)| && FirstScalar(Encode(c) + rest) == c
  {
    hide CharLen, FirstScalar;
    var s := Encode(c) + rest;
    assert s[..|Encode(c)|] == Encode(c);
    if c < 0x800 {
      ShortReadBack(c, s);
    } else if c < 0x1_0000 {
      ThreeReadBack(c, s);
    } else {
      FourReadBack(c, s);
    }
  }

  lemma ThreeIsWritten(s: Bytes)
    requires CharLen(s) == 3
    ensures 0x800 <= FirstScalar(s) < 0x1_0000 && !(0xD800 <= FirstScalar(s) < 0xE000)
    ensures Encode(FirstScalar(s)) == [s[0], s[1], s[2]]
  {
    JoinSixes(0, s[0] as int - 0xE0, s[1] as int - 0x80, s[2] as int - 0x80);
  }

  lemma FourIsWritten(s: Bytes)
    requires CharLen(s) == 4
    ensures 0x1_0000 <= FirstScalar(s) < 0x11_0000
    ensures Encode(FirstScalar(s)) == [s[0], s[1], s[2], s[3]]
  {
    JoinSixes(s[0] as int - 0xF0, s[1] as int - 0x80, s[2] as int - 0x80, s[3] as int - 0x80);
  }

  lemma ShortIsWritten(s: Bytes)
    requires 1 <= CharLen(s) <= 2
    ensures 0 <= FirstScalar(s) < 0x800
    ensures Encode(FirstScalar(s)) == if CharLen(s) == 1 then [s[0]] else [s[0], s[1]]
  {
  }

  /** A well-formed character is one that is written that way. */
  lemma FirstIsWritten(s: Bytes)
    requires CharLen(s) > 0
    ensures 0 <= FirstScalar(s) < 0x11_0000 && !(0xD800 <= FirstScalar(s) < 0xE000)
    ensures Encode(FirstScalar(s)) == s[..CharLen(s)]
  {
    hide CharLen, FirstScalar, Encode;
    if CharLen(s) <= 2 {
      ShortIsWritten(s);
      assert CharLen(s) == 1 ==> s[..1] == [s[0]];
      assert CharLen(s) == 2 ==> s[..2] == [s[0], s[1]];
    } else if CharLen(s) == 3 {
      ThreeIsWritten(s);
      assert s[..3] == [s[0], s[1], s[2]];
    } else {
      FourIsWritten(s);
      assert s[..4] == [s[0], s[1], s[2], s[3]];
    }
  }

  lemma EncodeIsValid(c: Scalar)
    ensures Valid(Encode(c))
  {
    hide Encode, CharLen, FirstScalar;
    EncodeReadsBack(c, []);
    assert Encode(c) + [] == Encode(c);
    assert Encode(c)[|Encode(c)|..] == [];
  }

  lemma {:induction false} EncodeAllIsValid(cs: seq<Scalar>)
    ensures Valid(EncodeAll(cs))
  {
    hide Encode;
    if cs != [] {
      var n := |cs| - 1;
      EncodeAllIsValid(cs[..n]);
      EncodeIsValid(cs[n]);
      ConcatIsValid(EncodeAll(cs[..n]), Encode(cs[n]));
    }
  }

  lemma {:induction false} EncodeAllFront(c: Scalar, cs: seq<Scalar>)
    ensures EncodeAll([c] + cs) == Encode(c) + EncodeAll(cs)
  {
    hide Encode;
    if cs == [] {
      assert [c] + cs == [c] && [c][..0] == [];
      assert EncodeAll([]) == [] && [] + Encode(c) == Encode(c) && Encode(c) + [] == Encode(c);
    } else {
      var n := |cs| - 1;
      assert ([c] + cs)[..n + 1] == [c] + cs[..n];
      EncodeAllFront(c, cs[..n]);
    }
  }

  lemma {:induction false} ScalarsOf(s: Bytes) returns (cs: seq<Scalar>)
    requires Valid(s)
    ensures EncodeAll(cs) == s
    decreases |s|
  {
    hide Encode, CharLen, FirstScalar;
    if s == [] {
      cs := [];
    } else {
      var n := CharLen(s);
      FirstIsWritten(s);
      var c: Scalar := FirstScalar(s);
      var rest := ScalarsOf(s[n..]);
      EncodeAllFront(c, rest);
      cs := [c] + rest;
      assert s == s[..n] + s[n..];
    }
  }

  /** Valid text is exactly text written character by character. */
  lemma ValidIff(s: Bytes)
    ensures Valid(s) <==> exists cs :: EncodeAll(cs) == s
  {
    if Valid(s) {
      var cs := ScalarsOf(s);
    }
    if cs :| EncodeAll(cs) == s {
      EncodeAllIsValid(cs);
    }
  }
}
