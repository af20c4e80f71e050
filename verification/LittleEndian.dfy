/** Numbers in bytes, the lowest first. */
module LittleEndian {
  import opened Basics

  function Power(k: nat): nat {
    if k == 0 then 1 else 256 * Power(k - 1)
  }

  function Little(n: nat, k: nat): (r: Bytes)
    ensures |r| == k
  {
    if k == 0 then [] else [n % 256] + Little(n / 256, k - 1)
  }

  function FromLittle(b: Bytes): nat {
    if b == [] then 0 else b[0] + 256 * FromLittle(b[1..])
  }

  lemma {:induction false} LittleReadBack(n: nat, k: nat)
    requires n < Power(k)
    ensures FromLittle(Little(n, k)) == n
  {
    if k > 0 {
      LittleReadBack(n / 256, k - 1);
      assert Little(n, k)[1..] == Little(n / 256, k - 1);
    }
  }

  lemma {:induction false} LittleIsOnto(b: Bytes)
    ensures FromLittle(b) < Power(|b|) && Little(FromLittle(b), |b|) == b
  {
    if b != [] {
      LittleIsOnto(b[1..]);
    }
  }

  /** Two and four bytes, written out. */
  lemma LittleInBytes(n: nat)
    ensures Little(n, 2) == [n % 256, n / 256 % 256]
    ensures Little(n, 4) == [n % 256, n / 256 % 256, n / 65536 % 256, n / 16777216 % 256]
  {
    assert Little(n, 1) == [n % 256] + Little(n / 256, 0);
    assert Little(n / 256, 1) == [n / 256 % 256] + Little(n / 256 / 256, 0);
    assert Little(n, 2) == [n % 256] + Little(n / 256, 1);
    assert n / 256 / 256 == n / 65536 && n / 65536 / 256 == n / 16777216;
    assert Little(n / 16777216, 1) == [n / 16777216 % 256] + Little(n / 16777216 / 256, 0);
    assert Little(n / 65536, 2) == [n / 65536 % 256] + Little(n / 65536 / 256, 1);
    assert Little(n / 256, 3) == [n / 256 % 256] + Little(n / 256 / 256, 2);
    assert Little(n, 4) == [n % 256] + Little(n / 256, 3);
  }

  lemma Powers()
    ensures Power(2) == 0x1_0000 && Power(4) == 0x1_0000_0000
  {
    assert Power(1) == 256 * Power(0);
    assert Power(2) == 256 * Power(1);
    assert Power(3) == 256 * Power(2);
    assert Power(4) == 256 * Power(3);
  }

  lemma FromLittleOfOne(b: Bytes)
    requires |b| == 1
    ensures FromLittle(b) == b[0]
  {
    assert b[1..] == [] && FromLittle([]) == 0;
  }

  lemma {:induction false} FromLittleInBytes(b: Bytes)
    ensures |b| == 2 ==> FromLittle(b) == b[0] as int + 256 * b[1] as int
    ensures |b| == 4 ==> FromLittle(b) == b[0] as int + 256 * b[1] as int + 65536 * b[2] as int + 16777216 * b[3] as int
  {
    if |b| == 2 {
      FromLittleOfOne(b[1..]);
    } else if |b| == 4 {
      FromLittleOfOne(b[3..]);
      assert b[2..][1..] == b[3..] && b[1..][1..] == b[2..];
      assert FromLittle(b[2..]) == b[2] as int + 256 * FromLittle(b[3..]);
      assert FromLittle(b[1..]) == b[1] as int + 256 * FromLittle(b[2..]);
    }
  }
}
