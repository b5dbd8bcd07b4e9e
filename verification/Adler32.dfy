/** The Adler-32 checksum (section 2.2 of RFC 1950) and what it is sure to notice. */
module Adler32 {
  import opened Common
  import opened Bytes

  const BASE := 65521

  /** The two running sums, starting from 1 and 0. */
  function Sums(s: seq<Byte>): (r: (int, int))
    ensures 0 <= r.0 < BASE && 0 <= r.1 < BASE
  {
    if s == [] then (1, 0) else
    var (a, b) := Sums(s[..|s| - 1]);
    var a' := (a + s[|s| - 1] as int) % BASE;
    (a', (b + a') % BASE)
  }

  /** `checksum`: adler32 from 1, as a 32-bit signed integer. */
  function Checksum(s: seq<Byte>): int {
    var (a, b) := Sums(s);
    ToSigned(b * 65536 + a, 4)
  }

  lemma ChecksumFits(s: seq<Byte>)
    ensures FitsSigned(Checksum(s), 4)
  {
    Pow4();
  }

  function ByteSum(s: seq<Byte>): int {
    if s == [] then 0 else ByteSum(s[..|s| - 1]) + s[|s| - 1] as int
  }

  lemma {:induction false} FirstSum(s: seq<Byte>)
    ensures Sums(s).0 == (1 + ByteSum(s)) % BASE
    decreases |s|
  {
    if s != [] {
      FirstSum(s[..|s| - 1]);
      var n, x := 1 + ByteSum(s[..|s| - 1]), s[|s| - 1] as int;
      ModAdd(n, x);
    }
  }

  lemma ModAdd(n: int, x: int)
    ensures (n % 65521 + x) % 65521 == (n + x) % 65521
  {
    var q, r := n / 65521, n % 65521;
    assert n + x == (r + x) + 65521 * q;
    ModMultiple(r + x, q);
  }

  lemma ModMultiple(a: int, q: int)
    ensures (a + 65521 * q) % 65521 == a % 65521
  {
    var p := a / 65521;
    assert a + 65521 * q == 65521 * (p + q) + a % 65521;
  }

  /** Each byte as often as there are bytes from it to the end. */
  function Weighted(s: seq<Byte>): int {
    if s == [] then 0 else |s| * s[0] as int + Weighted(s[1..])
  }

  lemma {:induction false} ByteSumHead(s: seq<Byte>)
    requires s != []
    ensures ByteSum(s) == s[0] as int + ByteSum(s[1..])
    decreases |s|
  {
    var n := |s| - 1;
    if n > 0 {
      ByteSumHead(s[..n]);
      assert s[..n][1..] == s[1..][..n - 1];
    } else {
      assert s[..0] == [] && s[1..] == [];
    }
  }

  lemma {:induction false} WeightedSnoc(s: seq<Byte>, x: Byte)
    ensures Weighted(s + [x]) == Weighted(s) + ByteSum(s) + x as int
    decreases |s|
  {
    if s == [] {
      assert s + [x] == [x] && [x][1..] == [];
    } else {
      assert (s + [x])[1..] == s[1..] + [x];
      WeightedSnoc(s[1..], x);
      ByteSumHead(s);
    }
  }

  /** The second sum in closed form: the length and the weighted bytes. */
  lemma {:induction false} SecondSum(s: seq<Byte>)
    ensures Sums(s).1 == (|s| + Weighted(s)) % BASE
    decreases |s|
  {
    if s != [] {
      var n := |s| - 1;
      var front, x := s[..n], s[n];
      assert s == front + [x];
      SecondSum(front);
      FirstSum(s);
      WeightedSnoc(front, x);
      assert ByteSum(s) == ByteSum(front) + x as int;
      ModSum(n + Weighted(front), 1 + ByteSum(s));
    }
  }

  lemma ModSum(m: int, n: int)
    ensures (m % 65521 + n % 65521) % 65521 == (m + n) % 65521
  {
    ModAdd(m, n % 65521);
    ModAdd(n, m);
  }

  /** The checksum in full (section 2.2 of RFC 1950), read as an unsigned 32-bit number. */
  lemma ChecksumValue(s: seq<Byte>)
    ensures ToUnsigned(Checksum(s), 4) == (|s| + Weighted(s)) % 65521 * 65536 + (1 + ByteSum(s)) % 65521
  {
    Pow4();
    FirstSum(s);
    SecondSum(s);
  }

  lemma {:induction false} ByteSumUpdate(s: seq<Byte>, i: nat, x: Byte)
    requires i < |s|
    ensures ByteSum(s[i := x]) == ByteSum(s) - s[i] as int + x as int
    decreases |s|
  {
    var n := |s| - 1;
    if i < n {
      assert s[i := x][..n] == s[..n][i := x];
      ByteSumUpdate(s[..n], i, x);
    } else {
      assert s[i := x][..n] == s[..n];
    }
  }

  /** Changing one byte changes the first sum, and with it the checksum. */
  lemma ChecksumNoticesByte(s: seq<Byte>, i: nat, x: Byte)
    requires i < |s| && x != s[i]
    ensures Checksum(s[i := x]) != Checksum(s)
  {
    hide Sums;
    FirstSum(s);
    FirstSum(s[i := x]);
    ByteSumUpdate(s, i, x);
    var p, d := 1 + ByteSum(s), x as int - s[i] as int;
    assert -256 < d < 256 && d != 0;
    Shifted(p, d);
    ChecksumDigits(s);
    ChecksumDigits(s[i := x]);
  }

  lemma Shifted(p: int, d: int)
    requires -BASE < d < BASE && d != 0
    ensures (p + d) % BASE != p % BASE
  {
  }

  /** The first sum is the low half of the checksum. */
  lemma ChecksumDigits(s: seq<Byte>)
    ensures Checksum(s) % 65536 == Sums(s).0
  {
    Pow4();
    var (a, b) := Sums(s);
    assert (b * 65536 + a) % 65536 == a;
    assert (b * 65536 + a - 0x1_0000_0000) % 65536 == a;
  }
}
