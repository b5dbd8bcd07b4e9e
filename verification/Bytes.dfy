/** Big-endian integers and line ends in a plain byte sequence. */
module Bytes {
  import opened Common

  const CR: Byte := 13
  const LF: Byte := 10

  // ---------- integers in network byte order ----------

  function Pow256(n: nat): (p: int)
    ensures p > 0
  {
    if n == 0 then 1 else 256 * Pow256(n - 1)
  }

  /** The low n bytes of x, most significant first. */
  function EncodeNat(x: nat, n: nat): seq<Byte> {
    if n == 0 then [] else EncodeNat(x / 256, n - 1) + [(x % 256) as Byte]
  }

  function DecodeNat(s: seq<Byte>): nat {
    if s == [] then 0 else 256 * DecodeNat(s[..|s| - 1]) + s[|s| - 1] as nat
  }

  lemma {:induction false} EncodeLength(x: nat, n: nat)
    ensures |EncodeNat(x, n)| == n
  {
    if n > 0 {
      EncodeLength(x / 256, n - 1);
    }
  }

  lemma {:induction false} DecodeEncode(x: nat, n: nat)
    requires x < Pow256(n)
    ensures |EncodeNat(x, n)| == n && DecodeNat(EncodeNat(x, n)) == x
    decreases n
  {
    if n > 0 {
      var head := EncodeNat(x / 256, n - 1);
      DecodeEncode(x / 256, n - 1);
      var s := EncodeNat(x, n);
      assert s[..|s| - 1] == head;
    }
  }

  lemma {:induction false} EncodeDecode(s: seq<Byte>)
    ensures DecodeNat(s) < Pow256(|s|) && EncodeNat(DecodeNat(s), |s|) == s
    decreases |s|
  {
    if s != [] {
      var n := |s| - 1;
      EncodeDecode(s[..n]);
      assert s == s[..n] + [s[n]];
    }
  }

  /** Two's complement over n bytes. */
  function ToUnsigned(x: int, n: nat): int {
    if x < 0 then x + Pow256(n) else x
  }

  function ToSigned(u: int, n: nat): int {
    if 2 * u < Pow256(n) then u else u - Pow256(n)
  }

  predicate FitsSigned(x: int, n: nat) {
    -Pow256(n) <= 2 * x < Pow256(n)
  }

  function EncodeInt(x: int, n: nat): seq<Byte>
    requires FitsSigned(x, n)
  {
    EncodeNat(ToUnsigned(x, n), n)
  }

  function DecodeInt(s: seq<Byte>): int {
    ToSigned(DecodeNat(s), |s|)
  }

  /** Every value of the width reads back. */
  lemma IntRoundTrip(x: int, n: nat)
    requires n > 0 && FitsSigned(x, n)
    ensures |EncodeInt(x, n)| == n && DecodeInt(EncodeInt(x, n)) == x
  {
    DecodeEncode(ToUnsigned(x, n), n);
    PowEven(n);
  }

  /** And every byte pattern is the encoding of the value it reads as. */
  lemma IntPatterns(s: seq<Byte>)
    requires s != []
    ensures FitsSigned(DecodeInt(s), |s|) && EncodeInt(DecodeInt(s), |s|) == s
  {
    EncodeDecode(s);
    PowEven(|s|);
  }

  /** The first byte is the most significant. */
  lemma {:induction false} MostSignificantFirst(b: Byte, s: seq<Byte>)
    ensures DecodeNat([b] + s) == b as int * Pow256(|s|) + DecodeNat(s)
    decreases |s|
  {
    if s == [] {
      assert [b] + s == [b] && [b][..0] == [];
    } else {
      var n := |s| - 1;
      MostSignificantFirst(b, s[..n]);
      assert ([b] + s)[..n + 1] == [b] + s[..n];
      calc {
        DecodeNat([b] + s);
        256 * DecodeNat([b] + s[..n]) + s[n] as int;
        256 * (b as int * Pow256(n) + DecodeNat(s[..n])) + s[n] as int;
        { Regroup(b as int, Pow256(n)); }
        b as int * Pow256(n + 1) + DecodeNat(s);
      }
    }
  }

  lemma Regroup(b: int, p: int)
    ensures 256 * (b * p) == b * (256 * p)
  {
  }

  /** And its top bit is the sign. */
  lemma SignBit(b: Byte, s: seq<Byte>)
    ensures DecodeInt([b] + s) == DecodeNat([b] + s) - if b >= 128 then Pow256(|s| + 1) else 0
  {
    MostSignificantFirst(b, s);
    EncodeDecode(s);
    assert Pow256(|s| + 1) == 256 * Pow256(|s|);
    hide DecodeNat, EncodeNat, Pow256;
    TopBit(b as int, Pow256(|s|), DecodeNat(s));
  }

  lemma TopBit(b: int, p: int, r: int)
    requires 0 <= b < 256 && 0 <= r < p
    ensures 2 * (b * p + r) < 256 * p <==> b < 128
  {
    if b < 128 {
      Product(127 - b, p);
      assert (127 - b) * p == 127 * p - b * p;
    } else {
      Product(b - 128, p);
      assert (b - 128) * p == b * p - 128 * p;
    }
  }

  lemma Product(x: int, y: int)
    requires x >= 0 && y >= 0
    ensures x * y >= 0
  {
  }

  lemma PowEven(n: nat)
    requires n > 0
    ensures Pow256(n) % 2 == 0
  {
    assert Pow256(n) == 2 * (128 * Pow256(n - 1));
  }

  lemma Pow4()
    ensures Pow256(4) == 0x1_0000_0000
  {
    assert Pow256(1) == 256;
    assert Pow256(2) == 256 * 256;
    assert Pow256(3) == 256 * 256 * 256;
  }

  // ---------- line ends ----------

  predicate CrlfAt(s: seq<Byte>, i: nat) {
    i + 1 < |s| && s[i] == CR && s[i + 1] == LF
  }

  /** `std::search` for CR LF: the position of the first one. */
  function FindCrlf(s: seq<Byte>): Option<nat> {
    if |s| < 2 then None
    else if CrlfAt(s, 0) then Some(0)
    else match FindCrlf(s[1..])
      case None => None
      case Some(k) => Some(k + 1)
  }

  lemma {:induction false} FindCrlfFirst(s: seq<Byte>)
    ensures FindCrlf(s).None? <==> forall i: nat :: !CrlfAt(s, i)
    ensures FindCrlf(s).Some? ==> CrlfAt(s, FindCrlf(s).value) && forall i: nat | i < FindCrlf(s).value :: !CrlfAt(s, i)
    decreases |s|
  {
    if |s| >= 2 && !CrlfAt(s, 0) {
      var t := s[1..];
      FindCrlfFirst(t);
      assert forall i: nat :: CrlfAt(s, i + 1) <==> CrlfAt(t, i);
      forall i: nat ensures CrlfAt(s, i) ==> i > 0 && CrlfAt(t, i - 1) {
      }
    }
  }

  /** Bytes arriving later do not move a line end already found. */
  lemma FindCrlfStable(s: seq<Byte>, more: seq<Byte>)
    requires FindCrlf(s).Some?
    ensures FindCrlf(s + more) == FindCrlf(s)
  {
    var t := s + more;
    FindCrlfFirst(s);
    FindCrlfFirst(t);
    var k := FindCrlf(s).value;
    assert CrlfAt(t, k);
    forall i: nat | i < k ensures !CrlfAt(t, i) {
      assert !CrlfAt(s, i);
    }
  }

  /** A line without CR LF inside ends where it ends. */
  lemma FindCrlfAfter(line: seq<Byte>, more: seq<Byte>)
    requires FindCrlf(line).None?
    ensures FindCrlf(line + [CR, LF] + more) == Some(|line|)
  {
    var t := line + [CR, LF] + more;
    FindCrlfFirst(line);
    FindCrlfFirst(t);
    assert CrlfAt(t, |line|);
    forall i: nat | i < |line| ensures !CrlfAt(t, i) {
      assert !CrlfAt(line, i);
    }
  }

  /** A stream received in chunks. */
  function Concat(chunks: seq<seq<Byte>>): seq<Byte> {
    if chunks == [] then [] else chunks[0] + Concat(chunks[1..])
  }
}
