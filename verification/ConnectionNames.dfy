/** The names TcpServer gives its connections, which are the keys of its table: numbered from 1, through a 64-byte buffer. */
module ConnectionNames {
  function Decimal(n: nat): string {
    if n < 10 then [('0' as int + n) as char] else Decimal(n / 10) + [('0' as int + n % 10) as char]
  }

  lemma {:induction false} DecimalInjective(a: nat, b: nat)
    requires Decimal(a) == Decimal(b)
    ensures a == b
  {
    var x, y := Decimal(a), Decimal(b);
    assert x[|x| - 1] == ('0' as int + a % 10) as char && y[|y| - 1] == ('0' as int + b % 10) as char;
    assert a % 10 == b % 10;
    if a < 10 || b < 10 {
      assert a >= 10 ==> |x| >= 2;
      assert b >= 10 ==> |y| >= 2;
    } else {
      assert x[..|x| - 1] == Decimal(a / 10) && y[..|y| - 1] == Decimal(b / 10);
      DecimalInjective(a / 10, b / 10);
    }
  }

  /** What snprintf leaves of a text in the buffer. */
  function Cut(s: string): string {
    if |s| <= 63 then s else s[..63]
  }

  function Suffix(ipPort: string, id: nat): string {
    "-" + ipPort + "#" + Decimal(id)
  }

  function ConnName(name: string, ipPort: string, id: nat): string {
    name + Cut(Suffix(ipPort, id))
  }

  predicate Fits(ipPort: string, id: nat) {
    |ipPort| + 2 + |Decimal(id)| <= 63
  }

  lemma CutEqual(name: string, ipPort: string, a: nat, b: nat)
    ensures ConnName(name, ipPort, a) == ConnName(name, ipPort, b) <==> Cut(Suffix(ipPort, a)) == Cut(Suffix(ipPort, b))
  {
    assert ConnName(name, ipPort, a)[|name|..] == Cut(Suffix(ipPort, a));
    assert ConnName(name, ipPort, b)[|name|..] == Cut(Suffix(ipPort, b));
  }

  lemma FittingDiffer(ipPort: string, a: nat, b: nat)
    requires a != b && Fits(ipPort, a) && Fits(ipPort, b)
    ensures Cut(Suffix(ipPort, a)) != Cut(Suffix(ipPort, b))
  {
    var p := "-" + ipPort + "#";
    assert Suffix(ipPort, a)[|p|..] == Decimal(a);
    assert Suffix(ipPort, b)[|p|..] == Decimal(b);
    if Decimal(a) == Decimal(b) {
      DecimalInjective(a, b);
    }
  }

  /** The first digits of a number are those of a smaller one. */
  lemma {:induction false} DecimalPrefix(m: nat, r: nat) returns (k: nat)
    requires m >= 1 && 1 <= r < |Decimal(m)|
    ensures 1 <= k < m && Decimal(k) == Decimal(m)[..r]
  {
    k := m / 10;
    assert Decimal(m)[..|Decimal(m)| - 1] == Decimal(k);
    if r < |Decimal(k)| {
      assert Decimal(m)[..r] == Decimal(k)[..r];
      k := DecimalPrefix(k, r);
    }
  }

  /** A name that does not fit is the name of a smaller number. */
  lemma CutClashes(ipPort: string, m: nat) returns (k: nat)
    requires m >= 2 && !Fits(ipPort, m)
    ensures 1 <= k < m && Cut(Suffix(ipPort, k)) == Cut(Suffix(ipPort, m))
  {
    var p := "-" + ipPort + "#";
    if |p| >= 63 {
      k := 1;
      assert Suffix(ipPort, k)[..63] == p[..63] == Suffix(ipPort, m)[..63];
    } else {
      k := DecimalPrefix(m, 63 - |p|);
      assert Suffix(ipPort, m)[..63] == p + Decimal(m)[..63 - |p|];
      assert Suffix(ipPort, k) == p + Decimal(k);
    }
  }

  lemma {:induction false} DigitsGrow(a: nat, b: nat)
    requires a <= b
    ensures 1 <= |Decimal(a)| <= |Decimal(b)|
    decreases b
  {
    if a >= 10 {
      DigitsGrow(a / 10, b / 10);
    }
  }

  /** The first n connections have different names exactly when every number fits the buffer behind the address. */
  lemma NamesDifferIff(name: string, ipPort: string, n: nat)
    ensures (forall a, b | 1 <= a < b <= n :: ConnName(name, ipPort, a) != ConnName(name, ipPort, b)) <==>
              (n >= 2 ==> Fits(ipPort, n))
  {
    if n >= 2 && Fits(ipPort, n) {
      forall a, b | 1 <= a < b <= n ensures ConnName(name, ipPort, a) != ConnName(name, ipPort, b) {
        DigitsGrow(a, n);
        DigitsGrow(b, n);
        FittingDiffer(ipPort, a, b);
        CutEqual(name, ipPort, a, b);
      }
    } else if n >= 2 {
      var k := CutClashes(ipPort, n);
      CutEqual(name, ipPort, k, n);
    }
  }

  /** A number of at most ten digits. */
  lemma TenDigits(id: nat)
    requires id < 10_000_000_000
    ensures |Decimal(id)| <= 10
  {
    DigitsGrow(id, 9_999_999_999);
    assert |Decimal(99_999)| == 5;
    assert |Decimal(9_999_999_999)| == 10 by {
      assert |Decimal(9_999_999_999)| == 5 + |Decimal(99_999)|;
    }
  }

  /**
    Names never repeat. An address is at most 45 characters, ":" and a port of at most five digits, and connections are
    numbered by an int, so every suffix fits the buffer.
   */
  lemma NamesNeverRepeat(name: string, ipPort: string, a: nat, b: nat)
    requires |ipPort| <= 51 && 1 <= a < 0x8000_0000 && 1 <= b < 0x8000_0000
    ensures Fits(ipPort, a) && Fits(ipPort, b)
    ensures ConnName(name, ipPort, a) == ConnName(name, ipPort, b) <==> a == b
  {
    TenDigits(a);
    TenDigits(b);
    CutEqual(name, ipPort, a, b);
    if a != b {
      FittingDiffer(ipPort, a, b);
    }
  }
}
