// Bytes, the two-valued results of the Rust sources, big-endian numbers and the XOR mask.
module Bytes {
  newtype byte = x: int | 0 <= x < 256

  datatype Option<+T> = None | Some(value: T)

  datatype Result<+T, +E> = Ok(value: T) | Err(error: E) {
    predicate IsFailure() { Err? }
    function PropagateFailure<U>(): Result<U, E>
      requires Err?
    {
      Err(error)
    }
    function Extract(): T
      requires Ok?
    {
      value
    }
  }

  const USIZE_LIMIT: int := 0x1_0000_0000_0000_0000

  function Pow2(k: nat): (p: nat)
    ensures p > 0
  {
    if k == 0 then 1 else 2 * Pow2(k - 1)
  }

  // The exclusive or of the low k bits of two numbers, bit by bit.
  function XorBits(a: nat, b: nat, k: nat): (r: nat)
    ensures r < Pow2(k)
  {
    if k == 0 then 0 else 2 * XorBits(a / 2, b / 2, k - 1) + (a + b) % 2
  }

  lemma {:induction false} BitTwice(a: nat, b: nat, high: nat)
    ensures (2 * high + (a + b) % 2) / 2 == high
    ensures ((2 * high + (a + b) % 2) + b) % 2 == a % 2
  {
    assert (a + b) % 2 == 0 || (a + b) % 2 == 1;
  }

  lemma {:induction false} XorBitsCancel(a: nat, b: nat, k: nat)
    requires a < Pow2(k)
    ensures XorBits(XorBits(a, b, k), b, k) == a
  {
    if k > 0 {
      BitTwice(a, b, XorBits(a / 2, b / 2, k - 1));
      XorBitsCancel(a / 2, b / 2, k - 1);
    }
  }

  lemma {:induction false} EightBits()
    ensures Pow2(8) == 256
  {
    assert Pow2(4) == 16;
  }

  function Xor(a: byte, b: byte): byte {
    EightBits();
    XorBits(a as nat, b as nat, 8) as byte
  }

  lemma {:induction false} XorCancels(a: byte, b: byte)
    ensures Xor(Xor(a, b), b) == a
  {
    EightBits();
    XorBitsCancel(a as nat, b as nat, 8);
  }

  // Bit k of a number, the least significant being bit 0.
  function Bit(a: nat, k: nat): nat {
    a / Pow2(k) % 2
  }

  lemma {:induction false} BitOfHalf(a: nat, k: nat)
    requires k > 0
    ensures Bit(a, k) == Bit(a / 2, k - 1)
  {
    DivideTwice(a, Pow2(k - 1));
  }

  lemma {:induction false} DivideTwice(a: nat, p: nat)
    requires p > 0
    ensures a / (2 * p) == a / 2 / p
  {
    var q := a / 2 / p;
    var r := a / 2 - q * p;
    assert 2 * q * p + 2 * r + a % 2 == a && 2 * r + a % 2 < 2 * p;
    assert a == q * (2 * p) + (2 * r + a % 2);
    Quotient(q, 2 * p, 2 * r + a % 2);
  }

  lemma {:induction false} Quotient(q: nat, p: nat, r: nat)
    requires r < p
    ensures (q * p + r) / p == q
  {
    var n := q * p + r;
    var d := n / p;
    assert n == d * p + n % p;
    assert (q - d) * p == n % p - r;
    SmallMultiple(q - d, p);
  }

  lemma {:induction false} SmallMultiple(k: int, p: int)
    requires p > 0
    ensures k >= 1 ==> k * p >= p
    ensures k <= -1 ==> k * p <= -p
  {
  }

  // Each bit of the result is set exactly where the two numbers differ.
  lemma {:induction false} XorBitsDiffer(a: nat, b: nat, n: nat, k: nat)
    requires k < n
    ensures Bit(XorBits(a, b, n), k) == if Bit(a, k) != Bit(b, k) then 1 else 0
    decreases n
  {
    BitTwice(a, b, XorBits(a / 2, b / 2, n - 1));
    if k == 0 {
      LowestBit(a);
      LowestBit(b);
      LowestBit(XorBits(a, b, n));
    } else {
      BitOfHalf(a, k);
      BitOfHalf(b, k);
      BitOfHalf(XorBits(a, b, n), k);
      XorBitsDiffer(a / 2, b / 2, n - 1, k - 1);
    }
  }

  lemma {:induction false} LowestBit(a: nat)
    ensures Bit(a, 0) == a % 2
  {
  }

  // Numbers with the same bits are the same.
  lemma {:induction false} BitsDetermine(a: nat, b: nat, n: nat)
    requires a < Pow2(n) && b < Pow2(n) && forall k: nat | k < n :: Bit(a, k) == Bit(b, k)
    ensures a == b
  {
    if n > 0 {
      forall k: nat | k < n - 1 ensures Bit(a / 2, k) == Bit(b / 2, k) {
        BitOfHalf(a, k + 1);
        BitOfHalf(b, k + 1);
      }
      BitsDetermine(a / 2, b / 2, n - 1);
      LowestBit(a);
      LowestBit(b);
    }
  }

  // The n lowest bits of x are set exactly where those of a and b differ.
  predicate IsXor(a: nat, b: nat, x: nat, n: nat) {
    forall k: nat | k < n :: Bit(x, k) == if Bit(a, k) != Bit(b, k) then 1 else 0
  }

  lemma {:induction false} XorBitsIs(a: nat, b: nat, n: nat)
    ensures IsXor(a, b, XorBits(a, b, n), n)
  {
    forall k: nat | k < n ensures Bit(XorBits(a, b, n), k) == if Bit(a, k) != Bit(b, k) then 1 else 0 {
      XorBitsDiffer(a, b, n, k);
    }
  }

  // The exclusive or is the one byte whose bits are set exactly where a and b differ.
  lemma {:induction false} XorExact(a: byte, b: byte, x: byte)
    ensures x == Xor(a, b) <==> IsXor(a as nat, b as nat, x as nat, 8)
  {
    EightBits();
    var y := Xor(a, b);
    XorBitsIs(a as nat, b as nat, 8);
    if IsXor(a as nat, b as nat, x as nat, 8) {
      BitsDetermine(x as nat, y as nat, 8);
    }
  }

  function Pow256(w: nat): (p: nat)
    ensures p > 0
  {
    if w == 0 then 1 else 256 * Pow256(w - 1)
  }

  // to_be_bytes: the w bytes of n, most significant first.
  function ToBigEndian(n: nat, w: nat): (s: seq<byte>)
    ensures |s| == w
  {
    if w == 0 then [] else ToBigEndian(n / 256, w - 1) + [(n % 256) as byte]
  }

  // from_be_bytes.
  function FromBigEndian(s: seq<byte>): (n: nat)
    ensures n < Pow256(|s|)
  {
    if s == [] then 0
    else FromBigEndian(s[..|s| - 1]) * 256 + s[|s| - 1] as int
  }

  lemma {:induction false} BigEndianDecodes(n: nat, w: nat)
    requires n < Pow256(w)
    ensures FromBigEndian(ToBigEndian(n, w)) == n
  {
    if w > 0 {
      BigEndianDecodes(n / 256, w - 1);
      assert ToBigEndian(n, w)[..w - 1] == ToBigEndian(n / 256, w - 1);
    }
  }

  lemma {:induction false} BigEndianEncodes(s: seq<byte>)
    ensures ToBigEndian(FromBigEndian(s), |s|) == s
  {
    if s != [] {
      BigEndianEncodes(s[..|s| - 1]);
      assert s == s[..|s| - 1] + [s[|s| - 1]];
    }
  }

  lemma {:induction false} BigEndianLast(n: nat, w: nat)
    requires w > 0
    ensures ToBigEndian(n, w)[w - 1] as nat == n % 256
    ensures ToBigEndian(n, w)[..w - 1] == ToBigEndian(n / 256, w - 1)
  {
  }

  // The most significant byte comes first: byte i counts multiples of 256^(w - 1 - i).
  lemma {:induction false} BigEndianPlaces(n: nat, w: nat, i: nat)
    requires i < w
    ensures ToBigEndian(n, w)[i] as nat == n / Pow256(w - 1 - i) % 256
  {
    BigEndianLast(n, w);
    if i < w - 1 {
      BigEndianPlaces(n / 256, w - 1, i);
      assert ToBigEndian(n, w)[i] == ToBigEndian(n / 256, w - 1)[i];
      DividePowers(n, Pow256(w - 2 - i));
    }
  }

  lemma {:induction false} DividePowers(n: nat, p: nat)
    requires p > 0
    ensures n / (256 * p) == n / 256 / p
  {
    var q := n / 256 / p;
    var r := n / 256 - q * p;
    var e := n % 256;
    assert 256 * r + e < 256 * p;
    assert n == q * (256 * p) + (256 * r + e);
    Quotient(q, 256 * p, 256 * r + e);
  }

  function Flatten(parts: seq<seq<byte>>): seq<byte> {
    if parts == [] then [] else parts[0] + Flatten(parts[1..])
  }

  lemma {:induction false} FlattenAppend(a: seq<seq<byte>>, b: seq<seq<byte>>)
    ensures Flatten(a + b) == Flatten(a) + Flatten(b)
  {
    if a == [] {
      assert a + b == b;
    } else {
      FlattenAppend(a[1..], b);
      assert (a + b)[1..] == a[1..] + b;
    }
  }

  lemma {:induction false} FlattenSnoc(a: seq<seq<byte>>, x: seq<byte>)
    ensures Flatten(a + [x]) == Flatten(a) + x
  {
    FlattenAppend(a, [x]);
    assert Flatten([x]) == x + Flatten([]);
  }
}
