/**
 Numbers as strings of bits, least significant bit first except where a
 Huffman code is packed (section 3.1.1 of RFC 1951).
*/
module BitStrings {

  type byte = x: int | 0 <= x < 256

  function Pow2(n: nat): (r: nat)
    ensures r > 0
  {
    if n == 0 then 1 else 2 * Pow2(n - 1)
  }

  /** The low `n` bits of `v`, least significant first. */
  function LowBits(v: nat, n: nat): (bits: seq<bool>)
    ensures |bits| == n
  {
    if n == 0 then [] else [v % 2 == 1] + LowBits(v / 2, n - 1)
  }

  /** The number written least significant bit first. */
  function Value(bits: seq<bool>): nat {
    if bits == [] then 0 else (if bits[0] then 1 else 0) + 2 * Value(bits[1..])
  }

  /** The number written most significant bit first, as Huffman codes are. */
  function CodeValue(bits: seq<bool>): nat {
    if bits == [] then 0
    else 2 * CodeValue(bits[..|bits| - 1]) + (if bits[|bits| - 1] then 1 else 0)
  }

  /** `n` bits of `v`, most significant first. */
  function CodeBits(v: nat, n: nat): (bits: seq<bool>)
    ensures |bits| == n
  {
    if n == 0 then [] else CodeBits(v / 2, n - 1) + [v % 2 == 1]
  }

  /** A byte sequence as the bit stream a reader sees. */
  function ByteBits(bytes: seq<byte>): (bits: seq<bool>)
    ensures |bits| == 8 * |bytes|
  {
    if bytes == [] then [] else LowBits(bytes[0], 8) + ByteBits(bytes[1..])
  }

  /** Bitwise or and exclusive or of non-negative machine words. */
  function BitOr(a: nat, b: nat): nat
    decreases a + b
  {
    if a == 0 || b == 0 then a + b
    else (if a % 2 == 1 || b % 2 == 1 then 1 else 0) + 2 * BitOr(a / 2, b / 2)
  }

  function BitXor(a: nat, b: nat): nat
    decreases a + b
  {
    if a == 0 || b == 0 then a + b
    else (if a % 2 != b % 2 then 1 else 0) + 2 * BitXor(a / 2, b / 2)
  }

  /** Shifting a word above `k` occupied bits and or-ing it in adds it. */
  lemma {:induction false} OrAdds(a: nat, b: nat, k: nat)
    requires a < Pow2(k)
    ensures BitOr(a, b * Pow2(k)) == a + b * Pow2(k)
  {
    if k > 0 && a > 0 && b > 0 {
      var c := b * Pow2(k - 1);
      assert b * Pow2(k) == 2 * c;
      OrAdds(a / 2, b, k - 1);
      assert c > 0;
      assert (2 * c) / 2 == c && (2 * c) % 2 == 0;
      assert BitOr(a, 2 * c) == (if a % 2 == 1 then 1 else 0) + 2 * BitOr(a / 2, c);
    }
  }

  /** Or-ing one bit into an even number adds it. */
  lemma OrBit(a: nat, bit: nat)
    requires bit < 2 && a % 2 == 0
    ensures BitOr(a, bit) == a + bit
  {
    if a > 0 && bit > 0 {
      assert BitOr(a / 2, 0) == a / 2;
      assert BitOr(a, bit) == 1 + 2 * BitOr(a / 2, bit / 2);
    }
  }

  /** Exclusive or with `k` ones is the complement within `k` bits. */
  lemma {:induction false} XorOnes(a: nat, k: nat)
    requires a < Pow2(k)
    ensures BitXor(a, Pow2(k) - 1) == Pow2(k) - 1 - a
  {
    if k > 0 && a > 0 {
      var m := Pow2(k - 1) - 1;
      assert Pow2(k) - 1 == 2 * m + 1;
      assert (2 * m + 1) / 2 == m && (2 * m + 1) % 2 == 1;
      XorOnes(a / 2, k - 1);
      assert BitXor(a, 2 * m + 1) == (if a % 2 == 0 then 1 else 0) + 2 * BitXor(a / 2, m);
    }
  }

  lemma {:induction false} Pow2Adds(a: nat, b: nat)
    ensures Pow2(a + b) == Pow2(a) * Pow2(b)
  {
    if a > 0 {
      Pow2Adds(a - 1, b);
      assert Pow2(a + b) == 2 * (Pow2(a - 1) * Pow2(b)) == (2 * Pow2(a - 1)) * Pow2(b);
    }
  }

  lemma Pow2Values()
    ensures Pow2(1) == 2 && Pow2(2) == 4 && Pow2(3) == 8 && Pow2(4) == 16 && Pow2(5) == 32
    ensures Pow2(7) == 128 && Pow2(8) == 256 && Pow2(15) == 0x8000 && Pow2(16) == 0x10000
  {
    assert Pow2(4) == 16;
    Pow2Adds(4, 4);
    Pow2Adds(8, 7);
    Pow2Adds(8, 8);
  }

  lemma {:induction false} Pow2Mono(a: nat, b: nat)
    requires a <= b
    ensures Pow2(a) <= Pow2(b)
  {
    if a < b {
      Pow2Mono(a, b - 1);
    }
  }

  lemma {:induction false} ValueOfLowBits(v: nat, n: nat)
    requires v < Pow2(n)
    ensures Value(LowBits(v, n)) == v
  {
    if n > 0 {
      ValueOfLowBits(v / 2, n - 1);
      assert LowBits(v, n)[1..] == LowBits(v / 2, n - 1);
    }
  }

  lemma {:induction false} LowBitsOfValue(bits: seq<bool>)
    ensures Value(bits) < Pow2(|bits|)
    ensures LowBits(Value(bits), |bits|) == bits
  {
    if bits != [] {
      LowBitsOfValue(bits[1..]);
      var r := Value(bits[1..]);
      assert Value(bits) / 2 == r && (Value(bits) % 2 == 1) == bits[0];
      assert [bits[0]] + bits[1..] == bits;
    }
  }

  lemma {:induction false} CodeValueOfBits(v: nat, n: nat)
    requires v < Pow2(n)
    ensures CodeValue(CodeBits(v, n)) == v
  {
    if n > 0 {
      CodeValueOfBits(v / 2, n - 1);
      assert CodeBits(v, n)[..n - 1] == CodeBits(v / 2, n - 1);
    }
  }

  lemma {:induction false} CodeBitsOfValue(bits: seq<bool>)
    ensures CodeValue(bits) < Pow2(|bits|)
    ensures CodeBits(CodeValue(bits), |bits|) == bits
  {
    if bits != [] {
      var n := |bits| - 1;
      CodeBitsOfValue(bits[..n]);
      var r := CodeValue(bits[..n]);
      assert CodeValue(bits) / 2 == r && (CodeValue(bits) % 2 == 1) == bits[n];
      assert bits[..n] + [bits[n]] == bits;
    }
  }

  /** A word stacked above `k` bits appends its bits. */
  lemma {:induction false} LowBitsStack(a: nat, k: nat, b: nat, n: nat)
    requires a < Pow2(k)
    ensures LowBits(a + b * Pow2(k), k + n) == LowBits(a, k) + LowBits(b, n)
  {
    if k == 0 {
      assert LowBits(a, k) == [];
    } else {
      var c := b * Pow2(k - 1);
      assert b * Pow2(k) == 2 * c;
      assert (a + 2 * c) / 2 == a / 2 + c && (a + 2 * c) % 2 == a % 2;
      LowBitsStack(a / 2, k - 1, b, n);
    }
  }

  lemma SmallModulo(a: nat, m: nat)
    requires a < m
    ensures a % m == a
  {
  }

  lemma DivMod(v: nat, p: nat)
    requires p > 0
    ensures v == v / p * p + v % p
    ensures 0 <= v % p < p && 0 <= v / p
  {
  }

  /** Any word splits into its low `k` bits and the rest. */
  lemma LowBitsSplit(v: nat, k: nat, n: nat)
    requires k <= n
    ensures 0 <= v % Pow2(k) < Pow2(k) && 0 <= v / Pow2(k)
    ensures LowBits(v, n) == LowBits(v % Pow2(k), k) + LowBits(v / Pow2(k), n - k)
  {
    var p := Pow2(k);
    DivMod(v, p);
    var q, r := v / p, v % p;
    LowBitsStack(r, k, q, n - k);
    assert v == r + q * p;
  }

  lemma {:induction false} ByteBitsConcat(a: seq<byte>, b: seq<byte>)
    ensures ByteBits(a + b) == ByteBits(a) + ByteBits(b)
  {
    hide LowBits;
    if a == [] {
      assert a + b == b;
    } else {
      ByteBitsConcat(a[1..], b);
      assert (a + b)[1..] == a[1..] + b;
    }
  }

  /** The quotient of a bounded word stays bounded. */
  lemma QuotientBound(v: nat, k: nat, n: nat)
    requires k <= n && v < Pow2(n)
    ensures v / Pow2(k) < Pow2(n - k)
  {
    var p, b := Pow2(k), Pow2(n - k);
    Pow2Adds(k, n - k);
    DivMod(v, p);
    ProductOrder(v / p, b, p);
  }

  lemma ProductOrder(q: nat, b: nat, p: nat)
    requires p > 0
    ensures q >= b ==> q * p >= b * p
  {
  }
}
