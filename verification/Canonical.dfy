/**
 The canonical Huffman code of section 3.2.2 of RFC 1951, as that section
 defines it: codes of one length are consecutive in symbol order, and the
 first code of a length follows the last of the length before, shifted.
*/
module Canonical {
  import opened BitStrings
  import opened Wrappers

  const MAX_BITS := 15

  /** The code length of each symbol; zero is a symbol without a code. */
  type Lengths = L: seq<nat> | forall i :: 0 <= i < |L| ==> L[i] <= MAX_BITS witness []

  /** How many symbols of `L` have length `len`. */
  function CountIn(L: seq<nat>, len: nat): (c: nat)
    ensures c <= |L|
  {
    if L == [] then 0
    else CountIn(L[..|L| - 1], len) + (if L[|L| - 1] == len then 1 else 0)
  }

  /** The number of the first code of length `len`. */
  function First(L: seq<nat>, len: nat): nat {
    if len <= 1 then 0 else 2 * (First(L, len - 1) + CountIn(L, len - 1))
  }

  /** The code of symbol `s` as a number. */
  function CodeNumber(L: seq<nat>, s: nat): nat
    requires s < |L|
  {
    First(L, L[s]) + CountIn(L[..s], L[s])
  }

  /** Whether `s` has a code, and the code fits in the length it was given. */
  predicate HasCode(L: seq<nat>, s: nat) {
    s < |L| && L[s] != 0 && CodeNumber(L, s) < Pow2(L[s])
  }

  /** The codeword of `s`: packed most significant bit first (section 3.1.1). */
  function Codeword(L: seq<nat>, s: nat): (bits: seq<bool>)
    requires HasCode(L, s)
    ensures |bits| == L[s] > 0
  {
    CodeBits(CodeNumber(L, s), L[s])
  }

  /** Whether the bits begin with a code of `s`. */
  predicate Begins(L: seq<nat>, s: nat, bits: seq<bool>) {
    && s < |L| && 0 < L[s] <= |bits|
    && CodeValue(bits[..L[s]]) == CodeNumber(L, s)
  }

  lemma BeginsIsPrefix(L: seq<nat>, s: nat, bits: seq<bool>)
    ensures Begins(L, s, bits) <==> HasCode(L, s) && Codeword(L, s) <= bits
  {
    if s < |L| && 0 < L[s] <= |bits| {
      CodeBitsOfValue(bits[..L[s]]);
      if HasCode(L, s) {
        CodeValueOfBits(CodeNumber(L, s), L[s]);
        assert Codeword(L, s) <= bits ==> Codeword(L, s) == bits[..L[s]];
      }
    }
  }

  // ---- prefix-freeness ----

  lemma {:induction false} CodeValueStep(bits: seq<bool>, n: nat)
    requires n < |bits|
    ensures CodeValue(bits[..n + 1]) == 2 * CodeValue(bits[..n]) + (if bits[n] then 1 else 0)
  {
    assert bits[..n + 1][..n] == bits[..n];
  }

  /** Bits below the codes of length `a` stay below the codes of every greater length. */
  lemma {:induction false} BelowStaysBelow(L: seq<nat>, bits: seq<bool>, a: nat, b: nat)
    requires 0 < a < b <= |bits|
    requires CodeValue(bits[..a]) < First(L, a) + CountIn(L, a)
    ensures CodeValue(bits[..b]) < First(L, b)
  {
    CodeValueStep(bits, b - 1);
    if a + 1 < b {
      BelowStaysBelow(L, bits, a, b - 1);
    }
  }

  lemma {:induction false} CountMono(L: seq<nat>, i: nat, j: nat, len: nat)
    requires i <= j <= |L|
    ensures CountIn(L[..i], len) <= CountIn(L[..j], len)
    ensures i < j && L[i] == len ==> CountIn(L[..i], len) < CountIn(L[..j], len)
  {
    if i < j {
      assert L[..j][..j - 1] == L[..j - 1];
      CountMono(L, i, j - 1, len);
    }
  }

  lemma RankBelowCount(L: seq<nat>, s: nat)
    requires s < |L|
    ensures CountIn(L[..s], L[s]) < CountIn(L, L[s])
  {
    CountMono(L, s, |L|, L[s]);
    assert L[..|L|] == L;
  }

  /** Symbols of one length have different ranks. */
  lemma RanksDiffer(L: seq<nat>, s: nat, t: nat)
    requires s < t < |L| && L[s] == L[t]
    ensures CountIn(L[..s], L[s]) < CountIn(L[..t], L[t])
  {
    CountMono(L, s, t, L[s]);
  }

  /** Every rank of a length is some symbol's. */
  lemma {:induction false} RankIsTaken(L: seq<nat>, len: nat, rank: nat) returns (s: nat)
    requires rank < CountIn(L, len)
    ensures s < |L| && L[s] == len && CountIn(L[..s], len) == rank
  {
    var n := |L| - 1;
    if rank < CountIn(L[..n], len) {
      s := RankIsTaken(L[..n], len, rank);
      assert L[..n][..s] == L[..s];
    } else {
      s := n;
    }
  }

  lemma BeginsInOrder(L: seq<nat>, s: nat, t: nat, bits: seq<bool>)
    requires Begins(L, s, bits) && Begins(L, t, bits)
    ensures L[s] >= L[t]
  {
    if L[s] < L[t] {
      RankBelowCount(L, s);
      BelowStaysBelow(L, bits, L[s], L[t]);
    }
  }

  /**
   No bits begin with the codes of two symbols, whatever the lengths: a length
   set that is over-subscribed loses codes, it does not make them ambiguous.
  */
  lemma PrefixFree(L: seq<nat>, s: nat, t: nat, bits: seq<bool>)
    requires Begins(L, s, bits) && Begins(L, t, bits)
    ensures s == t
  {
    BeginsInOrder(L, s, t, bits);
    BeginsInOrder(L, t, s, bits);
    if s < t { RanksDiffer(L, s, t); }
    if t < s { RanksDiffer(L, t, s); }
  }

  /** What section 3.2.2 says a decoder reads: the symbol whose code comes next, and what follows. */
  ghost function ReadSymbol(L: seq<nat>, bits: seq<bool>): (r: Option<(nat, seq<bool>)>)
    ensures r.Some? ==> |r.value.1| < |bits|
  {
    if exists s: nat :: Begins(L, s, bits) then
      var s: nat :| Begins(L, s, bits);
      Some((s, bits[L[s]..]))
    else None
  }

  lemma ReadSymbolFinds(L: seq<nat>, s: nat, bits: seq<bool>)
    requires Begins(L, s, bits)
    ensures ReadSymbol(L, bits) == Some((s, bits[L[s]..]))
  {
    var t: nat :| Begins(L, t, bits) && ReadSymbol(L, bits) == Some((t, bits[L[t]..]));
    PrefixFree(L, s, t, bits);
  }

  /** Reading undoes writing a codeword, before any bits at all. */
  lemma ReadCodeword(L: seq<nat>, s: nat, rest: seq<bool>)
    requires HasCode(L, s)
    ensures ReadSymbol(L, Codeword(L, s) + rest) == Some((s, rest))
  {
    var bits := Codeword(L, s) + rest;
    BeginsIsPrefix(L, s, bits);
    ReadSymbolFinds(L, s, bits);
    assert bits[L[s]..] == rest;
  }

  /** What was read is what was written. */
  lemma ReadSymbolWrites(L: seq<nat>, bits: seq<bool>)
    requires ReadSymbol(L, bits).Some?
    ensures var (s, rest) := ReadSymbol(L, bits).value;
      HasCode(L, s) && bits == Codeword(L, s) + rest
  {
    var s: nat :| Begins(L, s, bits) && ReadSymbol(L, bits) == Some((s, bits[L[s]..]));
    BeginsIsPrefix(L, s, bits);
  }

  // ---- Kraft's inequality ----

  /** The sum over all codes of 2^(len - length), for the lengths up to `len`. */
  function KraftSum(L: seq<nat>, len: nat): nat {
    if len == 0 then 0 else 2 * KraftSum(L, len - 1) + CountIn(L, len)
  }

  /** Kraft's inequality: the set is not over-subscribed. */
  predicate Kraft(L: Lengths) {
    KraftSum(L, MAX_BITS) <= Pow2(MAX_BITS)
  }

  lemma {:induction false} KraftIsNextCode(L: seq<nat>, len: nat)
    requires len > 0
    ensures KraftSum(L, len) == First(L, len) + CountIn(L, len)
  {
    if len > 1 {
      KraftIsNextCode(L, len - 1);
    } else {
      assert KraftSum(L, 0) == 0;
    }
  }

  lemma {:induction false} KraftAtEveryLength(L: seq<nat>, len: nat, top: nat)
    requires len <= top && KraftSum(L, top) <= Pow2(top)
    ensures KraftSum(L, len) <= Pow2(len)
  {
    if len < top {
      KraftAtEveryLength(L, len, top - 1);
    }
  }

  /** If every code fits its length, the sums stay within bounds at every length. */
  lemma {:induction false} FittingIsKraft(L: seq<nat>, len: nat)
    requires forall s :: 0 <= s < |L| && L[s] != 0 ==> HasCode(L, s)
    ensures KraftSum(L, len) <= Pow2(len)
  {
    if len > 0 {
      FittingIsKraft(L, len - 1);
      var c := CountIn(L, len);
      if c > 0 {
        var s := RankIsTaken(L, len, c - 1);
        KraftIsNextCode(L, len);
        assert HasCode(L, s);
      }
    }
  }

  /**
   Every symbol of non-zero length can be written and read exactly when the
   lengths satisfy Kraft's inequality.
  */
  lemma EverySymbolCodedIffKraft(L: Lengths)
    ensures Kraft(L) <==> forall s :: 0 <= s < |L| && L[s] != 0 ==> HasCode(L, s)
  {
    if Kraft(L) {
      forall s | 0 <= s < |L| && L[s] != 0
        ensures HasCode(L, s)
      {
        KraftAtEveryLength(L, L[s], MAX_BITS);
        KraftIsNextCode(L, L[s]);
        RankBelowCount(L, s);
      }
    }
    if forall s :: 0 <= s < |L| && L[s] != 0 ==> HasCode(L, s) {
      FittingIsKraft(L, MAX_BITS);
    }
  }
}
