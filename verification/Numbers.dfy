/** Numbers of a few bytes, least significant first, as memcpy reads and writes them. */
module Numbers {
  import opened BitStrings
  import opened Guid

  const TWO_16 := 0x1_0000
  const TWO_32 := 0x1_0000_0000

  lemma Sizes()
    ensures Pow2(16) == TWO_16 && Pow2(32) == TWO_32 && Pow2(8) == 256
  {
    Pow2Values();
    Pow2Adds(16, 16);
  }

  /** The number in `n` bytes; zero if they are not all there. */
  function Number(data: seq<byte>, at: nat, n: nat): (r: nat)
    ensures r < Pow2(8 * n)
  {
    if at + n <= |data| then
      WordBound(data[at..at + n]);
      Guid.Word(data[at..at + n])
    else 0
  }

  function U32(data: seq<byte>, at: nat): (r: nat)
    ensures r < TWO_32
  {
    Sizes();
    Number(data, at, 4)
  }

  function U16(data: seq<byte>, at: nat): (r: nat)
    ensures r < TWO_16
  {
    Sizes();
    Number(data, at, 2)
  }

  /** A number in `n` bytes, what does not fit cut off. */
  function Le(v: nat, n: nat): (r: seq<byte>)
    ensures |r| == n
  {
    WordBytes(v % Pow2(8 * n), n)
  }

  /** Reading a number that was written gives it back, wherever it is. */
  lemma NumberWritten(before: seq<byte>, v: nat, n: nat, after: seq<byte>)
    ensures Number(before + Le(v, n) + after, |before|, n) == v % Pow2(8 * n)
  {
    var all := before + Le(v, n) + after;
    assert all[|before|..|before| + n] == Le(v, n);
    WordOfBytes(v % Pow2(8 * n), n);
  }

  /** A number is told by its own bytes. */
  lemma NumberIsLocal(a: seq<byte>, i: nat, b: seq<byte>, j: nat, n: nat)
    requires i + n <= |a| && j + n <= |b| && a[i..i + n] == b[j..j + n]
    ensures Number(a, i, n) == Number(b, j, n)
  {
  }

  /** Numbers of four bytes, one after the other. */
  function Words(values: seq<nat>): (r: seq<byte>)
    ensures |r| == 4 * |values|
  {
    if values == [] then [] else Words(values[..|values| - 1]) + Le(values[|values| - 1], 4)
  }

  lemma {:induction false} WordAt(values: seq<nat>, before: seq<byte>, after: seq<byte>, i: nat)
    requires i < |values| && values[i] < TWO_32
    ensures U32(before + Words(values) + after, |before| + 4 * i) == values[i]
  {
    hide Number, Le;
    var n := |values| - 1;
    var init, last := Words(values[..n]), Le(values[n], 4);
    var all := before + Words(values) + after;
    if i == n {
      assert all == before + init + last + after;
      assert |before + init| == |before| + 4 * n;
      Sizes();
      NumberWritten(before + init, values[n], 4, after);
      SmallModulo(values[n], TWO_32);
    } else {
      WordAt(values[..n], before, last + after, i);
      assert all == before + init + (last + after);
    }
  }

  // ---- numbers by their bytes ----

  /** Two bytes as a number, the lower first. */
  function Two(b: seq<byte>, at: nat): nat
    requires at + 2 <= |b|
  {
    var low: int, high: int := b[at], b[at + 1];
    low + 0x100 * high
  }

  /** Four bytes as a number, the lowest first. */
  function Four(b: seq<byte>, at: nat): nat
    requires at + 4 <= |b|
  {
    Two(b, at) + 0x1_0000 * Two(b, at + 2)
  }

  lemma TwoIs(b: seq<byte>, at: nat)
    requires at + 2 <= |b|
    ensures U16(b, at) == Two(b, at)
  {
    var s := b[at..at + 2];
    assert s == [s[0]] + [s[1]];
    WordLaw([s[0]], [s[1]], s[0]);
    WordLaw([], [], s[1]);
    Pow2Values();
  }

  lemma FourIs(b: seq<byte>, at: nat)
    requires at + 4 <= |b|
    ensures U32(b, at) == Four(b, at)
  {
    hide Guid.Word, Pow2;
    assert b[at..at + 4] == b[at..at + 2] + b[at + 2..at + 4];
    WordLaw(b[at..at + 2], b[at + 2..at + 4], 0);
    TwoIs(b, at);
    TwoIs(b, at + 2);
    Pow2Values();
  }

  /** Eight bytes as a number, the lowest first. */
  function Eight(b: seq<byte>, at: nat): nat
    requires at + 8 <= |b|
  {
    Four(b, at) + 0x1_0000_0000 * Four(b, at + 4)
  }

  lemma EightIs(b: seq<byte>, at: nat)
    requires at + 8 <= |b|
    ensures Number(b, at, 8) == Eight(b, at)
  {
    hide Guid.Word, Pow2, Four;
    assert b[at..at + 8] == b[at..at + 4] + b[at + 4..at + 8];
    WordLaw(b[at..at + 4], b[at + 4..at + 8], 0);
    FourIs(b, at);
    FourIs(b, at + 4);
    Sizes();
  }

  lemma OneIs(b: seq<byte>, at: nat)
    requires at < |b|
    ensures Number(b, at, 1) == b[at]
  {
    assert b[at..at + 1] == [b[at]];
    WordLaw([], [], b[at]);
  }

  lemma ModuloAdds(x: nat, y: nat)
    ensures (x % 0x1_0000_0000 + y) % 0x1_0000_0000 == (x + y) % 0x1_0000_0000
  {
  }

  // ---- packed fields ----

  /** A field of a packed record: a number and how many bytes it has. */
  datatype Field = Field(value: nat, width: nat)

  function Packed(fields: seq<Field>): seq<byte> {
    if fields == [] then []
    else Packed(fields[..|fields| - 1]) + Le(fields[|fields| - 1].value, fields[|fields| - 1].width)
  }

  function FieldStart(fields: seq<Field>, k: nat): (r: nat)
    requires k <= |fields|
  {
    if k == 0 then 0 else FieldStart(fields, k - 1) + fields[k - 1].width
  }

  lemma {:induction false} SameStart(fields: seq<Field>, more: seq<Field>, k: nat)
    requires k <= |fields| <= |more| && more[..|fields|] == fields
    ensures FieldStart(more, k) == FieldStart(fields, k)
  {
    if k > 0 {
      SameStart(fields, more, k - 1);
      assert more[k - 1] == more[..|fields|][k - 1];
    }
  }

  lemma {:induction false} PackedSize(fields: seq<Field>)
    ensures |Packed(fields)| == FieldStart(fields, |fields|)
  {
    if fields != [] {
      var n := |fields| - 1;
      PackedSize(fields[..n]);
      SameStart(fields[..n], fields, n);
    }
  }

  /** A packed record's field reads as it was written. */
  lemma {:induction false} FieldReads(before: seq<byte>, fields: seq<Field>, after: seq<byte>, k: nat)
    requires k < |fields| && fields[k].value < Pow2(8 * fields[k].width)
    ensures Number(before + Packed(fields) + after, |before| + FieldStart(fields, k), fields[k].width) ==
      fields[k].value
  {
    hide Number, Le;
    var n := |fields| - 1;
    var init, last := fields[..n], Le(fields[n].value, fields[n].width);
    var all := before + Packed(fields) + after;
    SameStart(init, fields, if k == n then n else k);
    if k == n {
      PackedSize(init);
      assert all == before + Packed(init) + last + after;
      NumberWritten(before + Packed(init), fields[n].value, fields[n].width, after);
      SmallModulo(fields[n].value, Pow2(8 * fields[n].width));
    } else {
      FieldReads(before, init, last + after, k);
      assert all == before + Packed(init) + (last + after);
    }
  }
}
