/** The protobuf subset of src/pb.h: base-128 numbers and tagged fields, written and read. */
module Proto {
  import opened BitStrings
  import opened Sequences
  import opened Wrappers

  const TWO_64 := 0x1_0000_0000_0000_0000
  const TWO_32 := 0x1_0000_0000

  // ---- numbers ----

  /** Seven bits a byte, low bits first; the top bit says that more follow. */
  function Varint(v: nat): (bytes: seq<byte>)
    ensures |bytes| > 0
  {
    if v >= 0x80 then [v % 0x80 + 0x80] + Varint(v / 0x80) else [v]
  }

  method PutVarint(out: seq<byte>, value: nat) returns (out': seq<byte>)
    ensures out' == out + Varint(value)
  {
    var v := value;
    out' := out;
    while v >= 0x80
      invariant out' + Varint(v) == out + Varint(value)
    {
      assert out' + ([v % 0x80 + 0x80] + Varint(v / 0x80)) == out' + [v % 0x80 + 0x80] + Varint(v / 0x80);
      out' := out' + [v % 0x80 + 0x80];
      v := v / 0x80;
    }
    out' := out' + [v];
  }

  /** A number as read with `v` the bits so far and `shift` the place of the next ones, in 64 bits. */
  function ReadVarintFrom(s: seq<byte>, v: nat, shift: nat): (r: Option<(nat, seq<byte>)>)
    ensures r.Some? ==> |r.value.1| < |s|
    decreases |s|
  {
    if s == [] then None
    else
      var v' := BitOr(v, (s[0] % 0x80) * Pow2(shift) % TWO_64);
      if s[0] < 0x80 then Some((v', s[1..]))
      else if shift + 7 > 63 then None
      else ReadVarintFrom(s[1..], v', shift + 7)
  }

  function ReadVarint(s: seq<byte>): (r: Option<(nat, seq<byte>)>)
    ensures r.Some? ==> |r.value.1| < |s|
  {
    ReadVarintFrom(s, 0, 0)
  }

  lemma Pow64()
    ensures Pow2(64) == TWO_64
  {
    Pow2Values();
    Pow2Adds(16, 16);
    Pow2Adds(32, 32);
  }

  lemma TermFits(w: nat, shift: nat, high: nat)
    requires shift <= 63 && w + 0x80 * high < Pow2(64 - shift)
    ensures w * Pow2(shift) % TWO_64 == w * Pow2(shift)
    ensures (w + 0x80 * high) * Pow2(shift) == w * Pow2(shift) + high * Pow2(shift + 7)
    ensures high > 0 ==> shift + 7 <= 63 && high < Pow2(64 - (shift + 7))
  {
    hide Pow2;
    Pow64();
    Pow2Values();
    Pow2Adds(64 - shift, shift);
    ProductLess(w, Pow2(64 - shift), Pow2(shift));
    Pow2Adds(shift, 7);
    SmallModulo(w * Pow2(shift), TWO_64);
    Distribute(w, high, Pow2(shift));
    if high > 0 {
      if shift > 56 {
        Pow2Mono(64 - shift, 7);
        assert false;
      }
      Pow2Adds(64 - (shift + 7), 7);
    }
  }

  lemma Distribute(w: nat, high: nat, p: nat)
    ensures (w + 0x80 * high) * p == w * p + high * (p * 0x80)
  {
  }

  lemma ProductLess(a: nat, b: nat, p: nat)
    requires a < b && p > 0
    ensures a * p < b * p
  {
  }

  /** Reading inverts writing, over every 64-bit value, whatever follows. */
  lemma {:induction false} ReadWrittenFrom(v: nat, low: nat, shift: nat, rest: seq<byte>)
    requires shift <= 63 && v < Pow2(64 - shift) && low < Pow2(shift)
    ensures ReadVarintFrom(Varint(v) + rest, low, shift) == Some((low + v * Pow2(shift), rest))
    decreases v
  {
    hide Pow2, BitOr, ReadVarintFrom;
    var s := Varint(v) + rest;
    var w, high := v % 0x80, v / 0x80;
    assert v == w + 0x80 * high;
    TermFits(w, shift, high);
    OrAdds(low, w, shift);
    if v < 0x80 {
      assert s[0] == v && s[1..] == rest;
      OneByte(s, low, shift, w);
    } else {
      assert s[0] == w + 0x80 && s[1..] == Varint(high) + rest;
      OneByte(s, low, shift, w);
      LowPart(low, w, shift);
      ReadWrittenFrom(high, low + w * Pow2(shift), shift + 7, rest);
    }
  }

  lemma OneByte(s: seq<byte>, low: nat, shift: nat, w: nat)
    requires s != [] && w == s[0] % 0x80 && w * Pow2(shift) % TWO_64 == w * Pow2(shift)
    requires BitOr(low, w * Pow2(shift)) == low + w * Pow2(shift)
    ensures ReadVarintFrom(s, low, shift) ==
      if s[0] < 0x80 then Some((low + w * Pow2(shift), s[1..]))
      else if shift + 7 > 63 then None
      else ReadVarintFrom(s[1..], low + w * Pow2(shift), shift + 7)
  {
    hide Pow2, BitOr;
  }

  lemma LowPart(low: nat, w: nat, shift: nat)
    requires low < Pow2(shift) && w < 0x80
    ensures low + w * Pow2(shift) < Pow2(shift + 7)
  {
    Pow2Adds(shift, 7);
    Pow2Values();
    ProductOrder(0x7f, w, Pow2(shift));
  }

  lemma ReadWritten(v: nat, rest: seq<byte>)
    requires v < TWO_64
    ensures ReadVarint(Varint(v) + rest) == Some((v, rest))
  {
    hide Varint, ReadVarintFrom;
    Pow64();
    assert Pow2(0) == 1;
    ReadWrittenFrom(v, 0, 0, rest);
  }

  /** A number takes one byte for every seven bits, ten at most. */
  lemma {:induction false} VarintLength(v: nat, n: nat)
    requires n > 0 && v < Pow2(7 * n)
    ensures |Varint(v)| <= n
  {
    if v >= 0x80 {
      Pow2Values();
      if n == 1 {
        assert false;
      }
      Pow2Adds(7 * (n - 1), 7);
      VarintLength(v / 0x80, n - 1);
    }
  }

  // ---- fields ----

  datatype Payload =
    | Number(n: nat)
    | Fixed64(raw: seq<byte>)
    | Data(bytes: seq<byte>)
    | Fixed32(raw: seq<byte>)

  datatype Field = Field(num: nat, payload: Payload)

  function Wire(p: Payload): nat {
    match p
    case Number(_) => 0
    case Fixed64(_) => 1
    case Data(_) => 2
    case Fixed32(_) => 5
  }

  predicate PayloadOk(p: Payload) {
    match p
    case Number(n) => n < TWO_64
    case Fixed64(raw) => |raw| == 8
    case Data(bytes) => |bytes| < TWO_64
    case Fixed32(raw) => |raw| == 4
  }

  predicate FieldOk(f: Field) {
    f.num < TWO_32 && PayloadOk(f.payload)
  }

  function PayloadBytes(p: Payload): seq<byte> {
    match p
    case Number(n) => Varint(n)
    case Fixed64(raw) => raw
    case Data(bytes) => Varint(|bytes|) + bytes
    case Fixed32(raw) => raw
  }

  function FieldBytes(f: Field): (bytes: seq<byte>)
    ensures |bytes| > 0
  {
    Varint(8 * f.num + Wire(f.payload)) + PayloadBytes(f.payload)
  }

  function FieldsBytes(fs: seq<Field>): seq<byte> {
    if fs == [] then [] else FieldBytes(fs[0]) + FieldsBytes(fs[1..])
  }

  lemma {:induction false} FieldsBytesAppend(a: seq<Field>, b: seq<Field>)
    ensures FieldsBytes(a + b) == FieldsBytes(a) + FieldsBytes(b)
  {
    hide FieldBytes;
    if a == [] {
      assert a + b == b;
    } else {
      FieldsBytesAppend(a[1..], b);
      assert (a + b)[1..] == a[1..] + b;
    }
  }

  /** What follows a key of this wire type; None for a truncated field or an unknown type. */
  function ReadPayload(wire: nat, s: seq<byte>): (r: Option<(Payload, seq<byte>)>)
    ensures r.Some? ==> |r.value.1| <= |s| && Wire(r.value.0) == wire
  {
    match wire
    case 0 =>
      var (n, rest) :- ReadVarint(s);
      Some((Number(n), rest))
    case 1 => if |s| < 8 then None else Some((Fixed64(s[..8]), s[8..]))
    case 2 =>
      var (len, rest) :- ReadVarint(s);
      if |rest| < len then None else Some((Data(rest[..len]), rest[len..]))
    case 5 => if |s| < 4 then None else Some((Fixed32(s[..4]), s[4..]))
    case _ => None
  }

  /** The key's number and wire type; None at the end, and at a key that is cut short. */
  function ReadKey(s: seq<byte>): (r: Option<(nat, nat, seq<byte>)>)
    ensures r.Some? ==> |r.value.2| < |s|
  {
    var (k, rest) :- ReadVarint(s);
    Some((k / 8 % TWO_32, k % 8, rest))
  }

  /**
   All fields of a message. A truncated field fails the message, but a
   truncated key ends it, as `next` reports both with the same false.
  */
  function Fields(s: seq<byte>): (r: Option<seq<Field>>)
    decreases |s|
  {
    var key := ReadKey(s);
    if key == None then Some([])
    else
      var (num, wire, r1) := key.value;
      var (payload, rest) :- ReadPayload(wire, r1);
      var fs :- Fields(rest);
      Some([Field(num, payload)] + fs)
  }

  lemma ReadPayloadBytes(p: Payload, rest: seq<byte>)
    requires PayloadOk(p)
    ensures ReadPayload(Wire(p), PayloadBytes(p) + rest) == Some((p, rest))
  {
    hide Varint, ReadVarint;
    match p
    case Number(n) => ReadWritten(n, rest);
    case Fixed64(raw) => assert (raw + rest)[..8] == raw && (raw + rest)[8..] == rest;
    case Data(bytes) =>
      assert PayloadBytes(p) + rest == Varint(|bytes|) + (bytes + rest);
      ReadWritten(|bytes|, bytes + rest);
      assert (bytes + rest)[..|bytes|] == bytes && (bytes + rest)[|bytes|..] == rest;
    case Fixed32(raw) => assert (raw + rest)[..4] == raw && (raw + rest)[4..] == rest;
  }

  lemma ReadKeyBytes(num: nat, wire: nat, rest: seq<byte>)
    requires num < TWO_32 && wire < 8
    ensures ReadKey(Varint(8 * num + wire) + rest) == Some((num, wire, rest))
  {
    hide Varint, ReadVarint;
    ReadWritten(8 * num + wire, rest);
  }

  lemma FieldsOfField(f: Field, tail: seq<byte>)
    requires FieldOk(f)
    ensures Fields(FieldBytes(f) + tail)
            == if Fields(tail) == None then None else Some([f] + Fields(tail).value)
  {
    hide Varint, ReadKey, ReadPayload, PayloadBytes;
    var key := Varint(8 * f.num + Wire(f.payload));
    Assoc(key, PayloadBytes(f.payload), tail);
    ReadKeyBytes(f.num, Wire(f.payload), PayloadBytes(f.payload) + tail);
    ReadPayloadBytes(f.payload, tail);
  }

  /** The fields of a message are read back in order, as written. */
  lemma {:induction false} FieldsOfBytes(fs: seq<Field>)
    requires forall i :: 0 <= i < |fs| ==> FieldOk(fs[i])
    ensures Fields(FieldsBytes(fs)) == Some(fs)
  {
    hide FieldBytes, FieldOk;
    if fs != [] {
      FieldsOfBytes(fs[1..]);
      FieldsOfField(fs[0], FieldsBytes(fs[1..]));
      assert [fs[0]] + fs[1..] == fs;
    } else {
      assert FieldsBytes(fs) == [];
    }
  }

  // ---- writing ----

  method PutKey(out: seq<byte>, num: nat, wire: nat) returns (out': seq<byte>)
    requires wire < 8
    ensures out' == out + Varint(8 * num + wire)
  {
    out' := PutVarint(out, 8 * num + wire);
  }

  /** proto3 leaves out a number that is zero. */
  function NumberField(num: nat, v: nat): seq<Field> {
    if v == 0 then [] else [Field(num, Number(v))]
  }

  method PutUint(out: seq<byte>, num: nat, v: nat) returns (out': seq<byte>)
    ensures out' == out + FieldsBytes(NumberField(num, v))
  {
    if v == 0 {
      return out;
    }
    out' := PutKey(out, num, 0);
    out' := PutVarint(out', v);
    OneField(Field(num, Number(v)));
  }

  method PutBytes(out: seq<byte>, num: nat, v: seq<byte>) returns (out': seq<byte>)
    ensures out' == out + FieldsBytes([Field(num, Data(v))])
  {
    out' := PutKey(out, num, 2);
    out' := PutVarint(out', |v|);
    out' := out' + v;
    OneField(Field(num, Data(v)));
  }

  lemma OneField(f: Field)
    ensures FieldsBytes([f]) == FieldBytes(f)
  {
    assert [f][1..] == [];
  }

  // ---- reading ----

  class Reader {
    const data: seq<byte>
    var p: nat

    constructor (bytes: seq<byte>)
      ensures Valid() && Rest() == bytes
    {
      data, p := bytes, 0;
    }

    predicate Valid()
      reads this
    {
      p <= |data|
    }

    function Rest(): seq<byte>
      requires Valid()
      reads this
    {
      data[p..]
    }

    /** The next key; false at the end of the data or at a key that is cut short. */
    method Next() returns (ok: bool, num: nat, wire: nat)
      requires Valid()
      modifies this
      ensures Valid()
      ensures match ReadKey(old(Rest()))
        case None => !ok
        case Some((n, w, rest)) => ok && num == n && wire == w && Rest() == rest
    {
      if p >= |data| {
        return false, 0, 0;
      }
      var good, k := TakeVarint();
      if !good {
        return false, 0, 0;
      }
      return true, k / 8 % TWO_32, k % 8;
    }

    method TakeVarint() returns (ok: bool, v: nat)
      requires Valid()
      modifies this
      ensures Valid()
      ensures match ReadVarint(old(Rest()))
        case None => !ok
        case Some((n, rest)) => ok && v == n && Rest() == rest
    {
      v := 0;
      var shift := 0;
      while p < |data|
        invariant p <= |data| && shift <= 63
        invariant ReadVarintFrom(data[p..], v, shift) == ReadVarint(old(Rest()))
        decreases |data| - p
      {
        var b := data[p];
        p := p + 1;
        assert data[p - 1..][1..] == data[p..];
        v := BitOr(v, (b % 0x80) * Pow2(shift) % TWO_64);
        if b < 0x80 {
          return true, v;
        }
        shift := shift + 7;
        if shift > 63 {
          return false, 0;
        }
      }
      return false, 0;
    }

    method TakeBytes() returns (ok: bool, bytes: seq<byte>)
      requires Valid()
      modifies this
      ensures Valid()
      ensures match ReadPayload(2, old(Rest()))
        case None => !ok
        case Some((payload, rest)) => ok && payload == Data(bytes) && Rest() == rest
    {
      var good, len := TakeVarint();
      if !good {
        return false, [];
      }
      if |data| - p < len {
        return false, [];
      }
      bytes := data[p..p + len];
      p := p + len;
      return true, bytes;
    }

    method TakeFixed(n: nat) returns (ok: bool, raw: seq<byte>)
      requires Valid()
      modifies this
      ensures Valid()
      ensures ok == (|old(Rest())| >= n)
      ensures ok ==> raw == old(Rest())[..n] && Rest() == old(Rest())[n..]
    {
      if |data| - p < n {
        return false, [];
      }
      raw := data[p..p + n];
      p := p + n;
      return true, raw;
    }

    /** Passes over a field of this wire type: false where the field is none. */
    method Skip(wire: nat) returns (ok: bool)
      requires Valid()
      modifies this
      ensures Valid()
      ensures match ReadPayload(wire, old(Rest()))
        case None => !ok
        case Some((_, rest)) => ok && Rest() == rest
    {
      match wire {
        case 0 => var good, _ := TakeVarint(); ok := good;
        case 1 => var good, _ := TakeFixed(8); ok := good;
        case 2 => var good, _ := TakeBytes(); ok := good;
        case 5 => var good, _ := TakeFixed(4); ok := good;
        case _ => ok := false;
      }
    }
  }
}
