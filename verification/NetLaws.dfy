/** The wire format of the extender's messages byte by byte, apart from the functions that write and read it. */
module NetLaws {
  import opened BitStrings
  import opened Guid
  import opened NetCodec
  import opened NetDecode
  import opened NetTheorems
  import opened Proto
  import opened Sequences
  import opened Wrappers

  // ---- numbers ----

  /** Seven bits a byte, low bits first. */
  function Base128(s: seq<byte>): nat {
    if s == [] then 0 else s[0] % 128 + 128 * Base128(s[1..])
  }

  /** A number is written in base 128 with the top bit on every byte but the last, and without a last byte of zero. */
  lemma {:induction false} VarintLaw(v: nat)
    ensures var b := Varint(v);
      && Base128(b) == v && b[|b| - 1] < 128 && (|b| > 1 ==> b[|b| - 1] > 0)
      && forall i :: 0 <= i < |b| - 1 ==> b[i] >= 128
  {
    if v >= 128 {
      VarintLaw(v / 128);
      var b, c := Varint(v), Varint(v / 128);
      assert b[1..] == c && forall i :: 0 < i < |b| ==> b[i] == c[i - 1];
    } else {
      assert Varint(v)[1..] == [];
    }
  }

  /** A product with `p`, plus what is below `p`, modulo `p * q`. */
  lemma ModuloPower(low: nat, w: nat, p: nat, q: nat)
    requires low < p && q > 0
    ensures (low + w * p) % (p * q) == low + w % q * p
  {
    var d, m := w / q, w % q;
    DivMod(w, q);
    Below(low, m, p, q);
    Split(d, m, p, q);
    ModuloOf(d, p * q, low + m * p);
  }

  lemma Below(low: nat, m: nat, p: nat, q: nat)
    requires low < p && m < q
    ensures low + m * p < p * q
  {
    ProductOrder(q, m + 1, p);
    assert (m + 1) * p == m * p + p;
  }

  lemma Split(d: nat, m: nat, p: nat, q: nat)
    ensures (d * q + m) * p == d * (p * q) + m * p
  {
  }

  lemma ModuloOf(d: nat, t: nat, m: nat)
    requires m < t
    ensures (d * t + m) % t == m
  {
    DivMod(d * t + m, t);
    var e, r := (d * t + m) / t, (d * t + m) % t;
    ProductOrder(e, d + 1, t);
    ProductOrder(d, e + 1, t);
    assert e == d;
  }

  /** One more byte of a number, cut to 64 bits. */
  lemma ByteLaw(w: nat, low: nat, shift: nat)
    requires shift <= 63 && low < Pow2(shift)
    ensures BitOr(low, w * Pow2(shift) % 0x1_0000_0000_0000_0000)
            == (low + w * Pow2(shift)) % 0x1_0000_0000_0000_0000
  {
    hide Pow2, BitOr;
    var p, q := Pow2(shift), Pow2(64 - shift);
    Pow64();
    Pow2Adds(shift, 64 - shift);
    ModuloPower(0, w, p, q);
    ModuloPower(low, w, p, q);
    OrAdds(low, w % q, shift);
  }

  lemma ByteFits(w: nat, low: nat, shift: nat)
    requires w < 128 && shift <= 56 && low < Pow2(shift)
    ensures low + w * Pow2(shift) < Pow2(shift + 7) <= 0x1_0000_0000_0000_0000
  {
    hide Pow2;
    Pow64();
    Pow2Mono(shift + 7, 64);
    LowPart(low, w, shift);
  }

  lemma ReadStep(s: seq<byte>, low: nat, shift: nat)
    requires s != [] && shift <= 63 && low < Pow2(shift)
    ensures var v := (low + s[0] % 128 * Pow2(shift)) % 0x1_0000_0000_0000_0000;
      ReadVarintFrom(s, low, shift)
      == if s[0] < 128 then Some((v, s[1..]))
         else if shift > 56 then None
         else ReadVarintFrom(s[1..], v, shift + 7)
  {
    hide Pow2, BitOr;
    ByteLaw(s[0] % 128, low, shift);
  }

  lemma {:induction false} ReadFromLaw(s: seq<byte>, n: nat, low: nat, shift: nat)
    requires 0 < n <= |s| && s[n - 1] < 128 && forall i :: 0 <= i < n - 1 ==> s[i] >= 128
    requires shift <= 63 && shift % 7 == 0 && low < Pow2(shift)
    ensures ReadVarintFrom(s, low, shift)
            == if shift + 7 * (n - 1) > 63 then None
               else Some(((low + Base128(s[..n]) * Pow2(shift)) % 0x1_0000_0000_0000_0000, s[n..]))
    decreases n
  {
    hide Pow2, BitOr, ReadVarintFrom;
    var w, p := s[0] % 128, Pow2(shift);
    ReadStep(s, low, shift);
    if n == 1 {
      assert s[..1] == [s[0]] && [s[0]][1..] == [];
    } else if shift <= 56 {
      ByteFits(w, low, shift);
      SmallModulo(low + w * p, 0x1_0000_0000_0000_0000);
      Pow2Adds(shift, 7);
      Pow2Values();
      ReadFromLaw(s[1..], n - 1, low + w * p, shift + 7);
      assert s[1..][..n - 1] == s[..n][1..] && s[1..][n - 1..] == s[n..];
      Distribute(w, Base128(s[..n][1..]), p);
    }
  }

  /** A number is read up to the first byte without the top bit, modulo 2 to the 64; more than ten bytes fail. */
  lemma ReadLaw(s: seq<byte>, n: nat)
    requires 0 < n <= |s| && s[n - 1] < 128 && forall i :: 0 <= i < n - 1 ==> s[i] >= 128
    ensures ReadVarint(s)
            == if n > 10 then None else Some((Base128(s[..n]) % 0x1_0000_0000_0000_0000, s[n..]))
  {
    assert Pow2(0) == 1;
    ReadFromLaw(s, n, 0, 0);
  }

  lemma {:induction false} EndlessFrom(s: seq<byte>, low: nat, shift: nat)
    requires forall i :: 0 <= i < |s| ==> s[i] >= 128
    ensures ReadVarintFrom(s, low, shift) == None
    decreases |s|
  {
    if s != [] && shift + 7 <= 63 {
      EndlessFrom(s[1..], BitOr(low, (s[0] % 0x80) * Pow2(shift) % TWO_64), shift + 7);
    }
  }

  /** A number that does not end is none, and neither is a key or a field cut short there. */
  lemma EndlessLaw(s: seq<byte>)
    requires forall i :: 0 <= i < |s| ==> s[i] >= 128
    ensures ReadVarint(s) == None
  {
    EndlessFrom(s, 0, 0);
  }

  // ---- what is written ----

  function Held(tag: byte, s: seq<byte>): seq<byte> {
    [tag] + Varint(|s|) + s
  }

  function Text(tag: byte, s: seq<byte>): seq<byte> {
    if s == [] then [] else Held(tag, s)
  }

  function Count(tag: byte, n: nat): seq<byte> {
    if n == 0 then [] else [tag] + Varint(n)
  }

  /** The first byte of a field is eight times its number and its wire type: 0, 1, 2 or 5. */
  lemma FieldLaw(num: nat, n: nat, s: seq<byte>, raw: seq<byte>)
    requires num < 16
    ensures FieldBytes(Field(num, Number(n))) == [8 * num] + Varint(n)
    ensures FieldBytes(Field(num, Fixed64(raw))) == [8 * num + 1] + raw
    ensures FieldBytes(Field(num, Data(s))) == Held(8 * num + 2, s)
    ensures FieldBytes(Field(num, Fixed32(raw))) == [8 * num + 5] + raw
  {
    KeyByte(8 * num);
    KeyByte(8 * num + 1);
    KeyByte(8 * num + 2);
    KeyByte(8 * num + 5);
    hide Varint;
    assert Varint(8 * num + 2) + (Varint(|s|) + s) == [8 * num + 2] + Varint(|s|) + s;
  }

  lemma KeyByte(k: nat)
    requires k < 128
    ensures Varint(k) == [k]
  {
  }

  lemma FieldsLaw(num: nat, n: nat, s: seq<byte>)
    requires num < 16
    ensures FieldsBytes(NumberField(num, n)) == Count(8 * num, n)
    ensures FieldsBytes(StringField(num, s)) == Text(8 * num + 2, s)
  {
    hide FieldsBytes, FieldBytes, Held;
    FieldLaw(num, n, s, []);
    OneField(Field(num, Number(n)));
    OneField(Field(num, Data(s)));
    NoFields();
  }

  /** A value: always there, and under a tag of its kind. */
  function Value(v: UserVar): seq<byte> {
    match v.kind
    case Null => []
    case Int => [0x20] + Varint(if v.i < 0 then v.i + 0x1_0000_0000_0000_0000 else v.i)
    case Real => [0x29] + v.d
    case String => Held(0x32, v.s)
    case Json => Held(0x3a, v.s)
    case Bool => [0x48, if v.b then 1 else 0]
    case Binary => Held(0x52, v.s)
  }

  lemma ValueLaw(v: UserVar)
    ensures FieldsBytes(ValueFields(v)) == Value(v)
  {
    hide FieldsBytes, FieldBytes, Held;
    NoFields();
    FieldLaw(4, Unsigned(v.i), [], []);
    FieldLaw(5, 0, [], v.d);
    FieldLaw(6, 0, v.s, []);
    FieldLaw(7, 0, v.s, []);
    FieldLaw(9, if v.b then 1 else 0, [], []);
    FieldLaw(10, 0, v.s, []);
    if v.kind != Null {
      OneField(ValueFields(v)[0]);
      assert ValueFields(v) == [ValueFields(v)[0]];
    }
  }

  lemma FiveFields(a: seq<Field>, b: seq<Field>, c: seq<Field>, d: seq<Field>, e: seq<Field>)
    ensures FieldsBytes(a + b + c + d + e)
            == FieldsBytes(a) + FieldsBytes(b) + FieldsBytes(c) + FieldsBytes(d) + FieldsBytes(e)
  {
    hide FieldsBytes;
    FieldsBytesAppend(a, b);
    FieldsBytesAppend(a + b, c);
    FieldsBytesAppend(a + b + c, d);
    FieldsBytesAppend(a + b + c + d, e);
  }

  /** A variable: its GUID's two words, its key, its value, and whether it is the module's. */
  lemma VarLaw(v: UserVar)
    ensures VarBytes(v)
            == Count(0x08, Words(v.guid).0) + Count(0x10, Words(v.guid).1) + Text(0x1a, v.key)
               + Value(v) + (if v.inModule then [0x40, 1] else [])
  {
    hide FieldsBytes, Words, ValueFields, NumberField, StringField, Held, Value;
    var (lo, hi) := Words(v.guid);
    FieldsLaw(1, lo, []);
    FieldsLaw(2, hi, []);
    FieldsLaw(3, 0, v.key);
    ValueLaw(v);
    FlagLaw(8, v.inModule);
    FiveFields(NumberField(1, lo), NumberField(2, hi), StringField(3, v.key), ValueFields(v), BoolField(8, v.inModule));
  }

  /** The variables of a message, each in a field of its own. */
  function Listed(vars: seq<UserVar>): seq<byte> {
    if vars == [] then [] else Held(0x0a, VarBytes(vars[0])) + Listed(vars[1..])
  }

  lemma {:induction false} ListLaw(vars: seq<UserVar>)
    ensures FieldsBytes(VarsFields(vars)) == Listed(vars)
  {
    hide VarBytes, FieldBytes, Held;
    if vars != [] {
      ListLaw(vars[1..]);
      FieldLaw(1, 0, VarBytes(vars[0]), []);
      assert VarsFields(vars)[1..] == VarsFields(vars[1..]);
    }
  }

  function Post(w: Wrapper): seq<byte> {
    Text(0x0a, w.channel) + Text(0x12, w.payload) + Text(0x1a, w.mod)
    + Count(0x20, w.requestId) + Count(0x28, w.replyId) + (if w.binary then [0x30, 1] else [])
  }

  lemma PostLaw(w: Wrapper)
    requires w.kind == 1
    ensures FieldsBytes(BodyFields(w)) == Post(w)
  {
    hide FieldsBytes, NumberField, StringField, Text, Count;
    var a, b, c := StringField(1, w.channel), StringField(2, w.payload), StringField(3, w.mod);
    var d, e, f := NumberField(4, w.requestId), NumberField(5, w.replyId), BoolField(6, w.binary);
    FiveFields(a, b, c, d, e);
    FieldsBytesAppend(a + b + c + d + e, f);
    FieldsLaw(1, 0, w.channel);
    FieldsLaw(2, 0, w.payload);
    FieldsLaw(3, 0, w.mod);
    FieldsLaw(4, w.requestId, []);
    FieldsLaw(5, w.replyId, []);
    FlagLaw(6, w.binary);
  }

  lemma FlagLaw(num: nat, v: bool)
    requires num < 16
    ensures FieldsBytes(BoolField(num, v)) == if v then [8 * num, 1] else []
  {
    hide FieldsBytes, NumberField;
    FieldsLaw(num, if v then 1 else 0, []);
    KeyByte(1);
  }

  /** What follows the tag and length of a message of each kind. */
  lemma BodyLaw(w: Wrapper)
    ensures FieldsBytes(BodyFields(w))
            == if w.kind == 1 then Post(w)
               else if w.kind == 2 then (if w.bootstrap then [0x08, 1] else [])
               else if w.kind == 5 then Count(0x08, w.version)
               else if w.kind == 7 then Text(0x0a, w.kick)
               else if w.kind == 8 then Listed(w.vars)
               else []
  {
    hide FieldsBytes, NumberField, StringField, Held, Listed, Post;
    NoFields();
    if w.kind == 1 {
      PostLaw(w);
    }
    FieldsLaw(1, if w.bootstrap then 1 else 0, []);
    FieldsLaw(1, w.version, []);
    FieldsLaw(1, 0, w.kick);
    ListLaw(w.vars);
  }

  /** A message is one field: tag 0x0a, 0x12, 0x2a, 0x3a or 0x42, the body's length, and the body. */
  lemma MessageLaw(w: Wrapper)
    ensures w.kind == 1 ==> Encoded(w) == Held(0x0a, Post(w))
    ensures w.kind == 2 ==> Encoded(w) == if w.bootstrap then [0x12, 2, 0x08, 1] else [0x12, 0]
    ensures w.kind == 5 ==> Encoded(w) == Held(0x2a, Count(0x08, w.version))
    ensures w.kind == 7 ==> Encoded(w) == Held(0x3a, Text(0x0a, w.kick))
    ensures w.kind == 8 ==> Encoded(w) == Held(0x42, Listed(w.vars))
  {
    hide FieldsBytes, FieldBytes, BodyFields, Listed, Post, Varint;
    BodyLaw(w);
    var body := FieldsBytes(BodyFields(w));
    OneField(Field(w.kind, Data(body)));
    if w.kind < 16 {
      FieldLaw(w.kind, 0, body, []);
    }
    KeyByte(0);
    KeyByte(2);
  }

  /** The hello of a version below 128 is four bytes. */
  lemma HelloLaw(w: Wrapper)
    requires w.kind == 5 && 1 <= w.version < 128
    ensures Encoded(w) == [0x2a, 2, 0x08, w.version]
    ensures Decoded([0x2a, 2, 0x08, w.version]) == Some(NoMessage().(kind := 5, version := w.version))
  {
    hide Encoded, Decoded;
    MessageLaw(w);
    KeyByte(2);
    KeyByte(w.version);
    MessageRoundTrip(w);
  }

  // ---- what is read ----

  /** Another field at the end is applied to what the fields before it gave. */
  lemma Appended<S>(apply: (S, Field) -> S, st: S, fs: seq<Field>, f: Field)
    requires FieldsFit(fs + [f])
    ensures FoldBytes(apply, st, FieldsBytes(fs)) == Some(Fold(apply, st, fs))
    ensures FoldBytes(apply, st, FieldsBytes(fs) + FieldBytes(f)) == Some(apply(Fold(apply, st, fs), f))
  {
    hide FieldOk, FieldsBytes, FieldBytes, Fields, Fold;
    forall i | 0 <= i < |fs|
      ensures FieldOk(fs[i])
    {
      assert (fs + [f])[i] == fs[i];
    }
    FieldsOfBytes(fs);
    FieldsOfBytes(fs + [f]);
    FieldsBytesAppend(fs, [f]);
    OneField(f);
    FoldAppend(apply, st, fs, [f]);
    FoldOne(apply, Fold(apply, st, fs), f);
  }

  lemma VarAppended(fs: seq<Field>, f: Field)
    requires FieldsFit(fs + [f])
    ensures var st := Fold(ApplyVar, VarState(NoVar(), 0, 0), fs);
      && DecodedVar(FieldsBytes(fs)) == Some(VarOf(st))
      && DecodedVar(FieldsBytes(fs) + FieldBytes(f)) == Some(VarOf(ApplyVar(st, f)))
  {
    hide FoldBytes, Fold, FieldsFit, ApplyVar, VarOf, FieldBytes, FieldsBytes;
    Appended(ApplyVar, VarState(NoVar(), 0, 0), fs, f);
  }

  lemma FitsOne(fs: seq<Field>, n: nat, s: seq<byte>, raw: Double)
    requires FieldsFit(fs) && n < TWO_64 && |s| < TWO_64
    ensures forall num :: 0 <= num < 16 ==> FieldsFit(fs + [Field(num, Number(n))])
    ensures forall num :: 0 <= num < 16 ==> FieldsFit(fs + [Field(num, Data(s))])
    ensures forall num :: 0 <= num < 16 ==> FieldsFit(fs + [Field(num, Fixed64(raw))])
  {
  }

  lemma SignedLaw(n: nat)
    requires n < 0x1_0000_0000_0000_0000
    ensures Signed(n) == if n < 0x8000_0000_0000_0000 then n else n - 0x1_0000_0000_0000_0000
  {
  }

  /** What a number or a double at the end of a variable makes of what the fields before it gave. */
  lemma NumberReads(fs: seq<Field>, n: nat, raw: Double)
    requires FieldsFit(fs) && n < 0x1_0000_0000_0000_0000
    ensures var front := FieldsBytes(fs);
      DecodedVar(front).Some? && var v := DecodedVar(front).value;
      && DecodedVar(front + ([0x20] + Varint(n)))
         == Some(v.(kind := Int, i := if n < 0x8000_0000_0000_0000 then n else n - 0x1_0000_0000_0000_0000))
      && DecodedVar(front + ([0x29] + raw)) == Some(v.(kind := Real, d := raw))
      && DecodedVar(front + ([0x40] + Varint(n))) == Some(v.(inModule := n == 1))
      && DecodedVar(front + ([0x48] + Varint(n))) == Some(v.(kind := Bool, b := n != 0))
  {
    hide DecodedVar, FieldBytes, FieldsBytes, Held, Format, Fold, Varint, Signed, FieldsFit;
    SignedLaw(n);
    FitsOne(fs, n, [], raw);
    FieldLaw(4, n, [], raw);
    FieldLaw(5, n, [], raw);
    FieldLaw(8, n, [], raw);
    FieldLaw(9, n, [], raw);
    VarAppended(fs, Field(4, Number(n)));
    VarAppended(fs, Field(5, Fixed64(raw)));
    VarAppended(fs, Field(8, Number(n)));
    VarAppended(fs, Field(9, Number(n)));
  }

  /** The same for the fields that hold bytes. */
  lemma TextReads(fs: seq<Field>, s: seq<byte>)
    requires FieldsFit(fs) && |s| < 0x1_0000_0000_0000_0000
    ensures var front := FieldsBytes(fs);
      DecodedVar(front).Some? && var v := DecodedVar(front).value;
      && DecodedVar(front + Held(0x1a, s)) == Some(v.(key := s))
      && DecodedVar(front + Held(0x32, s)) == Some(v.(kind := String, s := s))
      && DecodedVar(front + Held(0x3a, s)) == Some(v.(kind := Json, s := s))
      && DecodedVar(front + Held(0x52, s)) == Some(v.(kind := Binary, s := s))
  {
    hide DecodedVar, FieldBytes, FieldsBytes, Held, Format, Fold, FieldsFit;
    FitsOne(fs, 0, s, ZERO);
    FieldLaw(3, 0, s, []);
    FieldLaw(6, 0, s, []);
    FieldLaw(7, 0, s, []);
    FieldLaw(10, 0, s, []);
    VarAppended(fs, Field(3, Data(s)));
    VarAppended(fs, Field(6, Data(s)));
    VarAppended(fs, Field(7, Data(s)));
    VarAppended(fs, Field(10, Data(s)));
  }

  /** The GUID's words are bytes 0 to 7 and 8 to 15 of the GUID that the text is made of. */
  lemma GuidReads(fs: seq<Field>, n: nat)
    requires FieldsFit(fs) && n < 0x1_0000_0000_0000_0000
    ensures var front := FieldsBytes(fs);
      var v := DecodedVar(front);
      var low, high := DecodedVar(front + ([0x08] + Varint(n))), DecodedVar(front + ([0x10] + Varint(n)));
      && v.Some? && low.Some? && high.Some?
      && Parses(v.value.guid) && Parses(low.value.guid) && Parses(high.value.guid)
      && low == Some(v.value.(guid := low.value.guid)) && high == Some(v.value.(guid := high.value.guid))
      && Guid.Bytes(low.value.guid) == WordBytes(n, 8) + Guid.Bytes(v.value.guid)[8..]
      && Guid.Bytes(high.value.guid) == Guid.Bytes(v.value.guid)[..8] + WordBytes(n, 8)
  {
    hide DecodedVar, FieldBytes, FieldsBytes, Format, Fold, Varint, WordBytes, Parses, Guid.Bytes;
    FieldLaw(1, n, [], []);
    FieldLaw(2, n, [], []);
    VarAppended(fs, Field(1, Number(n)));
    VarAppended(fs, Field(2, Number(n)));
    var st := Fold(ApplyVar, VarState(NoVar(), 0, 0), fs);
    ParseFormatted(WordBytes(st.lo, 8) + WordBytes(st.hi, 8));
    ParseFormatted(WordBytes(n, 8) + WordBytes(st.hi, 8));
    ParseFormatted(WordBytes(st.lo, 8) + WordBytes(n, 8));
  }

  /** Any other field of a variable is passed over. */
  lemma VarSkips(fs: seq<Field>, f: Field)
    requires FieldsFit(fs + [f])
    requires match f.payload
      case Number(_) => f.num !in {1, 2, 4, 8, 9}
      case Fixed64(_) => f.num != 5
      case Data(_) => f.num !in {3, 6, 7, 10}
      case Fixed32(_) => true
    ensures DecodedVar(FieldsBytes(fs) + FieldBytes(f)) == DecodedVar(FieldsBytes(fs))
  {
    hide DecodedVar, FieldBytes, FieldsBytes, Format, Fold, VarOf;
    VarAppended(fs, f);
  }

  // ---- the body of a message ----

  lemma {:induction false} KindKept(w: Wrapper, fs: seq<Field>)
    ensures Fold(ApplyBody, w, fs).kind == w.kind
    decreases |fs|
  {
    hide DecodedVar;
    if fs != [] {
      KindKept(ApplyBody(w, fs[0]), fs[1..]);
    }
  }

  /** A message of one of the five kinds is what its body says. */
  lemma Opened(kind: uint32, body: seq<byte>)
    requires kind in {1, 2, 5, 7, 8} && |body| < TWO_64
    ensures Decoded(Held(8 * kind + 2, body)) == FoldBytes(ApplyBody, NoMessage().(kind := kind), body)
  {
    hide FoldBytes, FieldBytes, FieldsBytes, Held, ApplyBody, Fold;
    FieldLaw(kind, 0, body, []);
    var f := Field(kind, Data(body));
    OneField(f);
    Appended(ApplyOuter, Envelope(0, []), [], f);
    NoFields();
    assert [] + FieldBytes(f) == FieldBytes(f) && [] + [f] == [f];
    FoldOne(ApplyOuter, Envelope(0, []), f);
  }

  lemma BodyAppended(kind: uint32, fs: seq<Field>, f: Field)
    requires kind in {1, 2, 5, 7, 8} && FieldsFit(fs + [f]) && |FieldsBytes(fs) + FieldBytes(f)| < TWO_64
    ensures var before, after := Decoded(Held(8 * kind + 2, FieldsBytes(fs))),
                                 Decoded(Held(8 * kind + 2, FieldsBytes(fs) + FieldBytes(f)));
      before.Some? && before.value.kind == kind && after == Some(ApplyBody(before.value, f))
  {
    hide FoldBytes, FieldBytes, FieldsBytes, Held, ApplyBody, Fold, FieldsFit, Decoded;
    var w0 := NoMessage().(kind := kind);
    Appended(ApplyBody, w0, fs, f);
    Opened(kind, FieldsBytes(fs));
    Opened(kind, FieldsBytes(fs) + FieldBytes(f));
    KindKept(w0, fs);
  }

  lemma Lengths(num: nat, n: nat, s: seq<byte>)
    requires num < 16 && n < TWO_64 && |s| < TWO_64
    ensures |FieldBytes(Field(num, Number(n)))| <= 11
    ensures |FieldBytes(Field(num, Data(s)))| <= 11 + |s|
  {
    hide Varint;
    FieldLaw(num, n, s, []);
    Pow64();
    Pow2Mono(64, 70);
    VarintLength(n, 10);
    VarintLength(|s|, 10);
  }

  /** What bytes at the end of a posted message make of what the fields before them gave. */
  lemma PostTextReads(fs: seq<Field>, s: seq<byte>)
    requires FieldsFit(fs) && |FieldsBytes(fs)| + 11 + |s| < 0x1_0000_0000_0000_0000
    ensures var front := FieldsBytes(fs);
      Decoded(Held(0x0a, front)).Some? && var w := Decoded(Held(0x0a, front)).value;
      && w.kind == 1
      && Decoded(Held(0x0a, front + Held(0x0a, s))) == Some(w.(channel := s))
      && Decoded(Held(0x0a, front + Held(0x12, s))) == Some(w.(payload := s))
      && Decoded(Held(0x0a, front + Held(0x1a, s))) == Some(w.(mod := s))
  {
    hide Decoded, FieldBytes, FieldsBytes, Held;
    FieldLaw(1, 0, s, []);
    FieldLaw(2, 0, s, []);
    FieldLaw(3, 0, s, []);
    Lengths(1, 0, s);
    Lengths(2, 0, s);
    Lengths(3, 0, s);
    BodyAppended(1, fs, Field(1, Data(s)));
    BodyAppended(1, fs, Field(2, Data(s)));
    BodyAppended(1, fs, Field(3, Data(s)));
  }

  /** The same for its numbers. */
  lemma PostNumberReads(fs: seq<Field>, n: nat)
    requires FieldsFit(fs) && n < 0x1_0000_0000_0000_0000
    requires |FieldsBytes(fs)| + 11 < 0x1_0000_0000_0000_0000
    ensures var front := FieldsBytes(fs);
      Decoded(Held(0x0a, front)).Some? && var w := Decoded(Held(0x0a, front)).value;
      && Decoded(Held(0x0a, front + ([0x20] + Varint(n)))) == Some(w.(requestId := n % 0x1_0000_0000))
      && Decoded(Held(0x0a, front + ([0x28] + Varint(n)))) == Some(w.(replyId := n % 0x1_0000_0000))
      && Decoded(Held(0x0a, front + ([0x30] + Varint(n)))) == Some(w.(binary := n == 1))
  {
    hide Decoded, FieldBytes, FieldsBytes, Held, Varint;
    FieldLaw(4, n, [], []);
    FieldLaw(5, n, [], []);
    FieldLaw(6, n, [], []);
    Lengths(4, n, []);
    Lengths(5, n, []);
    Lengths(6, n, []);
    BodyAppended(1, fs, Field(4, Number(n)));
    BodyAppended(1, fs, Field(5, Number(n)));
    BodyAppended(1, fs, Field(6, Number(n)));
  }

  /** The same for the one field of a reset, a hello, a kick and the variables; a variable that is none is dropped. */
  lemma OthersRead(fs: seq<Field>, n: nat, s: seq<byte>)
    requires FieldsFit(fs) && n < 0x1_0000_0000_0000_0000
    requires |FieldsBytes(fs)| + 11 + |s| < 0x1_0000_0000_0000_0000
    ensures var front := FieldsBytes(fs);
      && Decoded(Held(0x12, front)).Some? && Decoded(Held(0x2a, front)).Some?
      && Decoded(Held(0x3a, front)).Some? && Decoded(Held(0x42, front)).Some?
      && var reset, hello := Decoded(Held(0x12, front)).value, Decoded(Held(0x2a, front)).value;
      var kick, vars := Decoded(Held(0x3a, front)).value, Decoded(Held(0x42, front)).value;
      && reset.kind == 2 && hello.kind == 5 && kick.kind == 7 && vars.kind == 8
      && Decoded(Held(0x12, front + ([0x08] + Varint(n)))) == Some(reset.(bootstrap := n != 0))
      && Decoded(Held(0x2a, front + ([0x08] + Varint(n)))) == Some(hello.(version := n % 0x1_0000_0000))
      && Decoded(Held(0x3a, front + Held(0x0a, s))) == Some(kick.(kick := s))
      && Decoded(Held(0x42, front + Held(0x0a, s)))
         == Some(if DecodedVar(s) == None then vars else vars.(vars := vars.vars + [DecodedVar(s).value]))
  {
    hide Decoded, DecodedVar, FieldBytes, FieldsBytes, Held, Varint;
    FieldLaw(1, n, s, []);
    Lengths(1, n, s);
    BodyAppended(2, fs, Field(1, Number(n)));
    BodyAppended(5, fs, Field(1, Number(n)));
    BodyAppended(7, fs, Field(1, Data(s)));
    BodyAppended(8, fs, Field(1, Data(s)));
  }

  /** Any other field of a body is passed over. */
  lemma BodySkips(kind: uint32, fs: seq<Field>, f: Field)
    requires kind in {1, 2, 5, 7, 8} && FieldsFit(fs + [f]) && |FieldsBytes(fs) + FieldBytes(f)| < TWO_64
    requires match f.payload
      case Number(_) => !(kind == 1 && 4 <= f.num <= 6) && !(kind in {2, 5} && f.num == 1)
      case Data(_) => !(kind == 1 && 1 <= f.num <= 3) && !(kind in {7, 8} && f.num == 1)
      case _ => true
    ensures Decoded(Held(8 * kind + 2, FieldsBytes(fs) + FieldBytes(f))) == Decoded(Held(8 * kind + 2, FieldsBytes(fs)))
  {
    hide Decoded, DecodedVar, FieldBytes, FieldsBytes, Held;
    BodyAppended(kind, fs, f);
  }

  // ---- messages as a whole ----

  /** The last field of one of the five kinds is the message; any other field is passed over. */
  lemma OuterLaw(fs: seq<Field>, f: Field)
    requires FieldsFit(fs + [f])
    ensures f.payload.Data? && f.num in {1, 2, 5, 7, 8} ==>
      Decoded(FieldsBytes(fs) + FieldBytes(f)) == Decoded(Held(8 * f.num + 2, f.payload.bytes))
    ensures !(f.payload.Data? && f.num in {1, 2, 5, 7, 8}) ==>
      Decoded(FieldsBytes(fs) + FieldBytes(f)) == Decoded(FieldsBytes(fs))
    ensures Decoded([]) == None
  {
    hide FoldBytes, FieldBytes, FieldsBytes, Held, ApplyBody, Fold;
    Appended(ApplyOuter, Envelope(0, []), fs, f);
    assert (fs + [f])[|fs|] == f;
    if f.payload.Data? && f.num in {1, 2, 5, 7, 8} {
      Opened(f.num, f.payload.bytes);
    }
    EndlessLaw([]);
    FoldStep(ApplyOuter, Envelope(0, []), []);
  }

  lemma {:induction false} FieldsThen(fs: seq<Field>, tail: seq<byte>)
    requires FieldsFit(fs)
    ensures Fields(FieldsBytes(fs) + tail)
            == if Fields(tail) == None then None else Some(fs + Fields(tail).value)
  {
    hide FieldOk, FieldBytes, Fields;
    if fs == [] {
      assert [] + tail == tail;
      if Fields(tail).Some? {
        assert [] + Fields(tail).value == Fields(tail).value;
      }
    } else {
      assert FieldsFit(fs[1..]);
      FieldsThen(fs[1..], tail);
      FieldsOfField(fs[0], FieldsBytes(fs[1..]) + tail);
      Assoc(FieldBytes(fs[0]), FieldsBytes(fs[1..]), tail);
      if Fields(tail).Some? {
        assert [fs[0]] + (fs[1..] + Fields(tail).value) == fs + Fields(tail).value;
      }
    }
  }

  /** A field that is cut short, or of a wire type other than 0, 1, 2 and 5, fails its message. */
  lemma BadField(fs: seq<Field>, num: nat, wire: nat, tail: seq<byte>)
    requires FieldsFit(fs) && num < 16 && wire < 8
    requires wire == 0 ==> forall i :: 0 <= i < |tail| ==> tail[i] >= 128
    requires wire == 1 ==> |tail| < 8
    requires wire == 2 ==> exists n: nat :: |tail| < |Varint(n)| + n && n < TWO_64 && Varint(n) <= tail
    requires wire == 5 ==> |tail| < 4
    ensures DecodedVar(FieldsBytes(fs) + ([8 * num + wire] + tail)) == None
    ensures Decoded(FieldsBytes(fs) + ([8 * num + wire] + tail)) == None
  {
    hide FieldsBytes, ReadPayload, ReadKey, Varint, FieldsFit;
    FieldsThen(fs, [8 * num + wire] + tail);
    KeyByte(8 * num + wire);
    ReadKeyBytes(num, wire, tail);
    BadPayload(wire, tail);
  }

  lemma BadPayload(wire: nat, tail: seq<byte>)
    requires wire < 8
    requires wire == 0 ==> forall i :: 0 <= i < |tail| ==> tail[i] >= 128
    requires wire == 1 ==> |tail| < 8
    requires wire == 2 ==> exists n: nat :: |tail| < |Varint(n)| + n && n < TWO_64 && Varint(n) <= tail
    requires wire == 5 ==> |tail| < 4
    ensures ReadPayload(wire, tail) == None
  {
    hide ReadVarint, Varint;
    if wire == 0 {
      EndlessLaw(tail);
    } else if wire == 2 {
      var n: nat :| |tail| < |Varint(n)| + n && n < TWO_64 && Varint(n) <= tail;
      assert tail == Varint(n) + tail[|Varint(n)|..];
      ReadWritten(n, tail[|Varint(n)|..]);
    }
  }

  /** A key that is cut short ends its message and does not fail it. */
  lemma CutKey(fs: seq<Field>, tail: seq<byte>)
    requires FieldsFit(fs) && forall i :: 0 <= i < |tail| ==> tail[i] >= 128
    ensures DecodedVar(FieldsBytes(fs) + tail) == DecodedVar(FieldsBytes(fs))
    ensures Decoded(FieldsBytes(fs) + tail) == Decoded(FieldsBytes(fs))
  {
    hide FieldsBytes, ReadVarint, FieldsFit;
    FieldsThen(fs, tail);
    FieldsThen(fs, []);
    EndlessLaw(tail);
    EndlessLaw([]);
    assert FieldsBytes(fs) + [] == FieldsBytes(fs);
  }
}
