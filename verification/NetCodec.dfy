/** The extender's messages (src/net.cpp): what each is, its bytes, and reading it back. */
module NetCodec {
  import opened BitStrings
  import opened Guid
  import opened Proto

  type int64 = x: int | -0x8000_0000_0000_0000 <= x < 0x8000_0000_0000_0000
  type uint32 = x: int | 0 <= x < TWO_32
  /** A double, by the eight bytes it is in memory. */
  type Double = d: seq<byte> | |d| == 8 witness [0, 0, 0, 0, 0, 0, 0, 0]

  const ZERO: Double := [0, 0, 0, 0, 0, 0, 0, 0]

  const POST_LUA := 1
  const RESET_LUA := 2
  const HELLO := 5
  const KICK := 7
  const USER_VARS := 8

  predicate KnownKind(kind: nat) {
    kind == POST_LUA || kind == RESET_LUA || kind == HELLO || kind == KICK || kind == USER_VARS
  }

  datatype Kind = Null | Bool | Int | Real | String | Json | Binary

  datatype UserVar = UserVar(
    inModule: bool, guid: string, key: seq<byte>, kind: Kind,
    b: bool, i: int64, d: Double, s: seq<byte>)

  datatype Wrapper = Wrapper(
    kind: uint32,
    channel: seq<byte>, payload: seq<byte>, mod: seq<byte>, requestId: uint32, replyId: uint32, binary: bool,
    bootstrap: bool, version: uint32, kick: seq<byte>,
    vars: seq<UserVar>)

  function NoVar(): UserVar {
    UserVar(false, "", [], Null, false, 0, ZERO, [])
  }

  function NoMessage(): Wrapper {
    Wrapper(0, [], [], [], 0, 0, false, false, 0, [], [])
  }

  // ---- the fields of each message ----

  function StringField(num: nat, v: seq<byte>): seq<Field> {
    if v == [] then [] else [Field(num, Data(v))]
  }

  function BoolField(num: nat, v: bool): seq<Field> {
    NumberField(num, if v then 1 else 0)
  }

  /** A GUID's two words; zero for text that is none. */
  function Words(guid: string): (nat, nat) {
    if Parses(guid) then (Word(Guid.Bytes(guid)[..8]), Word(Guid.Bytes(guid)[8..])) else (0, 0)
  }

  function Unsigned(i: int64): nat {
    if i < 0 then i + TWO_64 else i
  }

  function Signed(n: nat): int64 {
    var m := n % TWO_64;
    if m >= 0x8000_0000_0000_0000 then m - TWO_64 else m
  }

  /** A value is written even where it is the default: it is a member of a oneof. */
  function ValueFields(v: UserVar): seq<Field> {
    match v.kind
    case Int => [Field(4, Number(Unsigned(v.i)))]
    case Real => [Field(5, Fixed64(v.d))]
    case String => [Field(6, Data(v.s))]
    case Json => [Field(7, Data(v.s))]
    case Bool => [Field(9, Number(if v.b then 1 else 0))]
    case Binary => [Field(10, Data(v.s))]
    case Null => []
  }

  function VarFields(v: UserVar): seq<Field> {
    NumberField(1, Words(v.guid).0) + NumberField(2, Words(v.guid).1) + StringField(3, v.key)
    + ValueFields(v) + BoolField(8, v.inModule)
  }

  function VarBytes(v: UserVar): seq<byte> {
    FieldsBytes(VarFields(v))
  }

  function VarsFields(vars: seq<UserVar>): (fs: seq<Field>)
    ensures |fs| == |vars|
  {
    if vars == [] then [] else [Field(1, Data(VarBytes(vars[0])))] + VarsFields(vars[1..])
  }

  function BodyFields(w: Wrapper): seq<Field> {
    if w.kind == POST_LUA then
      StringField(1, w.channel) + StringField(2, w.payload) + StringField(3, w.mod)
      + NumberField(4, w.requestId) + NumberField(5, w.replyId) + BoolField(6, w.binary)
    else if w.kind == RESET_LUA then BoolField(1, w.bootstrap)
    else if w.kind == HELLO then NumberField(1, w.version)
    else if w.kind == KICK then StringField(1, w.kick)
    else if w.kind == USER_VARS then VarsFields(w.vars)
    else []
  }

  /** The bytes of a message: its kind's field, holding the fields of the message. */
  function Encoded(w: Wrapper): seq<byte> {
    FieldsBytes([Field(w.kind, Data(FieldsBytes(BodyFields(w))))])
  }

  // ---- encoding ----

  method PutString(out: seq<byte>, num: nat, v: seq<byte>) returns (out': seq<byte>)
    ensures out' == out + FieldsBytes(StringField(num, v))
  {
    out' := out;
    if v != [] {
      out' := PutBytes(out, num, v);
    }
  }

  method EncodeVar(out: seq<byte>, v: UserVar) returns (out': seq<byte>)
    ensures out' == out + VarBytes(v)
  {
    hide FieldsBytes, FieldBytes, NumberField, StringField;
    var lo, hi := 0, 0;
    var guid := ParseGuid(v.guid);
    if guid.Some? {
      lo, hi := Word(guid.value[..8]), Word(guid.value[8..]);
    }
    out' := PutUint(out, 1, lo);
    out' := PutUint(out', 2, hi);
    out' := PutString(out', 3, v.key);
    out' := PutValue(out', v);
    out' := PutUint(out', 8, if v.inModule then 1 else 0);
    var f1, f2, f3 := NumberField(1, lo), NumberField(2, hi), StringField(3, v.key);
    var f4, f5 := ValueFields(v), BoolField(8, v.inModule);
    FieldsBytesAppend(f1, f2);
    FieldsBytesAppend(f1 + f2, f3);
    FieldsBytesAppend(f1 + f2 + f3, f4);
    FieldsBytesAppend(f1 + f2 + f3 + f4, f5);
  }

  method PutValue(out: seq<byte>, v: UserVar) returns (out': seq<byte>)
    ensures out' == out + FieldsBytes(ValueFields(v))
  {
    hide Varint;
    match v.kind {
      case Int =>
        out' := PutKey(out, 4, 0);
        out' := PutVarint(out', Unsigned(v.i));
        OneField(Field(4, Number(Unsigned(v.i))));
      case Real =>
        out' := PutKey(out, 5, 1);
        out' := out' + v.d;
        OneField(Field(5, Fixed64(v.d)));
      case String => out' := PutBytes(out, 6, v.s);
      case Json => out' := PutBytes(out, 7, v.s);
      case Bool =>
        out' := PutKey(out, 9, 0);
        out' := PutVarint(out', if v.b then 1 else 0);
        OneField(Field(9, Number(if v.b then 1 else 0)));
      case Binary => out' := PutBytes(out, 10, v.s);
      case Null => out' := out;
    }
  }

  method EncodePost(w: Wrapper) returns (body: seq<byte>)
    requires w.kind == POST_LUA
    ensures body == FieldsBytes(BodyFields(w))
  {
    hide FieldsBytes, NumberField, StringField;
    body := PutString([], 1, w.channel);
    body := PutString(body, 2, w.payload);
    body := PutString(body, 3, w.mod);
    body := PutUint(body, 4, w.requestId);
    body := PutUint(body, 5, w.replyId);
    body := PutUint(body, 6, if w.binary then 1 else 0);
    var f1, f2, f3 := StringField(1, w.channel), StringField(2, w.payload), StringField(3, w.mod);
    var f4, f5, f6 := NumberField(4, w.requestId), NumberField(5, w.replyId), BoolField(6, w.binary);
    FieldsBytesAppend(f1, f2);
    FieldsBytesAppend(f1 + f2, f3);
    FieldsBytesAppend(f1 + f2 + f3, f4);
    FieldsBytesAppend(f1 + f2 + f3 + f4, f5);
    FieldsBytesAppend(f1 + f2 + f3 + f4 + f5, f6);
  }

  method Encode(w: Wrapper) returns (out: seq<byte>)
    ensures out == Encoded(w)
  {
    hide FieldsBytes, VarBytes;
    assert FieldsBytes([]) == [] by { NoFields(); }
    var body: seq<byte> := [];
    if w.kind == POST_LUA {
      body := EncodePost(w);
    } else if w.kind == RESET_LUA {
      body := PutUint(body, 1, if w.bootstrap then 1 else 0);
      assert body == FieldsBytes(BodyFields(w));
    } else if w.kind == HELLO {
      body := PutUint(body, 1, w.version);
      assert body == FieldsBytes(BodyFields(w));
    } else if w.kind == KICK {
      body := PutString(body, 1, w.kick);
      assert body == FieldsBytes(BodyFields(w));
    } else if w.kind == USER_VARS {
      for i := 0 to |w.vars|
        invariant body == FieldsBytes(VarsFields(w.vars[..i]))
      {
        var one := EncodeVar([], w.vars[i]);
        assert one == VarBytes(w.vars[i]);
        body := PutBytes(body, 1, one);
        VarsSnoc(w.vars, i);
      }
      assert w.vars[..|w.vars|] == w.vars;
    }
    out := PutBytes([], w.kind, body);
    assert out == Encoded(w);
  }

  lemma NoFields()
    ensures FieldsBytes([]) == []
  {
  }

  lemma {:induction false} VarsAppend(a: seq<UserVar>, b: seq<UserVar>)
    ensures VarsFields(a + b) == VarsFields(a) + VarsFields(b)
  {
    hide VarBytes;
    if a == [] {
      assert a + b == b;
    } else {
      VarsAppend(a[1..], b);
      assert a + b == [a[0]] + (a[1..] + b);
    }
  }

  lemma VarsSnoc(vars: seq<UserVar>, i: nat)
    requires i < |vars|
    ensures FieldsBytes(VarsFields(vars[..i + 1]))
            == FieldsBytes(VarsFields(vars[..i])) + FieldsBytes([Field(1, Data(VarBytes(vars[i])))])
  {
    hide FieldsBytes, VarBytes;
    assert vars[..i + 1] == vars[..i] + [vars[i]];
    VarsAppend(vars[..i], [vars[i]]);
    assert VarsFields([vars[i]]) == [Field(1, Data(VarBytes(vars[i])))];
    FieldsBytesAppend(VarsFields(vars[..i]), VarsFields([vars[i]]));
  }
}
