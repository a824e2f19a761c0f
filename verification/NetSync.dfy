/** The splitting of a variable sync into packets (src/net.cpp), and what of it arrives. */
module NetSync {
  import opened BitStrings
  import opened NetCodec
  import opened NetDecode
  import opened NetTheorems
  import opened Proto
  import opened Wrappers

  const MAX_PAYLOAD := 0xfffff
  const BUDGET := 0x40000

  function Message(vars: seq<UserVar>): Wrapper {
    NoMessage().(kind := USER_VARS, vars := vars)
  }

  /** What one variable takes from a packet's budget. */
  function Weight(v: UserVar): nat {
    |v.key| + |v.s| + 64
  }

  function TotalWeight(vars: seq<UserVar>): nat {
    if vars == [] then 0 else TotalWeight(vars[..|vars| - 1]) + Weight(vars[|vars| - 1])
  }

  function Flatten(parts: seq<seq<UserVar>>): seq<UserVar> {
    if parts == [] then [] else Flatten(parts[..|parts| - 1]) + parts[|parts| - 1]
  }

  /** A part is not empty, and was below the budget before its last variable. */
  predicate PartOk(part: seq<UserVar>) {
    part != [] && (|part| == 1 || TotalWeight(part[..|part| - 1]) < BUDGET)
  }

  /** The packets a sync is split into: every variable once and in order, each part within its budget. */
  method Split(vars: seq<UserVar>) returns (parts: seq<seq<UserVar>>, packets: seq<seq<byte>>)
    ensures |packets| == |parts| && Flatten(parts) == vars
    ensures forall i :: 0 <= i < |parts| ==> PartOk(parts[i]) && packets[i] == Encoded(Message(parts[i]))
    ensures forall i :: 0 <= i < |parts| - 1 ==> TotalWeight(parts[i]) >= 0x4_0000
  {
    hide Encoded;
    parts, packets := [], [];
    var at := 0;
    while at < |vars|
      invariant at <= |vars| && |packets| == |parts| && Flatten(parts) == vars[..at]
      invariant forall i :: 0 <= i < |parts| ==> PartOk(parts[i]) && packets[i] == Encoded(Message(parts[i]))
      invariant forall i :: 0 <= i < |parts| ==> at < |vars| || i < |parts| - 1 ==> TotalWeight(parts[i]) >= BUDGET
    {
      var part: seq<UserVar> := [];
      var budget := 0;
      ghost var from := at;
      while at < |vars| && (part == [] || budget < BUDGET)
        invariant from <= at <= |vars| && part == vars[from..at]
        invariant budget == TotalWeight(part) && (part != [] ==> PartOk(part))
        decreases |vars| - at
      {
        budget := budget + |vars[at].key| + |vars[at].s| + 64;
        assert (part + [vars[at]])[..|part|] == part;
        part := part + [vars[at]];
        at := at + 1;
      }
      var bytes := Encode(Message(part));
      assert (parts + [part])[..|parts|] == parts;
      assert vars[..from] + part == vars[..at];
      parts := parts + [part];
      packets := packets + [bytes];
    }
  }

  // ---- sizes ----

  lemma SmallVarint(v: nat)
    ensures v < 0x80 ==> |Varint(v)| == 1
    ensures v < TWO_64 ==> |Varint(v)| <= 10
  {
    if v < TWO_64 {
      Pow64();
      Pow2Mono(64, 70);
      VarintLength(v, 10);
    }
  }

  lemma FieldSize(f: Field)
    requires f.num <= 15 && FieldOk(f)
    ensures f.payload.Data? ==> |FieldBytes(f)| <= 11 + |f.payload.bytes|
    ensures !f.payload.Data? ==> |FieldBytes(f)| <= 11
    ensures f.payload.Number? && f.payload.n < 0x80 ==> |FieldBytes(f)| == 2
  {
    hide Varint;
    SmallVarint(8 * f.num + Wire(f.payload));
    match f.payload
    case Number(n) => SmallVarint(n);
    case Data(bytes) => SmallVarint(|bytes|);
    case _ =>
  }

  lemma NumberSize(num: nat, n: nat)
    requires num <= 15 && n < TWO_64
    ensures |FieldsBytes(NumberField(num, n))| <= if n < 0x80 then 2 else 11
  {
    hide FieldBytes;
    if n > 0 {
      OneField(Field(num, Number(n)));
      FieldSize(Field(num, Number(n)));
    }
  }

  lemma StringSize(num: nat, s: seq<byte>)
    requires num <= 15 && |s| < TWO_64
    ensures |FieldsBytes(StringField(num, s))| <= 11 + |s|
  {
    hide FieldBytes;
    if s != [] {
      OneField(Field(num, Data(s)));
      FieldSize(Field(num, Data(s)));
    }
  }

  lemma ValueSize(v: UserVar)
    requires |v.s| < TWO_64
    ensures |FieldsBytes(ValueFields(v))| <= 11 + |v.s|
  {
    hide FieldBytes;
    SignedUnsigned(v.i);
    if v.kind != Null {
      OneField(ValueFields(v)[0]);
      FieldSize(ValueFields(v)[0]);
    }
  }

  /** A variable's bytes stay below what the budget counts for it, with room for its own key and length. */
  lemma VarSize(v: UserVar)
    requires Weight(v) < TWO_64
    ensures |VarBytes(v)| <= Weight(v) - 18
  {
    hide FieldsBytes, Words, NumberField, StringField, ValueFields;
    WordsFit(v.guid);
    var f1, f2, f3 := NumberField(1, Words(v.guid).0), NumberField(2, Words(v.guid).1), StringField(3, v.key);
    var f4, f5 := ValueFields(v), BoolField(8, v.inModule);
    FieldsBytesAppend(f1, f2);
    FieldsBytesAppend(f1 + f2, f3);
    FieldsBytesAppend(f1 + f2 + f3, f4);
    FieldsBytesAppend(f1 + f2 + f3 + f4, f5);
    NumberSize(1, Words(v.guid).0);
    NumberSize(2, Words(v.guid).1);
    StringSize(3, v.key);
    ValueSize(v);
    NumberSize(8, if v.inModule then 1 else 0);
  }

  lemma {:induction false} VarsSize(vars: seq<UserVar>)
    requires TotalWeight(vars) < TWO_64
    ensures |FieldsBytes(VarsFields(vars))| <= TotalWeight(vars)
  {
    hide FieldBytes, VarBytes;
    if vars != [] {
      var n := |vars| - 1;
      VarsSize(vars[..n]);
      VarSize(vars[n]);
      VarsSnoc(vars, n);
      assert vars[..n + 1] == vars;
      var f := Field(1, Data(VarBytes(vars[n])));
      OneField(f);
      FieldSize(f);
    }
  }

  /** A packet is at most eleven bytes longer than the weight of its variables. */
  lemma PacketSize(vars: seq<UserVar>)
    requires TotalWeight(vars) < TWO_64
    ensures |Encoded(Message(vars))| <= 11 + TotalWeight(vars)
  {
    hide FieldBytes;
    VarsSize(vars);
    var f := Field(USER_VARS, Data(FieldsBytes(VarsFields(vars))));
    OneField(f);
    FieldSize(f);
  }

  /** Room enough for one variable on top of a full budget. */
  const SLACK := MAX_PAYLOAD - 11 - (BUDGET - 1)

  /** Every packet fits when every single variable is within the slack. */
  lemma PartFits(part: seq<UserVar>)
    requires PartOk(part) && forall i :: 0 <= i < |part| ==> Weight(part[i]) <= SLACK
    ensures |Encoded(Message(part))| <= MAX_PAYLOAD
  {
    hide Encoded;
    var n := |part| - 1;
    if n == 0 {
      assert part[..0] == [];
    }
    assert TotalWeight(part) == TotalWeight(part[..n]) + Weight(part[n]);
    PacketSize(part);
  }

  // ---- what arrives ----

  /** What a packet is at the other end: one too long is written as of no length, and is no message. */
  function Arrives(packet: seq<byte>): Option<Wrapper> {
    if packet == [] || |packet| > MAX_PAYLOAD then None else Decoded(packet)
  }

  /** The variables of the packets that arrive, in order. */
  function Delivered(packets: seq<seq<byte>>): seq<UserVar> {
    if packets == [] then []
    else
      var last := Arrives(packets[|packets| - 1]);
      Delivered(packets[..|packets| - 1]) + (if last == None then [] else last.value.vars)
  }

  lemma PacketArrives(part: seq<UserVar>)
    ensures Arrives(Encoded(Message(part)))
            == if |Encoded(Message(part))| <= MAX_PAYLOAD then Some(Message(NormalVars(part))) else None
  {
    hide Decoded, FieldBytes;
    var w := Message(part);
    OneField(Field(w.kind, Data(FieldsBytes(BodyFields(w)))));
    if |Encoded(w)| <= MAX_PAYLOAD {
      MessageRoundTrip(w);
    }
  }

  predicate PacketsOf(packets: seq<seq<byte>>, parts: seq<seq<UserVar>>) {
    |packets| == |parts| && forall i :: 0 <= i < |parts| ==> packets[i] == Encoded(Message(parts[i]))
  }

  lemma NormalAppend(a: seq<UserVar>, b: seq<UserVar>)
    ensures NormalVars(a + b) == NormalVars(a) + NormalVars(b)
  {
    hide NormalVar;
  }

  lemma {:induction false} DeliveredLength(packets: seq<seq<byte>>, parts: seq<seq<UserVar>>)
    requires PacketsOf(packets, parts)
    ensures |Delivered(packets)| <= |Flatten(parts)|
    ensures (exists i :: 0 <= i < |parts| && parts[i] != [] && |packets[i]| > MAX_PAYLOAD)
            ==> |Delivered(packets)| < |Flatten(parts)|
    ensures (forall i :: 0 <= i < |parts| ==> |packets[i]| <= MAX_PAYLOAD)
            ==> Delivered(packets) == NormalVars(Flatten(parts))
  {
    hide Encoded, NormalVar, Arrives;
    if parts != [] {
      var n := |parts| - 1;
      DeliveredLength(packets[..n], parts[..n]);
      PacketArrives(parts[n]);
      NormalAppend(Flatten(parts[..n]), parts[n]);
      if exists i :: 0 <= i < |parts| && parts[i] != [] && |packets[i]| > MAX_PAYLOAD {
        var i :| 0 <= i < |parts| && parts[i] != [] && |packets[i]| > MAX_PAYLOAD;
        if i < n {
          assert parts[..n][i] != [] && |packets[..n][i]| > MAX_PAYLOAD;
        }
      }
    }
  }

  /** Every packet of a split is within the limit when each variable is within the slack. */
  lemma SlackSuffices(vars: seq<UserVar>, parts: seq<seq<UserVar>>, packets: seq<seq<byte>>)
    requires PacketsOf(packets, parts) && Flatten(parts) == vars
    requires forall i :: 0 <= i < |parts| ==> PartOk(parts[i])
    requires forall v :: v in vars ==> Weight(v) <= SLACK
    ensures forall i :: 0 <= i < |packets| ==> |packets[i]| <= MAX_PAYLOAD
  {
    hide Encoded, TotalWeight, Weight;
    forall i | 0 <= i < |parts|
      ensures |packets[i]| <= MAX_PAYLOAD
    {
      FlattenHas(parts, i);
      PartFits(parts[i]);
    }
  }

  /** Every variable of a split sync arrives, once and in order, exactly when no packet is over the limit. */
  lemma SyncArrives(vars: seq<UserVar>, parts: seq<seq<UserVar>>, packets: seq<seq<byte>>)
    requires PacketsOf(packets, parts) && Flatten(parts) == vars
    requires forall i :: 0 <= i < |parts| ==> PartOk(parts[i])
    ensures Delivered(packets) == NormalVars(vars)
      <==> forall i :: 0 <= i < |packets| ==> |packets[i]| <= MAX_PAYLOAD
  {
    hide Encoded, NormalVar, Delivered, Flatten, TotalWeight;
    DeliveredLength(packets, parts);
    if i :| 0 <= i < |packets| && |packets[i]| > MAX_PAYLOAD {
      assert parts[i] != [];
    }
  }

  lemma {:induction false} FlattenHas(parts: seq<seq<UserVar>>, i: nat)
    requires i < |parts|
    ensures forall v :: v in parts[i] ==> v in Flatten(parts)
  {
    var n := |parts| - 1;
    if i < n {
      FlattenHas(parts[..n], i);
    }
  }

  // ---- by the numbers ----

  function Counted(vars: seq<UserVar>): nat {
    if vars == [] then 0 else |vars[0].key| + |vars[0].s| + 64 + Counted(vars[1..])
  }

  lemma {:induction false} CountedAppend(a: seq<UserVar>, b: seq<UserVar>)
    ensures Counted(a + b) == Counted(a) + Counted(b)
  {
    if a == [] {
      assert a + b == b;
    } else {
      CountedAppend(a[1..], b);
      assert (a + b)[1..] == a[1..] + b;
    }
  }

  lemma {:induction false} WeightIsCounted(vars: seq<UserVar>)
    ensures TotalWeight(vars) == Counted(vars)
  {
    if vars != [] {
      var n := |vars| - 1;
      WeightIsCounted(vars[..n]);
      CountedAppend(vars[..n], [vars[n]]);
      assert vars[..n] + [vars[n]] == vars && [vars[n]][1..] == [];
    }
  }

  /** A part has a first variable, and every other one only if those before it count less than 256 KB. */
  lemma PartLaw(part: seq<UserVar>)
    ensures PartOk(part) <==> part != [] && (|part| == 1 || Counted(part[..|part| - 1]) < 0x4_0000)
  {
    if part != [] {
      WeightIsCounted(part[..|part| - 1]);
    }
  }

  /** A packet of 1 to 1,048,575 bytes arrives as it is, and any other as nothing. */
  lemma LimitLaw(packet: seq<byte>)
    ensures Arrives(packet) == if 1 <= |packet| <= 1_048_575 then Decoded(packet) else None
  {
    hide Decoded;
  }

  /** Keys and values of up to 786,357 bytes never make a packet too long. */
  lemma SlackLaw(v: UserVar)
    ensures Weight(v) <= SLACK <==> |v.key| + |v.s| <= 786_357
  {
  }
}
