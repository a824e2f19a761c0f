/** What the codec keeps: every message comes back in its normal form, and within its budget. */
module NetTheorems {
  import opened BitStrings
  import opened Guid
  import opened NetCodec
  import opened NetDecode
  import opened Proto
  import opened Wrappers

  // ---- the normal form of a message ----

  /** A GUID in canonical lower case; text that is none is sent as the null GUID. */
  function Canonical(guid: string): string {
    if Parses(guid) then Lowered(guid) else Format(WordBytes(0, 16))
  }

  /** A variable with only what its kind carries. */
  function NormalVar(v: UserVar): UserVar {
    NoVar().(
      inModule := v.inModule, guid := Canonical(v.guid), key := v.key, kind := v.kind,
      b := v.kind == Bool && v.b,
      i := if v.kind == Int then v.i else 0,
      d := if v.kind == Real then v.d else ZERO,
      s := if v.kind == String || v.kind == Json || v.kind == Binary then v.s else [])
  }

  function NormalVars(vars: seq<UserVar>): (r: seq<UserVar>)
    ensures |r| == |vars| && forall i :: 0 <= i < |vars| ==> r[i] == NormalVar(vars[i])
  {
    if vars == [] then [] else [NormalVar(vars[0])] + NormalVars(vars[1..])
  }

  /** A message with only what its kind carries. */
  function Normal(w: Wrapper): Wrapper {
    var n := NoMessage().(kind := w.kind);
    if w.kind == POST_LUA then
      n.(channel := w.channel, payload := w.payload, mod := w.mod,
         requestId := w.requestId, replyId := w.replyId, binary := w.binary)
    else if w.kind == RESET_LUA then n.(bootstrap := w.bootstrap)
    else if w.kind == HELLO then n.(version := w.version)
    else if w.kind == KICK then n.(kick := w.kick)
    else if w.kind == USER_VARS then n.(vars := NormalVars(w.vars))
    else n
  }

  // ---- sizes ----

  lemma {:induction false} FieldWithin(fs: seq<Field>, i: nat)
    requires i < |fs|
    ensures |FieldBytes(fs[i])| <= |FieldsBytes(fs)|
  {
    hide FieldBytes;
    if i > 0 {
      FieldWithin(fs[1..], i - 1);
    }
  }

  predicate FieldsFit(fs: seq<Field>) {
    forall i :: 0 <= i < |fs| ==> FieldOk(fs[i])
  }

  predicate NumbersFit(fs: seq<Field>) {
    forall i :: 0 <= i < |fs| ==> fs[i].num < TWO_32 && (fs[i].payload.Data? || PayloadOk(fs[i].payload))
  }

  lemma NumbersAppend(a: seq<Field>, b: seq<Field>)
    requires NumbersFit(a) && NumbersFit(b)
    ensures NumbersFit(a + b)
  {
  }

  /** Fields whose numbers are in range are well formed, if their bytes fit in memory. */
  lemma FitInMemory(fs: seq<Field>)
    requires |FieldsBytes(fs)| < TWO_64
    requires NumbersFit(fs)
    ensures FieldsFit(fs)
  {
    forall i | 0 <= i < |fs|
      ensures FieldOk(fs[i])
    {
      FieldWithin(fs, i);
    }
  }

  // ---- variables ----

  lemma WordsFit(guid: string)
    ensures Words(guid).0 < TWO_64 && Words(guid).1 < TWO_64
    ensures Format(WordBytes(Words(guid).0, 8) + WordBytes(Words(guid).1, 8)) == Canonical(guid)
  {
    hide Word, WordBytes, Parses, Guid.Bytes, Format, Lowered;
    Pow64();
    if Parses(guid) {
      var b := Guid.Bytes(guid);
      WordBound(b[..8]);
      WordBound(b[8..]);
      WordBytesOfWord(b[..8]);
      WordBytesOfWord(b[8..]);
      assert b[..8] + b[8..] == b;
      FormatParsed(guid);
    } else {
      ZeroBytes(8);
      ZeroBytes(16);
      assert WordBytes(0, 8) + WordBytes(0, 8) == WordBytes(0, 16);
    }
  }

  lemma {:induction false} ZeroBytes(n: nat)
    ensures forall i :: 0 <= i < n ==> WordBytes(0, n)[i] == 0
  {
    if n > 0 {
      ZeroBytes(n - 1);
    }
  }

  lemma SignedUnsigned(i: int64)
    ensures Unsigned(i) < TWO_64 && Signed(Unsigned(i)) == i
  {
  }

  lemma SimpleFits(num: nat, n: nat, s: seq<byte>)
    requires num < TWO_32 && n < TWO_64
    ensures NumbersFit(NumberField(num, n)) && NumbersFit(StringField(num, s))
  {
  }

  lemma ValuesFit(v: UserVar)
    ensures NumbersFit(ValueFields(v))
  {
    SignedUnsigned(v.i);
  }

  lemma VarFieldsFit(v: UserVar)
    requires |VarBytes(v)| < TWO_64
    ensures FieldsFit(VarFields(v))
  {
    hide Words, FieldsBytes, NumbersFit;
    WordsFit(v.guid);
    ValuesFit(v);
    var f1, f2, f3 := NumberField(1, Words(v.guid).0), NumberField(2, Words(v.guid).1), StringField(3, v.key);
    SimpleFits(1, Words(v.guid).0, v.key);
    SimpleFits(2, Words(v.guid).1, v.key);
    SimpleFits(3, 0, v.key);
    SimpleFits(8, if v.inModule then 1 else 0, v.key);
    NumbersAppend(f1, f2);
    NumbersAppend(f1 + f2, f3);
    NumbersAppend(f1 + f2 + f3, ValueFields(v));
    NumbersAppend(f1 + f2 + f3 + ValueFields(v), BoolField(8, v.inModule));
    FitInMemory(VarFields(v));
  }

  /** The value's fields leave exactly what the variable's kind carries. */
  lemma ValueFolds(st: VarState, v: UserVar)
    requires st.v.kind == Null && st.v.b == false && st.v.i == 0 && st.v.d == ZERO && st.v.s == []
    ensures Fold(ApplyVar, st, ValueFields(v))
            == st.(v := NormalVar(v).(inModule := st.v.inModule, guid := st.v.guid, key := st.v.key))
  {
    hide Fold, Canonical;
    SignedUnsigned(v.i);
    match v.kind {
      case Null => FoldOne(ApplyVar, st, Field(0, Number(0)));
      case _ => FoldOne(ApplyVar, st, ValueFields(v)[0]);
    }
  }

  lemma NumberFolds(st: VarState, num: nat, n: nat)
    ensures Fold(ApplyVar, st, NumberField(num, n))
            == if n == 0 then st else ApplyVar(st, Field(num, Number(n)))
  {
    hide ApplyVar;
    FoldOne(ApplyVar, st, Field(num, Number(n)));
  }

  lemma StringFolds(st: VarState, num: nat, s: seq<byte>)
    ensures Fold(ApplyVar, st, StringField(num, s))
            == if s == [] then st else ApplyVar(st, Field(num, Data(s)))
  {
    hide ApplyVar;
    FoldOne(ApplyVar, st, Field(num, Data(s)));
  }

  lemma VarFolds(v: UserVar)
    ensures var (lo, hi) := Words(v.guid);
      Fold(ApplyVar, VarState(NoVar(), 0, 0), VarFields(v)) == VarState(NormalVar(v).(guid := ""), lo, hi)
  {
    hide Fold, Words, NumberField, StringField, Canonical, ValueFields;
    var (lo, hi) := Words(v.guid);
    var st0 := VarState(NoVar(), 0, 0);
    var f1, f2, f3 := NumberField(1, lo), NumberField(2, hi), StringField(3, v.key);
    var f4, f5 := ValueFields(v), BoolField(8, v.inModule);
    FoldAppend(ApplyVar, st0, f1 + f2 + f3 + f4, f5);
    FoldAppend(ApplyVar, st0, f1 + f2 + f3, f4);
    FoldAppend(ApplyVar, st0, f1 + f2, f3);
    FoldAppend(ApplyVar, st0, f1, f2);
    NumberFolds(st0, 1, lo);
    var st1 := VarState(NoVar(), lo, 0);
    NumberFolds(st1, 2, hi);
    var st2 := VarState(NoVar(), lo, hi);
    StringFolds(st2, 3, v.key);
    var st3 := VarState(NoVar().(key := v.key), lo, hi);
    ValueFolds(st3, v);
    var st4 := st3.(v := NormalVar(v).(inModule := false, guid := "", key := v.key));
    NumberFolds(st4, 8, if v.inModule then 1 else 0);
  }

  /** Every variable, of every kind, comes back in its normal form. */
  lemma VarRoundTrip(v: UserVar)
    requires |VarBytes(v)| < TWO_64
    ensures DecodedVar(VarBytes(v)) == Some(NormalVar(v))
  {
    hide Fold, VarFields, Words, Format, FieldsBytes, Fields, Canonical;
    VarFieldsFit(v);
    FieldsOfBytes(VarFields(v));
    VarFolds(v);
    WordsFit(v.guid);
  }

  // ---- messages ----

  lemma {:induction false} VarsFieldsAt(vars: seq<UserVar>, i: nat)
    requires i < |vars|
    ensures VarsFields(vars)[i] == Field(1, Data(VarBytes(vars[i])))
  {
    hide VarBytes;
    if i > 0 {
      VarsFieldsAt(vars[1..], i - 1);
    }
  }

  lemma BodyNumbersFit(w: Wrapper)
    ensures NumbersFit(BodyFields(w))
  {
    hide NumbersFit;
    if w.kind == POST_LUA {
      var f1, f2, f3 := StringField(1, w.channel), StringField(2, w.payload), StringField(3, w.mod);
      var f4, f5, f6 := NumberField(4, w.requestId), NumberField(5, w.replyId), BoolField(6, w.binary);
      SimpleFits(1, 0, w.channel);
      SimpleFits(2, 0, w.payload);
      SimpleFits(3, 0, w.mod);
      SimpleFits(4, w.requestId, []);
      SimpleFits(5, w.replyId, []);
      SimpleFits(6, if w.binary then 1 else 0, []);
      NumbersAppend(f1, f2);
      NumbersAppend(f1 + f2, f3);
      NumbersAppend(f1 + f2 + f3, f4);
      NumbersAppend(f1 + f2 + f3 + f4, f5);
      NumbersAppend(f1 + f2 + f3 + f4 + f5, f6);
    } else if w.kind == USER_VARS {
      VarsNumbersFit(w.vars);
    } else {
      SimpleFits(1, if w.kind == RESET_LUA then (if w.bootstrap then 1 else 0) else w.version, w.kick);
      SimpleFits(1, 0, []);
    }
  }

  lemma VarsNumbersFit(vars: seq<UserVar>)
    ensures NumbersFit(VarsFields(vars))
  {
    forall i | 0 <= i < |vars|
      ensures VarsFields(vars)[i] == Field(1, Data(VarBytes(vars[i])))
    {
      VarsFieldsAt(vars, i);
    }
  }

  lemma FieldIn<S>(apply: (S, Field) -> S, st: S, num: nat, n: nat, s: seq<byte>)
    ensures Fold(apply, st, NumberField(num, n)) == if n == 0 then st else apply(st, Field(num, Number(n)))
    ensures Fold(apply, st, StringField(num, s)) == if s == [] then st else apply(st, Field(num, Data(s)))
  {
    FoldOne(apply, st, Field(num, Number(n)));
    FoldOne(apply, st, Field(num, Data(s)));
  }

  lemma PostFolds(w: Wrapper)
    requires w.kind == POST_LUA
    ensures Fold(ApplyBody, NoMessage().(kind := w.kind), BodyFields(w)) == Normal(w)
  {
    hide Fold, NumberField, StringField;
    var f1, f2, f3 := StringField(1, w.channel), StringField(2, w.payload), StringField(3, w.mod);
    var f4, f5, f6 := NumberField(4, w.requestId), NumberField(5, w.replyId), BoolField(6, w.binary);
    var w0 := NoMessage().(kind := w.kind);
    FoldAppend(ApplyBody, w0, f1 + f2 + f3 + f4 + f5, f6);
    FoldAppend(ApplyBody, w0, f1 + f2 + f3 + f4, f5);
    FoldAppend(ApplyBody, w0, f1 + f2 + f3, f4);
    FoldAppend(ApplyBody, w0, f1 + f2, f3);
    FoldAppend(ApplyBody, w0, f1, f2);
    var w1 := w0.(channel := w.channel);
    var w2 := w1.(payload := w.payload);
    var w3 := w2.(mod := w.mod);
    var w4 := w3.(requestId := w.requestId);
    var w5 := w4.(replyId := w.replyId);
    FieldIn(ApplyBody, w0, 1, 0, w.channel);
    FieldIn(ApplyBody, w1, 2, 0, w.payload);
    FieldIn(ApplyBody, w2, 3, 0, w.mod);
    FieldIn(ApplyBody, w3, 4, w.requestId, []);
    FieldIn(ApplyBody, w4, 5, w.replyId, []);
    FieldIn(ApplyBody, w5, 6, if w.binary then 1 else 0, []);
  }

  lemma VarApplies(w: Wrapper, v: UserVar)
    requires w.kind == USER_VARS && |VarBytes(v)| < TWO_64
    ensures ApplyBody(w, Field(1, Data(VarBytes(v)))) == w.(vars := w.vars + [NormalVar(v)])
  {
    hide VarBytes, DecodedVar, NormalVar;
    VarRoundTrip(v);
  }

  lemma {:induction false} VarsFold(w: Wrapper, vars: seq<UserVar>)
    requires w.kind == USER_VARS
    requires forall i :: 0 <= i < |vars| ==> |VarBytes(vars[i])| < TWO_64
    ensures Fold(ApplyBody, w, VarsFields(vars)) == w.(vars := w.vars + NormalVars(vars))
    decreases |vars|
  {
    hide VarBytes, NormalVar, ApplyBody;
    if vars == [] {
      assert w.vars + [] == w.vars;
    } else {
      VarApplies(w, vars[0]);
      var w' := w.(vars := w.vars + [NormalVar(vars[0])]);
      VarsFold(w', vars[1..]);
      var fs := VarsFields(vars);
      assert fs[0] == Field(1, Data(VarBytes(vars[0]))) && fs[1..] == VarsFields(vars[1..]);
      assert w'.vars + NormalVars(vars[1..]) == w.vars + NormalVars(vars);
    }
  }

  lemma BodyFolds(w: Wrapper)
    requires KnownKind(w.kind) && FieldsFit(BodyFields(w))
    ensures Fold(ApplyBody, NoMessage().(kind := w.kind), BodyFields(w)) == Normal(w)
  {
    hide Fold, VarBytes, DecodedVar;
    var w0 := NoMessage().(kind := w.kind);
    if w.kind == POST_LUA {
      PostFolds(w);
    } else if w.kind == USER_VARS {
      forall i | 0 <= i < |w.vars|
        ensures |VarBytes(w.vars[i])| < TWO_64
      {
        VarsFieldsAt(w.vars, i);
        assert FieldOk(VarsFields(w.vars)[i]);
      }
      VarsFold(w0, w.vars);
      assert [] + NormalVars(w.vars) == NormalVars(w.vars);
    } else {
      FieldIn(ApplyBody, w0, 1, if w.kind == RESET_LUA then (if w.bootstrap then 1 else 0) else w.version, w.kick);
    }
  }

  /**
   Every message that fits in memory decodes to its normal form if its kind
   is one of the five, and to nothing otherwise.
  */
  lemma MessageRoundTrip(w: Wrapper)
    requires |Encoded(w)| < TWO_64
    ensures Decoded(Encoded(w)) == if KnownKind(w.kind) then Some(Normal(w)) else None
  {
    hide Fold, FieldsBytes, Fields, BodyFields, ApplyBody, Normal, FieldBytes;
    var body := FieldsBytes(BodyFields(w));
    var outer := [Field(w.kind, Data(body))];
    assert NumbersFit(outer);
    FitInMemory(outer);
    FieldsOfBytes(outer);
    FoldOne(ApplyOuter, Envelope(0, []), outer[0]);
    if KnownKind(w.kind) {
      assert FieldOk(outer[0]);
      BodyNumbersFit(w);
      FitInMemory(BodyFields(w));
      FieldsOfBytes(BodyFields(w));
      BodyFolds(w);
    }
  }

  /** A message comes back as it was exactly when it is normal: canonical GUIDs, and nothing its kind does not carry. */
  lemma RoundTripIffNormal(w: Wrapper)
    requires |Encoded(w)| < TWO_64 && KnownKind(w.kind)
    ensures Decoded(Encoded(w)) == Some(w) <==> Normal(w) == w
  {
    MessageRoundTrip(w);
  }

  /** A GUID is canonical, and so kept, exactly when it is lower case text of the right shape. */
  lemma CanonicalIff(guid: string)
    ensures Canonical(guid) == guid <==> Parses(guid) && Lowered(guid) == guid
  {
    hide Parses, Format;
    if !Parses(guid) {
      ParseFormatted(WordBytes(0, 16));
    }
  }
}
