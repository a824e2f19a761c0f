/** Reading the extender's messages back (src/net.cpp), and what survives the trip. */
module NetDecode {
  import opened BitStrings
  import opened Guid
  import opened NetCodec
  import opened Proto
  import opened Wrappers

  // ---- folding fields ----

  function Fold<S>(apply: (S, Field) -> S, st: S, fs: seq<Field>): S
    decreases |fs|
  {
    if fs == [] then st else Fold(apply, apply(st, fs[0]), fs[1..])
  }

  lemma {:induction false} FoldAppend<S>(apply: (S, Field) -> S, st: S, a: seq<Field>, b: seq<Field>)
    ensures Fold(apply, st, a + b) == Fold(apply, Fold(apply, st, a), b)
    decreases |a|
  {
    if a == [] {
      assert a + b == b;
    } else {
      FoldAppend(apply, apply(st, a[0]), a[1..], b);
      assert (a + b)[1..] == a[1..] + b;
    }
  }

  lemma FoldOne<S>(apply: (S, Field) -> S, st: S, f: Field)
    ensures Fold(apply, st, [f]) == apply(st, f) && Fold(apply, st, []) == st
  {
    assert [f][1..] == [];
  }

  /** What the fields still unread make of `st`. */
  function FoldBytes<S>(apply: (S, Field) -> S, st: S, s: seq<byte>): Option<S> {
    var fs :- Fields(s);
    Some(Fold(apply, st, fs))
  }

  lemma FoldStep<S>(apply: (S, Field) -> S, st: S, s: seq<byte>)
    ensures match ReadKey(s)
      case None => FoldBytes(apply, st, s) == Some(st)
      case Some((num, wire, r1)) =>
        var p := ReadPayload(wire, r1);
        FoldBytes(apply, st, s)
        == if p == None then None else FoldBytes(apply, apply(st, Field(num, p.value.0)), p.value.1)
  {
    hide ReadKey, ReadPayload;
    match ReadKey(s)
    case None =>
    case Some((num, wire, r1)) =>
      var p := ReadPayload(wire, r1);
      if p.Some? && Fields(p.value.1).Some? {
        var fs := Fields(p.value.1).value;
        assert ([Field(num, p.value.0)] + fs)[1..] == fs;
      }
  }

  // ---- variables ----

  datatype VarState = VarState(v: UserVar, lo: nat, hi: nat)

  function ApplyVar(st: VarState, f: Field): VarState {
    match f.payload
    case Number(n) =>
      if f.num == 1 then st.(lo := n)
      else if f.num == 2 then st.(hi := n)
      else if f.num == 4 then st.(v := st.v.(kind := Int, i := Signed(n)))
      else if f.num == 9 then st.(v := st.v.(kind := Bool, b := n != 0))
      else if f.num == 8 then st.(v := st.v.(inModule := n == 1))
      else st
    case Fixed64(raw) =>
      if f.num == 5 && |raw| == 8 then st.(v := st.v.(kind := Real, d := raw)) else st
    case Data(bytes) =>
      if f.num == 3 then st.(v := st.v.(key := bytes))
      else if f.num == 6 then st.(v := st.v.(s := bytes, kind := String))
      else if f.num == 7 then st.(v := st.v.(s := bytes, kind := Json))
      else if f.num == 10 then st.(v := st.v.(s := bytes, kind := Binary))
      else st
    case Fixed32(_) => st
  }

  function VarOf(st: VarState): UserVar {
    st.v.(guid := Format(WordBytes(st.lo, 8) + WordBytes(st.hi, 8)))
  }

  function DecodedVar(data: seq<byte>): Option<UserVar> {
    var st :- FoldBytes(ApplyVar, VarState(NoVar(), 0, 0), data);
    Some(VarOf(st))
  }

  method DecodeVar(data: seq<byte>) returns (r: Option<UserVar>)
    ensures r == DecodedVar(data)
  {
    hide ReadKey, ReadPayload, FoldBytes, Format;
    var reader := new Reader(data);
    var v, lo, hi := NoVar(), 0, 0;
    while true
      invariant reader.Valid() && fresh(reader)
      invariant FoldBytes(ApplyVar, VarState(NoVar(), 0, 0), data)
                == FoldBytes(ApplyVar, VarState(v, lo, hi), reader.Rest())
      decreases |reader.Rest()|
    {
      FoldStep(ApplyVar, VarState(v, lo, hi), reader.Rest());
      var more, field, wire := reader.Next();
      if !more {
        break;
      }
      TakenKinds(wire, reader.Rest());
      if field == 1 && wire == 0 {
        var ok, n := reader.TakeVarint();
        if !ok { return None; }
        lo := n;
      } else if field == 2 && wire == 0 {
        var ok, n := reader.TakeVarint();
        if !ok { return None; }
        hi := n;
      } else if field == 3 && wire == 2 {
        var ok, bytes := reader.TakeBytes();
        if !ok { return None; }
        v := v.(key := bytes);
      } else if field == 4 && wire == 0 {
        var ok, n := reader.TakeVarint();
        if !ok { return None; }
        v := v.(kind := Int, i := Signed(n));
      } else if field == 5 && wire == 1 {
        var ok, raw := reader.TakeFixed(8);
        if !ok { return None; }
        v := v.(kind := Real, d := raw);
      } else if (field == 6 || field == 7 || field == 10) && wire == 2 {
        var ok, bytes := reader.TakeBytes();
        if !ok { return None; }
        v := v.(s := bytes, kind := if field == 6 then String else if field == 7 then Json else Binary);
      } else if field == 9 && wire == 0 {
        var ok, n := reader.TakeVarint();
        if !ok { return None; }
        v := v.(kind := Bool, b := n != 0);
      } else if field == 8 && wire == 0 {
        var ok, n := reader.TakeVarint();
        if !ok { return None; }
        v := v.(inModule := n == 1);
      } else {
        var ok := reader.Skip(wire);
        if !ok { return None; }
      }
    }
    var guid := FormatGuid(WordBytes(lo, 8) + WordBytes(hi, 8));
    return Some(v.(guid := guid));
  }

  /** What a reader's other methods read is the payload of their wire type. */
  lemma TakenKinds(wire: nat, s: seq<byte>)
    ensures wire == 0 ==>
      var n := ReadVarint(s);
      ReadPayload(wire, s) == if n == None then None else Some((Number(n.value.0), n.value.1))
    ensures wire == 1 ==> ReadPayload(wire, s) == if |s| < 8 then None else Some((Fixed64(s[..8]), s[8..]))
    ensures ReadPayload(wire, s).Some? ==> Wire(ReadPayload(wire, s).value.0) == wire
  {
  }

  // ---- messages ----

  datatype Envelope = Envelope(kind: nat, body: seq<byte>)

  /** The last field of a kind that is known wins. */
  function ApplyOuter(e: Envelope, f: Field): Envelope {
    if f.payload.Data? && KnownKind(f.num) then Envelope(f.num, f.payload.bytes) else e
  }

  function ApplyPost(w: Wrapper, f: Field): Wrapper {
    match f.payload
    case Data(bytes) =>
      if f.num == 1 then w.(channel := bytes)
      else if f.num == 2 then w.(payload := bytes)
      else if f.num == 3 then w.(mod := bytes)
      else w
    case Number(n) =>
      if f.num == 4 then w.(requestId := n % TWO_32)
      else if f.num == 5 then w.(replyId := n % TWO_32)
      else if f.num == 6 then w.(binary := n == 1)
      else w
    case _ => w
  }

  /** A variable that does not decode is dropped, and the message goes on. */
  function ApplyVars(w: Wrapper, f: Field): Wrapper {
    if f.payload.Data? && f.num == 1 then
      var v := DecodedVar(f.payload.bytes);
      if v == None then w else w.(vars := w.vars + [v.value])
    else w
  }

  function ApplyBody(w: Wrapper, f: Field): Wrapper {
    if w.kind == POST_LUA then ApplyPost(w, f)
    else if w.kind == RESET_LUA then
      if f.num == 1 && f.payload.Number? then w.(bootstrap := f.payload.n != 0) else w
    else if w.kind == HELLO then
      if f.num == 1 && f.payload.Number? then w.(version := f.payload.n % TWO_32) else w
    else if w.kind == KICK then
      if f.num == 1 && f.payload.Data? then w.(kick := f.payload.bytes) else w
    else if w.kind == USER_VARS then ApplyVars(w, f)
    else w
  }

  function Decoded(data: seq<byte>): Option<Wrapper> {
    var e :- FoldBytes(ApplyOuter, Envelope(0, []), data);
    if !KnownKind(e.kind) then None
    else FoldBytes(ApplyBody, NoMessage().(kind := e.kind), e.body)
  }

  method DecodeOuter(data: seq<byte>) returns (r: Option<Envelope>)
    ensures r == FoldBytes(ApplyOuter, Envelope(0, []), data)
    ensures r.Some? ==> r.value.kind < TWO_32
  {
    hide ReadKey, ReadPayload, FoldBytes;
    var outer := new Reader(data);
    var kind: nat, body: seq<byte> := 0, [];
    while true
      invariant outer.Valid() && fresh(outer) && kind < TWO_32
      invariant FoldBytes(ApplyOuter, Envelope(0, []), data)
                == FoldBytes(ApplyOuter, Envelope(kind, body), outer.Rest())
      decreases |outer.Rest()|
    {
      FoldStep(ApplyOuter, Envelope(kind, body), outer.Rest());
      var more, field, wire := outer.Next();
      if !more {
        break;
      }
      TakenKinds(wire, outer.Rest());
      if wire == 2 && (field == POST_LUA || field == RESET_LUA || field == HELLO
                       || field == KICK || field == USER_VARS) {
        var ok, bytes := outer.TakeBytes();
        if !ok { return None; }
        kind, body := field, bytes;
      } else {
        var ok := outer.Skip(wire);
        if !ok { return None; }
      }
    }
    return Some(Envelope(kind, body));
  }

  /** One field of the body, of the message's kind or passed over. */
  method DecodeField(r: Reader, w: Wrapper, field: nat, wire: nat) returns (ok: bool, w': Wrapper)
    requires r.Valid() && KnownKind(w.kind)
    modifies r
    ensures r.Valid() && w'.kind == w.kind
    ensures match ReadPayload(wire, old(r.Rest()))
      case None => !ok
      case Some((p, rest)) => ok && r.Rest() == rest && w' == ApplyBody(w, Field(field, p))
  {
    hide ReadPayload, DecodedVar;
    TakenKinds(wire, r.Rest());
    w' := w;
    var n, bytes := 0, [];
    if wire == 2 && ((w.kind == POST_LUA && 1 <= field <= 3) || (w.kind == KICK && field == 1)
                     || (w.kind == USER_VARS && field == 1)) {
      ok, bytes := r.TakeBytes();
      if !ok { return; }
      if w.kind == POST_LUA {
        w' := if field == 1 then w.(channel := bytes)
              else if field == 2 then w.(payload := bytes)
              else w.(mod := bytes);
      } else if w.kind == KICK {
        w' := w.(kick := bytes);
      } else {
        var v := DecodeVar(bytes);
        if v.Some? {
          w' := w.(vars := w.vars + [v.value]);
        }
      }
    } else if wire == 0 && ((w.kind == POST_LUA && 4 <= field <= 6) || (w.kind == RESET_LUA && field == 1)
                            || (w.kind == HELLO && field == 1)) {
      ok, n := r.TakeVarint();
      if !ok { return; }
      if w.kind == POST_LUA {
        w' := if field == 4 then w.(requestId := n % TWO_32) else if field == 5 then w.(replyId := n % TWO_32)
              else w.(binary := n == 1);
      } else if w.kind == RESET_LUA {
        w' := w.(bootstrap := n != 0);
      } else {
        w' := w.(version := n % TWO_32);
      }
    } else {
      ok := r.Skip(wire);
    }
  }

  method Decode(data: seq<byte>) returns (r: Option<Wrapper>)
    ensures r == Decoded(data)
  {
    hide ReadKey, ReadPayload, FoldBytes, ApplyBody;
    var e := DecodeOuter(data);
    if e == None || e.value.kind == 0 {
      return None;
    }
    OuterKinds(data);
    var reader := new Reader(e.value.body);
    var w := NoMessage().(kind := e.value.kind);
    ghost var w0 := w;
    while true
      invariant reader.Valid() && fresh(reader) && KnownKind(w.kind)
      invariant FoldBytes(ApplyBody, w0, e.value.body) == FoldBytes(ApplyBody, w, reader.Rest())
      decreases |reader.Rest()|
    {
      FoldStep(ApplyBody, w, reader.Rest());
      var more, field, wire := reader.Next();
      if !more {
        break;
      }
      var ok, w' := DecodeField(reader, w, field, wire);
      if !ok {
        return None;
      }
      w := w';
    }
    return Some(w);
  }

  /** The outer fields leave no kind, or one that is known. */
  lemma OuterKinds(data: seq<byte>)
    ensures var e := FoldBytes(ApplyOuter, Envelope(0, []), data);
      e.Some? ==> e.value.kind == 0 || KnownKind(e.value.kind)
  {
    if Fields(data).Some? {
      OuterKindsFrom(Envelope(0, []), Fields(data).value);
    }
  }

  lemma {:induction false} OuterKindsFrom(e: Envelope, fs: seq<Field>)
    requires e.kind == 0 || KnownKind(e.kind)
    ensures var r := Fold(ApplyOuter, e, fs); r.kind == 0 || KnownKind(r.kind)
    decreases |fs|
  {
    if fs != [] {
      OuterKindsFrom(ApplyOuter(e, fs[0]), fs[1..]);
    }
  }
}
