/**
 Variables kept in a savegame (src/savegame.cpp): grouped by their owner when
 written, one node for each owner and variable, and read back.
*/
module Savegame {
  import opened BitStrings
  import Guid
  import opened Numbers
  import opened Sequences
  import opened Spelling
  import opened Wrappers

  const INLINE := 15
  const TOP_BIT := 0x8000_0000

  // ---- the engine's strings ----

  /** The bytes up to the first zero: what is left of a text passed as a C string. */
  function Interned(text: Text): Text {
    text[..FirstFrom(text, 0, 0)]
  }

  function WithTopBit(size: nat): nat
    requires size < TWO_32
  {
    if size < TOP_BIT then size + TOP_BIT else size
  }

  /** Sixteen bytes: the text and its length, or where it is, its size and a capacity with the top bit set. */
  function MakeRaw(text: Text, at: nat): (raw: seq<byte>)
    ensures |raw| == 16
  {
    if |text| <= INLINE then text + seq(INLINE - |text|, _ => 0) + [|text|]
    else
      Sizes();
      Le(at, 8) + Le(|text|, 4) + Le(WithTopBit(|text| % TWO_32), 4)
  }

  /** The text of such a string, by the buffers there are. */
  function ReadRaw(memory: map<nat, Text>, raw: seq<byte>): Text
    requires |raw| == 16
  {
    if raw[15] < 128 then raw[..raw[15] % 16]
    else
      var at, size := Number(raw, 0, 8), Number(raw, 8, 4);
      if at != 0 && at in memory && size <= |memory[at]| then memory[at][..size] else []
  }

  /** A long text is cut to the size that its four bytes hold. */
  function Kept(text: Text): Text {
    if |text| < TWO_32 then text else text[..|text| % TWO_32]
  }

  lemma LastByte(v: nat)
    requires v < TWO_32
    ensures Le(v, 4)[3] == v / 0x100_0000
  {
    Sizes();
    SmallModulo(v, TWO_32);
    var a, b, c := v / 256, v / 256 / 256, v / 256 / 256 / 256;
    assert Guid.WordBytes(v, 4) == [v % 256] + Guid.WordBytes(a, 3);
    assert Guid.WordBytes(a, 3) == [a % 256] + Guid.WordBytes(b, 2);
    assert Guid.WordBytes(b, 2) == [b % 256] + Guid.WordBytes(c, 1);
    assert Guid.WordBytes(c, 1) == [c % 256];
  }

  lemma LongRaw(text: Text, at: nat)
    requires |text| > INLINE && at < TWO_32 * TWO_32
    ensures var raw := MakeRaw(text, at);
      raw[15] >= 128 && Number(raw, 0, 8) == at && Number(raw, 8, 4) == |text| % TWO_32
  {
    Sizes();
    Pow2Adds(32, 32);
    var place, size, capacity := Le(at, 8), Le(|text|, 4), Le(WithTopBit(|text| % TWO_32), 4);
    var raw := MakeRaw(text, at);
    LastByte(WithTopBit(|text| % TWO_32));
    assert raw[15] == capacity[3];
    hide Number, Le;
    assert raw == [] + place + (size + capacity);
    NumberWritten([], at, 8, size + capacity);
    SmallModulo(at, Pow2(64));
    assert raw == place + size + capacity;
    NumberWritten(place, |text|, 4, capacity);
  }

  /** A string is read as it was made, on both sides of the inline limit, exactly if its size fits four bytes. */
  lemma RawReadsIff(memory: map<nat, Text>, text: Text, at: nat)
    requires 0 < at < TWO_32 * TWO_32 && at in memory && memory[at] == text
    ensures ReadRaw(memory, MakeRaw(text, at)) == Kept(text)
    ensures ReadRaw(memory, MakeRaw(text, at)) == text <==> |text| < TWO_32
  {
    if |text| <= INLINE {
      ShortReads(memory, text, at);
    } else {
      LongRaw(text, at);
      KeptIff(text);
      hide MakeRaw, Number, TWO_32;
      if |text| < TWO_32 {
        SmallModulo(|text|, TWO_32);
      }
    }
  }

  lemma ShortReads(memory: map<nat, Text>, text: Text, at: nat)
    requires |text| <= INLINE
    ensures ReadRaw(memory, MakeRaw(text, at)) == text == Kept(text)
  {
    var raw := MakeRaw(text, at);
    assert raw[15] == |text| && raw[..|text|] == text;
  }

  lemma KeptIff(text: Text)
    ensures Kept(text) == text <==> |text| < TWO_32
    ensures |Kept(text)| == |text| % TWO_32 && Kept(text) == text[..|text| % TWO_32]
  {
    if |text| < TWO_32 {
      SmallModulo(|text|, TWO_32);
      assert text[..|text|] == text;
    } else {
      assert |text| % TWO_32 < TWO_32;
    }
  }

  // ---- variables and nodes ----

  /** A double, by its eight bytes. */
  type Double = d: seq<byte> | |d| == 8 witness [0, 0, 0, 0, 0, 0, 0, 0]

  const ZERO: Double := [0, 0, 0, 0, 0, 0, 0, 0]

  datatype Variable = Variable(
    owner: Text, name: Text, kind: byte, flag: bool, number: int, double: Double, text: Text)

  /** A variable's value as the savegame keeps it. */
  datatype Value = Flag(flag: bool) | Whole(number: int) | Fraction(double: Double) | Letters(text: Text) | Nothing

  datatype VariableNode = VariableNode(name: Text, kind: byte, value: Value)

  datatype OwnerNode<G> = OwnerNode(guid: G, variables: seq<VariableNode>)

  /** The guids that owners are kept as: what parses, and how one is written out. */
  datatype Guids<!G> = Guids(parse: Text -> Option<G>, format: G -> Text)

  function Blank(owner: Text, name: Text, kind: byte): Variable {
    Variable(owner, name, kind, false, 0, ZERO, [])
  }

  function Written(v: Variable): VariableNode {
    VariableNode(Interned(v.name), v.kind,
      match v.kind
      case 1 => Whole(v.number)
      case 2 => Fraction(v.double)
      case 3 => Letters(Interned(v.text))
      case 4 => Letters(Kept(v.text))
      case 5 => Flag(v.flag)
      case _ => Nothing)
  }

  /** A node's variable; none if it has no type, or is a table whose bytes cannot be read. */
  function Read(owner: Text, node: VariableNode): Option<Variable> {
    var blank := Blank(owner, node.name, node.kind);
    match node.kind
    case 0 => None
    case 1 => Some(blank.(number := if node.value.Whole? then node.value.number else 0))
    case 2 => Some(blank.(double := if node.value.Fraction? then node.value.double else ZERO))
    case 3 => Some(blank.(text := if node.value.Letters? then node.value.text else []))
    case 4 => Some(blank.(text := if node.value.Letters? then node.value.text else []))
    case 5 => Some(blank.(flag := node.value.Flag? && node.value.flag))
    case 6 => if node.value.Letters? then Some(blank.(text := node.value.text)) else None
    case _ => Some(blank)
  }

  function ReadAll(owner: Text, nodes: seq<VariableNode>): seq<Variable> {
    if nodes == [] then []
    else
      var last := Read(owner, nodes[|nodes| - 1]);
      ReadAll(owner, nodes[..|nodes| - 1]) + (if last.Some? then [last.value] else [])
  }

  // ---- groups ----

  /** The variables of one owner, in their order. */
  function Of(vars: seq<Variable>, owner: Text): seq<Variable> {
    if vars == [] then []
    else
      var last := vars[|vars| - 1];
      Of(vars[..|vars| - 1], owner) + (if last.owner == owner then [last] else [])
  }

  /** The owners, in the order they first appear. */
  function Owners(vars: seq<Variable>): seq<Text> {
    if vars == [] then []
    else
      var owners, last := Owners(vars[..|vars| - 1]), vars[|vars| - 1].owner;
      if last in owners then owners else owners + [last]
  }

  datatype Group = Group(owner: Text, variables: seq<Variable>)

  function Groups(vars: seq<Variable>): seq<Group> {
    seq(|Owners(vars)|, i requires 0 <= i < |Owners(vars)| => Group(Owners(vars)[i], Of(vars, Owners(vars)[i])))
  }

  lemma {:induction false} OwnersOk(vars: seq<Variable>)
    ensures Distinct(Owners(vars))
    ensures forall owner :: owner in Owners(vars) <==> Of(vars, owner) != []
  {
    if vars != [] {
      OwnersOk(vars[..|vars| - 1]);
    }
  }

  lemma {:induction false} OfOwner(vars: seq<Variable>, owner: Text)
    ensures forall v :: v in Of(vars, owner) ==> v.owner == owner
  {
    if vars != [] {
      OfOwner(vars[..|vars| - 1], owner);
    }
  }

  /** One more variable joins its owner's group, or begins a new one. */
  lemma OneMore(vars: seq<Variable>, v: Variable)
    ensures var owners := Owners(vars);
      && Owners(vars + [v]) == (if v.owner in owners then owners else owners + [v.owner])
      && forall owner :: Of(vars + [v], owner) == Of(vars, owner) + (if v.owner == owner then [v] else [])
  {
    assert (vars + [v])[..|vars|] == vars;
  }

  lemma NoneOf(vars: seq<Variable>, owner: Text)
    requires owner !in Owners(vars)
    ensures Of(vars, owner) == []
  {
    OwnersOk(vars);
  }

  /** The groups with one more variable: in its owner's, which is `i`, or in a new one. */
  lemma GroupsWith(vars: seq<Variable>, v: Variable, i: nat)
    requires i <= |Groups(vars)| && (i < |Groups(vars)| ==> Groups(vars)[i].owner == v.owner)
    requires i == |Groups(vars)| ==> forall k :: 0 <= k < |Groups(vars)| ==> Groups(vars)[k].owner != v.owner
    ensures var groups := if i == |Groups(vars)| then Groups(vars) + [Group(v.owner, [])] else Groups(vars);
      Groups(vars + [v]) == groups[i := Group(v.owner, groups[i].variables + [v])]
  {
    OneMore(vars, v);
    OwnersOk(vars);
    var owners := Owners(vars);
    hide Owners, Of;
    forall k | 0 <= k < |owners|
      ensures Groups(vars)[k].owner == owners[k]
    {
    }
    if i == |owners| {
      NoneOf(vars, v.owner);
    } else {
      assert owners[i] == v.owner;
    }
    var groups := if i == |Groups(vars)| then Groups(vars) + [Group(v.owner, [])] else Groups(vars);
    var groups' := groups[i := Group(v.owner, groups[i].variables + [v])];
    forall k | 0 <= k < |groups'|
      ensures Groups(vars + [v])[k] == groups'[k]
    {
      assert k != i ==> owners[k] != v.owner;
      assert k != i ==> Of(vars, owners[k]) + [] == Of(vars, owners[k]);
    }
  }

  /** The variables by their owners, as they are grouped one after the other. */
  method GroupByOwner(vars: seq<Variable>) returns (grouped: seq<Group>)
    ensures grouped == Groups(vars)
  {
    grouped := [];
    for n := 0 to |vars|
      invariant grouped == Groups(vars[..n])
    {
      var v := vars[n];
      assert vars[..n + 1] == vars[..n] + [v];
      var i := FindOwner(grouped, v.owner);
      GroupsWith(vars[..n], v, i);
      if i == |grouped| {
        grouped := grouped + [Group(v.owner, [])];
      }
      grouped := grouped[i := Group(v.owner, grouped[i].variables + [v])];
    }
    assert vars[..|vars|] == vars;
  }

  method FindOwner(grouped: seq<Group>, owner: Text) returns (i: nat)
    ensures i <= |grouped| && (i < |grouped| ==> grouped[i].owner == owner)
    ensures i == |grouped| ==> forall k :: 0 <= k < |grouped| ==> grouped[k].owner != owner
  {
    i := 0;
    while i < |grouped| && grouped[i].owner != owner
      invariant i <= |grouped| && forall k :: 0 <= k < i ==> grouped[k].owner != owner
    {
      i := i + 1;
    }
  }

  // ---- writing and reading ----

  function WrittenAll(vars: seq<Variable>): (r: seq<VariableNode>)
    ensures |r| == |vars|
  {
    seq(|vars|, i requires 0 <= i < |vars| => Written(vars[i]))
  }

  function WrittenGroups<G>(guids: Guids<G>, groups: seq<Group>): seq<OwnerNode<G>> {
    if groups == [] then []
    else
      var last := groups[|groups| - 1];
      var guid := guids.parse(last.owner);
      WrittenGroups(guids, groups[..|groups| - 1])
      + (if guid.Some? then [OwnerNode(guid.value, WrittenAll(last.variables))] else [])
  }

  function ReadNodes<G>(guids: Guids<G>, nodes: seq<OwnerNode<G>>): seq<Variable> {
    if nodes == [] then []
    else
      var last := nodes[|nodes| - 1];
      ReadNodes(guids, nodes[..|nodes| - 1]) + ReadAll(guids.format(last.guid), last.variables)
  }

  /** The owner nodes a savegame is written with; an owner that is no guid is left out. */
  method WriteOwned<G>(guids: Guids<G>, vars: seq<Variable>) returns (nodes: seq<OwnerNode<G>>)
    ensures nodes == WrittenGroups(guids, Groups(vars))
  {
    var grouped := GroupByOwner(vars);
    nodes := [];
    for i := 0 to |grouped|
      invariant nodes == WrittenGroups(guids, grouped[..i])
    {
      assert grouped[..i + 1][..i] == grouped[..i];
      var guid := guids.parse(grouped[i].owner);
      if guid == None {
        continue;
      }
      var list: seq<VariableNode> := [];
      for k := 0 to |grouped[i].variables|
        invariant list == WrittenAll(grouped[i].variables[..k])
      {
        list := list + [Written(grouped[i].variables[k])];
      }
      assert grouped[i].variables[..|grouped[i].variables|] == grouped[i].variables;
      nodes := nodes + [OwnerNode(guid.value, list)];
    }
    assert grouped[..|grouped|] == grouped;
  }

  /** The variables of the owner nodes, in the order of the nodes. */
  method ReadOwned<G>(guids: Guids<G>, nodes: seq<OwnerNode<G>>) returns (vars: seq<Variable>)
    ensures vars == ReadNodes(guids, nodes)
  {
    vars := [];
    for i := 0 to |nodes|
      invariant vars == ReadNodes(guids, nodes[..i])
    {
      assert nodes[..i + 1][..i] == nodes[..i];
      var owner := guids.format(nodes[i].guid);
      ghost var before := vars;
      for k := 0 to |nodes[i].variables|
        invariant vars == before + ReadAll(owner, nodes[i].variables[..k])
      {
        assert nodes[i].variables[..k + 1][..k] == nodes[i].variables[..k];
        var v := Read(owner, nodes[i].variables[k]);
        if v.Some? {
          vars := vars + [v.value];
        }
      }
      assert nodes[i].variables[..|nodes[i].variables|] == nodes[i].variables;
    }
    assert nodes[..|nodes|] == nodes;
  }

  // ---- round trip ----

  /** The variable that is read for one that was written, under the owner's guid as it is written out. */
  function Again(owner: Text, v: Variable): Option<Variable> {
    Read(owner, Written(v))
  }

  /** A variable that is read back as it was: its kind is written, and no text is cut. */
  predicate Lasts(v: Variable) {
    && v.kind != 0 && v.kind != 6 && 0 !in v.name
    && (v.kind == 3 ==> 0 !in v.text) && (v.kind == 4 ==> |v.text| < TWO_32)
  }

  /** What a variable's kind makes its value. */
  function ValueOf(v: Variable): Value {
    match v.kind
    case 1 => Whole(v.number)
    case 2 => Fraction(v.double)
    case 3 => Letters(v.text)
    case 4 => Letters(v.text)
    case 5 => Flag(v.flag)
    case _ => Nothing
  }

  lemma CutIff(text: Text)
    ensures Interned(text) == text <==> 0 !in text
  {
    if 0 !in text {
      FirstUnique(text, 0, 0, |text|);
    }
  }

  /** Exactly the variables that last are read back with their owner, name, kind and value. */
  lemma LastsIff(owner: Text, v: Variable)
    ensures (Again(owner, v).Some? && SameVariable(v, Again(owner, v).value)) <==> Lasts(v) && owner == v.owner
  {
    CutIff(v.name);
    CutIff(v.text);
    KeptIff(v.text);
    hide Interned, Kept;
  }

  /** Types without a value of their own: none is read back for 0 and 6, and for the rest the name alone. */
  lemma OtherKinds(owner: Text, v: Variable)
    requires !(1 <= v.kind <= 5)
    ensures Again(owner, v) ==
      if v.kind == 0 || v.kind == 6 then None else Some(Blank(owner, Interned(v.name), v.kind))
  {
  }

  /** `r` is `v` as it is read back. */
  predicate SameVariable(v: Variable, r: Variable) {
    r.owner == v.owner && r.name == v.name && r.kind == v.kind && ValueOf(r) == ValueOf(v)
  }

  predicate SameVariables(vars: seq<Variable>, read: seq<Variable>) {
    |read| == |vars| && forall i :: 0 <= i < |vars| ==> SameVariable(vars[i], read[i])
  }

  /** The groups of the owners that are guids, one after the other. */
  function Grouped<G>(guids: Guids<G>, groups: seq<Group>): seq<Variable> {
    if groups == [] then []
    else
      var last := groups[|groups| - 1];
      Grouped(guids, groups[..|groups| - 1]) + (if guids.parse(last.owner).Some? then last.variables else [])
  }

  /** Owners that are guids are written as `format` writes them. */
  predicate Canonical<G>(guids: Guids<G>, owner: Text) {
    guids.parse(owner).Some? ==> guids.format(guids.parse(owner).value) == owner
  }

  /** What is read back of an owner's variables, in their order. */
  function AgainAll(owner: Text, vars: seq<Variable>): seq<Variable> {
    if vars == [] then []
    else
      var last := Again(owner, vars[|vars| - 1]);
      AgainAll(owner, vars[..|vars| - 1]) + (if last.Some? then [last.value] else [])
  }

  /** What is read back of groups: of each owner that is a guid its variables, under the guid as it is written out. */
  function GroupsAgain<G>(guids: Guids<G>, groups: seq<Group>): seq<Variable> {
    if groups == [] then []
    else
      var last := groups[|groups| - 1];
      var guid := guids.parse(last.owner);
      GroupsAgain(guids, groups[..|groups| - 1])
      + (if guid.Some? then AgainAll(guids.format(guid.value), last.variables) else [])
  }

  lemma {:induction false} VariablesReadBack(owner: Text, vars: seq<Variable>)
    ensures ReadAll(owner, WrittenAll(vars)) == AgainAll(owner, vars)
  {
    hide Written, Read;
    if vars != [] {
      var n := |vars| - 1;
      VariablesReadBack(owner, vars[..n]);
      assert WrittenAll(vars)[..n] == WrittenAll(vars[..n]);
    }
  }

  /**
   Whatever is written, what is read back of it: owner by owner in the order of
   the groups, without the owners that are no guid, and each variable as its
   own kind, name and value come back.
  */
  lemma {:induction false} GroupsReadBack<G>(guids: Guids<G>, groups: seq<Group>)
    ensures ReadNodes(guids, WrittenGroups(guids, groups)) == GroupsAgain(guids, groups)
  {
    hide ReadAll, WrittenAll, AgainAll;
    if groups != [] {
      var n := |groups| - 1;
      GroupsReadBack(guids, groups[..n]);
      var last := groups[n];
      var nodes := WrittenGroups(guids, groups);
      if guids.parse(last.owner).Some? {
        VariablesReadBack(guids.format(guids.parse(last.owner).value), last.variables);
        assert nodes[..|nodes| - 1] == WrittenGroups(guids, groups[..n]);
      } else {
        assert nodes == WrittenGroups(guids, groups[..n]);
      }
    }
  }

  lemma {:induction false} VariablesRead(owner: Text, vars: seq<Variable>)
    requires forall i :: 0 <= i < |vars| ==> Lasts(vars[i]) && vars[i].owner == owner
    ensures SameVariables(vars, AgainAll(owner, vars))
  {
    hide Lasts, Again, SameVariable;
    if vars != [] {
      var n := |vars| - 1;
      VariablesRead(owner, vars[..n]);
      LastsIff(owner, vars[n]);
    }
  }

  predicate GroupLasts(g: Group) {
    forall k :: 0 <= k < |g.variables| ==> Lasts(g.variables[k]) && g.variables[k].owner == g.owner
  }

  lemma NoVariables()
    ensures SameVariables([], [])
  {
  }

  lemma SameBoth(a: seq<Variable>, b: seq<Variable>, c: seq<Variable>, d: seq<Variable>)
    requires SameVariables(a, b) && SameVariables(c, d)
    ensures SameVariables(a + c, b + d)
  {
    hide SameVariable;
  }

  lemma {:induction false} GroupsRead<G>(guids: Guids<G>, groups: seq<Group>)
    requires forall i :: 0 <= i < |groups| ==> Canonical(guids, groups[i].owner)
    requires forall i :: 0 <= i < |groups| ==> GroupLasts(groups[i])
    ensures SameVariables(Grouped(guids, groups), GroupsAgain(guids, groups))
  {
    hide Lasts, SameVariables, AgainAll;
    NoVariables();
    if groups != [] {
      var n := |groups| - 1;
      GroupsRead(guids, groups[..n]);
      var last := groups[n];
      if guids.parse(last.owner).Some? {
        VariablesRead(last.owner, last.variables);
        SameBoth(Grouped(guids, groups[..n]), GroupsAgain(guids, groups[..n]),
                 last.variables, AgainAll(last.owner, last.variables));
      } else {
        assert Grouped(guids, groups) == Grouped(guids, groups[..n]);
        assert GroupsAgain(guids, groups) == GroupsAgain(guids, groups[..n]);
      }
    }
  }

  /**
   A savegame gives back the variables of the owners that are guids, with their
   names, kinds and values, grouped by owner in the order owners first appear
   and each owner's in their order.
  */
  lemma SavegameReads<G>(guids: Guids<G>, vars: seq<Variable>)
    requires forall i :: 0 <= i < |vars| ==> Lasts(vars[i]) && Canonical(guids, vars[i].owner)
    ensures SameVariables(Grouped(guids, Groups(vars)), ReadNodes(guids, WrittenGroups(guids, Groups(vars))))
  {
    hide Lasts, SameVariables, Canonical, Grouped, ReadNodes, WrittenGroups, GroupsAgain;
    var groups := Groups(vars);
    OwnersOk(vars);
    forall i | 0 <= i < |groups|
      ensures Canonical(guids, groups[i].owner) && GroupLasts(groups[i])
    {
      var owner := Owners(vars)[i];
      assert owner in Owners(vars);
      OfOwner(vars, owner);
      OfFrom(vars, owner);
      var first := Of(vars, owner)[0];
      assert first in Of(vars, owner) && first in vars;
      forall k | 0 <= k < |Of(vars, owner)|
        ensures Lasts(Of(vars, owner)[k]) && Of(vars, owner)[k].owner == owner
      {
        assert Of(vars, owner)[k] in Of(vars, owner) && Of(vars, owner)[k] in vars;
      }
    }
    GroupsRead(guids, groups);
    GroupsReadBack(guids, groups);
  }

  lemma {:induction false} OfFrom(vars: seq<Variable>, owner: Text)
    ensures forall v :: v in Of(vars, owner) ==> v in vars
  {
    if vars != [] {
      OfFrom(vars[..|vars| - 1], owner);
    }
  }

  // ---- by the bytes and kinds ----

  /**
   A text of up to fifteen bytes is in the string itself, zeros behind it and
   its length last; of a longer one it has the address in eight bytes, the
   size in four, and the size with its top bit set in four.
  */
  lemma RawLaw(text: Text, at: nat)
    requires at < TWO_32 * TWO_32 && |text| < TWO_32
    ensures var raw := MakeRaw(text, at);
      if |text| <= 15 then
        raw[..|text|] == text && (forall i :: |text| <= i < 15 ==> raw[i] == 0) && raw[15] == |text|
      else
        && Eight(raw, 0) == at && Four(raw, 8) == |text|
        && Four(raw, 12) == if |text| < 0x8000_0000 then |text| + 0x8000_0000 else |text|
  {
    if |text| > 15 {
      LongRaw(text, at);
      SmallModulo(|text|, TWO_32);
      CapacityIs(text, at);
      hide MakeRaw, Number;
      EightIs(MakeRaw(text, at), 0);
      FourIs(MakeRaw(text, at), 8);
    }
  }

  lemma CapacityIs(text: Text, at: nat)
    requires 15 < |text| < TWO_32
    ensures Four(MakeRaw(text, at), 12) == WithTopBit(|text|)
  {
    Sizes();
    SmallModulo(|text|, TWO_32);
    SmallModulo(WithTopBit(|text|), TWO_32);
    hide Number, Le;
    var front, capacity := Le(at, 8) + Le(|text|, 4), Le(WithTopBit(|text|), 4);
    assert MakeRaw(text, at) == front + capacity + [];
    NumberWritten(front, WithTopBit(|text|), 4, []);
    FourIs(MakeRaw(text, at), 12);
  }

  /** A string with the top bit of its last byte clear is inline, of so many bytes as that byte's low four bits tell. */
  lemma InlineLaw(memory: map<nat, Text>, raw: seq<byte>, size: nat)
    requires |raw| == 16 && size < 16 && raw[15] < 128 && raw[15] % 16 == size
    ensures ReadRaw(memory, raw) == raw[..size]
  {
  }

  /** What a variable's node gives by its type: a value that is not there is zero, false or empty. */
  lemma NodeLaw(owner: Text, name: Text, kind: byte, value: Value)
    ensures var v := Read(owner, VariableNode(name, kind, value));
      && (kind == 0 ==> v == None)
      && (kind == 1 ==> v == Some(Blank(owner, name, 1).(number := if value.Whole? then value.number else 0)))
      && (kind == 2 ==> v == Some(Blank(owner, name, 2).(double := if value.Fraction? then value.double else ZERO)))
      && (kind in {3, 4} ==> v == Some(Blank(owner, name, kind).(text := if value.Letters? then value.text else [])))
      && (kind == 5 ==> v == Some(Blank(owner, name, 5).(flag := value == Flag(true))))
      && (kind == 6 ==> v == if value.Letters? then Some(Blank(owner, name, 6).(text := value.text)) else None)
      && (kind > 6 ==> v == Some(Blank(owner, name, kind)))
    ensures Blank(owner, name, kind) == Variable(owner, name, kind, false, 0, [0, 0, 0, 0, 0, 0, 0, 0], [])
  {
  }
}
