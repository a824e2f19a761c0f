/**
 The groups the case fixer keeps (src/pak_fix.cpp): a union-find forest over
 numbered groups, each root holding what the ids of its tree are spelled and
 pinned as. The log of what was found says what each must hold.
*/
module Grouping {
  import opened References
  import opened Scanning
  import opened Spelling
  import opened Unification

  datatype Group = Group(occurrences: seq<Occurrence>, directory: bool, pin: Text, pinConflict: bool)

  /**
   The groups, their parents and the ids' numbers; and for the statements
   below: the root of every group, a rank that grows along parents, and the
   id of every number.
  */
  datatype State = State(
    groups: seq<Group>,
    parent: seq<nat>,
    ids: map<Id, nat>,
    root: seq<nat>,
    rank: seq<nat>,
    bound: nat,
    owner: seq<Id>)

  function EmptyGroup(): Group {
    Group([], false, [], false)
  }

  // ---- the forest ----

  predicate InForest(parent: seq<nat>, root: seq<nat>, rank: seq<nat>, bound: nat) {
    && |root| == |parent| && |rank| == |parent|
    && (forall g :: 0 <= g < |parent| ==> parent[g] < |parent| && root[g] < |parent| && rank[g] <= bound)
  }

  predicate NodeOk(parent: seq<nat>, root: seq<nat>, rank: seq<nat>, g: nat)
    requires |root| == |parent| && |rank| == |parent| && g < |parent| && parent[g] < |parent| && root[g] < |parent|
  {
    && root[parent[g]] == root[g] && root[root[g]] == root[g]
    && (parent[g] == g <==> root[g] == g)
    && (parent[g] != g ==> rank[g] < rank[parent[g]])
  }

  /** Parents lead to the root, and ranks grow on the way. */
  predicate ForestOk(parent: seq<nat>, root: seq<nat>, rank: seq<nat>, bound: nat) {
    && InForest(parent, root, rank, bound)
    && forall g :: 0 <= g < |parent| ==> NodeOk(parent, root, rank, g)
  }

  /** Halving a path changes no root. */
  lemma HalvingOk(parent: seq<nat>, root: seq<nat>, rank: seq<nat>, bound: nat, g: nat)
    requires ForestOk(parent, root, rank, bound) && g < |parent| && parent[g] != g
    ensures ForestOk(parent[g := parent[parent[g]]], root, rank, bound)
  {
    var h := parent[g];
    var parent' := parent[g := parent[h]];
    assert NodeOk(parent, root, rank, g) && NodeOk(parent, root, rank, h);
    assert NodeOk(parent', root, rank, g);
    forall n | 0 <= n < |parent|
      ensures NodeOk(parent', root, rank, n)
    {
      assert NodeOk(parent, root, rank, n);
    }
    hide NodeOk;
  }

  /** The roots with the tree of `rb` put under `ra`. */
  function Rerooted(root: seq<nat>, ra: nat, rb: nat): (r: seq<nat>)
    ensures |r| == |root| && forall g :: 0 <= g < |root| ==> r[g] == if root[g] == rb then ra else root[g]
  {
    seq(|root|, g requires 0 <= g < |root| => if root[g] == rb then ra else root[g])
  }

  function Max(a: nat, b: nat): nat {
    if a < b then b else a
  }

  lemma JoinedNode(parent: seq<nat>, root: seq<nat>, rank: seq<nat>, bound: nat, ra: nat, rb: nat, g: nat)
    requires InForest(parent, root, rank, bound) && ra < |parent| && rb < |parent| && ra != rb && g < |parent|
    requires root[ra] == ra && root[rb] == rb && NodeOk(parent, root, rank, g) && NodeOk(parent, root, rank, ra)
    ensures NodeOk(parent[rb := ra], Rerooted(root, ra, rb), rank[ra := Max(rank[ra], rank[rb] + 1)], g)
  {
    assert parent[g] < |parent| && root[g] < |parent| && parent[ra] == ra;
  }

  lemma JoiningOk(parent: seq<nat>, root: seq<nat>, rank: seq<nat>, bound: nat, ra: nat, rb: nat)
    requires ForestOk(parent, root, rank, bound) && ra < |parent| && rb < |parent| && ra != rb
    requires root[ra] == ra && root[rb] == rb
    ensures var top := Max(rank[ra], rank[rb] + 1);
      ForestOk(parent[rb := ra], Rerooted(root, ra, rb), rank[ra := top], Max(bound, top))
  {
    var top := Max(rank[ra], rank[rb] + 1);
    var parent', root', rank' := parent[rb := ra], Rerooted(root, ra, rb), rank[ra := top];
    hide NodeOk, Rerooted;
    assert InForest(parent', root', rank', Max(bound, top));
    forall g | 0 <= g < |parent|
      ensures NodeOk(parent', root', rank', g)
    {
      JoinedNode(parent, root, rank, bound, ra, rb, g);
    }
  }

  // ---- groups and the log ----

  ghost function Members(s: State, g: nat): set<Id> {
    set id | id in s.ids && s.ids[id] < |s.root| && s.root[s.ids[id]] == g
  }

  ghost function OccsOf(log: seq<Event>, members: set<Id>): set<Occurrence> {
    set e | e in log && e.Occ? && e.id in members :: e.at
  }

  ghost function PinsOf(x: Archive, log: seq<Event>, members: set<Id>): set<Text> {
    set e | e in log && (e.Own? || e.Fixed?) && e.id in members && PinText(x, e) != [] :: PinText(x, e)
  }

  /** The pin is one of them, and in conflict if there is another. */
  ghost predicate PinsOk(g: Group, pins: set<Text>) {
    && (g.pin == [] <==> pins == {})
    && (g.pin != [] ==> g.pin in pins)
    && (g.pinConflict <==> exists p :: p in pins && p != g.pin)
  }

  function Items<T>(s: seq<T>): set<T> {
    set a | a in s
  }

  ghost predicate GroupOk(x: Archive, log: seq<Event>, g: Group, members: set<Id>) {
    && Items(g.occurrences) == OccsOf(log, members)
    && PinsOk(g, PinsOf(x, log, members))
    && (g.directory <==> exists id :: id in members && id.Dir?)
  }

  predicate IdsOk(s: State) {
    && |s.owner| == |s.groups|
    && (forall g :: 0 <= g < |s.groups| ==> s.owner[g] in s.ids && s.ids[s.owner[g]] == g)
    && (forall id :: id in s.ids ==> s.ids[id] < |s.groups| && s.owner[s.ids[id]] == id)
  }

  predicate LogIds(s: State, log: seq<Event>) {
    forall e :: e in log && !e.Join? ==> e.id in s.ids
  }

  ghost predicate GroupsOk(x: Archive, log: seq<Event>, s: State) {
    forall g: nat :: g < |s.groups| && g < |s.root| && s.root[g] == g ==> GroupOk(x, log, s.groups[g], Members(s, g))
  }

  ghost predicate StateOk(x: Archive, log: seq<Event>, s: State) {
    && |s.groups| == |s.parent|
    && ForestOk(s.parent, s.root, s.rank, s.bound)
    && IdsOk(s) && LogIds(s, log) && GroupsOk(x, log, s)
  }

  function RootOf(s: State, id: Id): nat {
    if id in s.ids && s.ids[id] < |s.root| then s.root[s.ids[id]] else 0
  }

  // ---- steps ----

  function WithOccurrence(g: Group, o: Occurrence): Group {
    g.(occurrences := g.occurrences + [o])
  }

  function WithPin(g: Group, spelling: Text): Group {
    if g.pin == [] then g.(pin := spelling)
    else if g.pin != spelling then g.(pinConflict := true)
    else g
  }

  function Merged(to: Group, from: Group): Group {
    var conflict := to.pinConflict || from.pinConflict;
    Group(
      to.occurrences + from.occurrences,
      to.directory || from.directory,
      if to.pin == [] then from.pin else to.pin,
      conflict || (to.pin != [] && from.pin != [] && from.pin != to.pin))
  }

  lemma OccsOfOne(log: seq<Event>, e: Event, members: set<Id>)
    ensures OccsOf(log + [e], members) ==
      OccsOf(log, members) + (if e.Occ? && e.id in members then {e.at} else {})
  {
    var added := if e.Occ? && e.id in members then {e.at} else {};
    forall o | o in OccsOf(log, members) + added
      ensures o in OccsOf(log + [e], members)
    {
      if o in OccsOf(log, members) {
        var f :| f in log && f.Occ? && f.id in members && f.at == o;
        assert f in log + [e];
      } else {
        assert e in log + [e];
      }
    }
  }

  lemma PinsOfOne(x: Archive, log: seq<Event>, e: Event, members: set<Id>)
    ensures PinsOf(x, log + [e], members) ==
      PinsOf(x, log, members)
      + (if (e.Own? || e.Fixed?) && e.id in members && PinText(x, e) != [] then {PinText(x, e)} else {})
  {
    hide PinText;
    var added := if (e.Own? || e.Fixed?) && e.id in members && PinText(x, e) != [] then {PinText(x, e)} else {};
    forall p | p in PinsOf(x, log, members) + added
      ensures p in PinsOf(x, log + [e], members)
    {
      if p in PinsOf(x, log, members) {
        var f :| f in log && (f.Own? || f.Fixed?) && f.id in members && PinText(x, f) == p && p != [];
        assert f in log + [e];
      } else {
        assert e in log + [e];
      }
    }
  }

  /** A group that an event is not of is as it must be still. */
  lemma OtherGroup(x: Archive, log: seq<Event>, e: Event, g: Group, members: set<Id>)
    requires GroupOk(x, log, g, members) && (e.Join? || e.id !in members)
    ensures GroupOk(x, log + [e], g, members)
  {
    OccsOfOne(log, e, members);
    PinsOfOne(x, log, e, members);
  }

  lemma ItemsAppend<T>(s: seq<T>, t: seq<T>)
    ensures Items(s + t) == Items(s) + Items(t)
  {
  }

  lemma OccurrenceAdded(x: Archive, log: seq<Event>, e: Event, g: Group, members: set<Id>)
    requires GroupOk(x, log, g, members) && e.Occ? && e.id in members
    ensures GroupOk(x, log + [e], WithOccurrence(g, e.at), members)
  {
    hide OccsOf, PinsOf;
    OccsOfOne(log, e, members);
    PinsOfOne(x, log, e, members);
    ItemsAppend(g.occurrences, [e.at]);
    assert Items([e.at]) == {e.at};
  }

  lemma PinAdded(g: Group, pins: set<Text>, spelling: Text)
    requires PinsOk(g, pins) && (spelling == [] ==> g.pin == [])
    ensures PinsOk(WithPin(g, spelling), pins + (if spelling == [] then {} else {spelling}))
    ensures WithPin(g, spelling).occurrences == g.occurrences && WithPin(g, spelling).directory == g.directory
  {
    var pins' := pins + (if spelling == [] then {} else {spelling});
    var g' := WithPin(g, spelling);
    if g.pin != [] && spelling != [] && g.pin != spelling {
      assert spelling in pins' && spelling != g'.pin;
    }
    if g'.pinConflict && g.pinConflict {
      var p :| p in pins && p != g.pin;
      assert p in pins';
    }
  }

  lemma OtherMembers(s: State, g: nat, h: nat, id: Id)
    requires id in Members(s, g) && g != h
    ensures id !in Members(s, h)
  {
  }

  /** An occurrence found of an id, kept by the root of the id's group. */
  lemma AddOk(x: Archive, log: seq<Event>, s: State, e: Event)
    requires StateOk(x, log, s) && e.Occ? && e.id in s.ids
    ensures var r := RootOf(s, e.id);
      r < |s.groups| && StateOk(x, log + [e], s.(groups := s.groups[r := WithOccurrence(s.groups[r], e.at)]))
  {
    var r := RootOf(s, e.id);
    assert s.root[r] == r && e.id in Members(s, r) by { RootIsRoot(s, s.ids[e.id]); }
    var s' := s.(groups := s.groups[r := WithOccurrence(s.groups[r], e.at)]);
    hide ForestOk, GroupOk;
    forall g: nat | g < |s'.groups| && s'.root[g] == g
      ensures GroupOk(x, log + [e], s'.groups[g], Members(s', g))
    {
      assert Members(s', g) == Members(s, g) && GroupOk(x, log, s.groups[g], Members(s, g));
      if g == r {
        OccurrenceAdded(x, log, e, s.groups[g], Members(s, g));
      } else {
        OtherMembers(s, r, g, e.id);
        OtherGroup(x, log, e, s.groups[g], Members(s, g));
      }
    }
    hide Members;
  }

  lemma RootIsRoot(s: State, g: nat)
    requires ForestOk(s.parent, s.root, s.rank, s.bound) && g < |s.parent|
    ensures s.root[g] < |s.parent| && s.root[s.root[g]] == s.root[g]
    ensures s.parent[g] == g <==> s.root[g] == g
  {
    assert NodeOk(s.parent, s.root, s.rank, g);
  }

  lemma StateShape(x: Archive, log: seq<Event>, s: State, id: Id)
    requires StateOk(x, log, s) && id in s.ids
    ensures |s.groups| == |s.parent| == |s.root| == |s.rank| && ForestOk(s.parent, s.root, s.rank, s.bound)
    ensures s.ids[id] < |s.parent| && RootOf(s, id) == s.root[s.ids[id]] && RootOf(s, id) < |s.groups|
    ensures s.root[RootOf(s, id)] == RootOf(s, id)
  {
    RootIsRoot(s, s.ids[id]);
  }

  lemma GroupPinned(x: Archive, log: seq<Event>, e: Event, g: Group, members: set<Id>)
    requires GroupOk(x, log, g, members) && (e.Own? || e.Fixed?) && e.id in members
    requires PinText(x, e) == [] ==> g.pin == []
    ensures GroupOk(x, log + [e], WithPin(g, PinText(x, e)), members)
  {
    hide OccsOf, PinsOf, PinsOk, PinText, WithPin;
    OccsOfOne(log, e, members);
    PinsOfOne(x, log, e, members);
    PinAdded(g, PinsOf(x, log, members), PinText(x, e));
  }

  /** A spelling found for an id, pinned at the root of the id's group. */
  lemma PinOk(x: Archive, log: seq<Event>, s: State, e: Event)
    requires StateOk(x, log, s) && (e.Own? || e.Fixed?) && e.id in s.ids
    requires RootOf(s, e.id) < |s.groups| && (PinText(x, e) == [] ==> s.groups[RootOf(s, e.id)].pin == [])
    ensures var r := RootOf(s, e.id);
      StateOk(x, log + [e], s.(groups := s.groups[r := WithPin(s.groups[r], PinText(x, e))]))
  {
    var r := RootOf(s, e.id);
    assert s.root[r] == r && e.id in Members(s, r) by { RootIsRoot(s, s.ids[e.id]); }
    var s' := s.(groups := s.groups[r := WithPin(s.groups[r], PinText(x, e))]);
    hide ForestOk, GroupOk, PinText, WithPin;
    forall g: nat | g < |s'.groups| && s'.root[g] == g
      ensures GroupOk(x, log + [e], s'.groups[g], Members(s', g))
    {
      assert Members(s', g) == Members(s, g) && GroupOk(x, log, s.groups[g], Members(s, g));
      if g == r {
        GroupPinned(x, log, e, s.groups[g], Members(s, g));
      } else {
        OtherMembers(s, r, g, e.id);
        OtherGroup(x, log, e, s.groups[g], Members(s, g));
      }
    }
    hide Members;
  }

  function WithGroup(s: State, id: Id): State {
    var n := |s.groups|;
    State(s.groups + [Group([], id.Dir?, [], false)], s.parent + [n], s.ids[id := n], s.root + [n], s.rank + [0],
          s.bound, s.owner + [id])
  }

  lemma ForestGrows(parent: seq<nat>, root: seq<nat>, rank: seq<nat>, bound: nat)
    requires ForestOk(parent, root, rank, bound)
    ensures ForestOk(parent + [|parent|], root + [|parent|], rank + [0], bound)
  {
    var n := |parent|;
    forall g | 0 <= g < n + 1
      ensures InForest(parent + [n], root + [n], rank + [0], bound)
      ensures NodeOk(parent + [n], root + [n], rank + [0], g)
    {
      if g < n {
        assert NodeOk(parent, root, rank, g);
      }
    }
  }

  lemma NoneYet(x: Archive, log: seq<Event>, id: Id)
    requires forall e :: e in log && !e.Join? ==> e.id != id
    ensures GroupOk(x, log, Group([], id.Dir?, [], false), {id})
  {
    assert OccsOf(log, {id}) == {};
    assert PinsOf(x, log, {id}) == {};
    assert id in {id};
  }

  /** A new id is a group of its own. */
  lemma NewGroupOk(x: Archive, log: seq<Event>, s: State, id: Id)
    requires StateOk(x, log, s) && id !in s.ids
    ensures StateOk(x, log, WithGroup(s, id))
  {
    var s' := WithGroup(s, id);
    ForestGrows(s.parent, s.root, s.rank, s.bound);
    var n := |s.groups|;
    forall g: nat | g < n + 1 && s'.root[g] == g
      ensures GroupOk(x, log, s'.groups[g], Members(s', g))
    {
      NewMembers(s, id, g);
      if g < n {
        assert GroupOk(x, log, s.groups[g], Members(s, g));
      } else {
        NoneYet(x, log, id);
      }
    }
    hide Members, GroupOk, ForestOk;
  }

  lemma NewMembers(s: State, id: Id, g: nat)
    requires ForestOk(s.parent, s.root, s.rank, s.bound) && |s.groups| == |s.parent| && IdsOk(s)
    requires id !in s.ids && g <= |s.groups|
    ensures Members(WithGroup(s, id), g) == if g < |s.groups| then Members(s, g) else {id}
  {
    hide NodeOk;
  }

  // ---- uniting two groups ----

  function WithUnion(s: State, ra: nat, rb: nat): State
    requires ra < |s.groups| && rb < |s.groups| && |s.parent| == |s.groups| && |s.rank| == |s.groups|
  {
    var top := Max(s.rank[ra], s.rank[rb] + 1);
    s.(groups := s.groups[ra := Merged(s.groups[ra], s.groups[rb])][rb := EmptyGroup()],
       parent := s.parent[rb := ra],
       root := Rerooted(s.root, ra, rb),
       rank := s.rank[ra := top],
       bound := Max(s.bound, top))
  }

  lemma PinsMerged(to: Group, from: Group, pins: set<Text>, more: set<Text>)
    requires PinsOk(to, pins) && PinsOk(from, more)
    ensures PinsOk(Merged(to, from), pins + more)
  {
    var g := Merged(to, from);
    if to.pinConflict {
      var p :| p in pins && p != to.pin;
      assert p in pins + more && to.pin in pins + more;
    }
    if from.pinConflict {
      var p :| p in more && p != from.pin;
      assert p in pins + more && from.pin in pins + more;
    }
    if to.pin != [] && from.pin != [] && from.pin != to.pin {
      assert from.pin in pins + more;
    }
  }

  lemma GroupsMerged(x: Archive, log: seq<Event>, to: Group, from: Group, a: set<Id>, b: set<Id>)
    requires GroupOk(x, log, to, a) && GroupOk(x, log, from, b)
    ensures GroupOk(x, log, Merged(to, from), a + b)
  {
    hide PinsOk, PinText;
    assert OccsOf(log, a + b) == OccsOf(log, a) + OccsOf(log, b);
    assert PinsOf(x, log, a + b) == PinsOf(x, log, a) + PinsOf(x, log, b);
    hide OccsOf, PinsOf;
    ItemsAppend(to.occurrences, from.occurrences);
    PinsMerged(to, from, PinsOf(x, log, a), PinsOf(x, log, b));
    assert forall id :: id in a + b <==> id in a || id in b;
  }

  lemma UnionMembers(s: State, ra: nat, rb: nat, g: nat)
    requires ra < |s.groups| && rb < |s.groups| && ra != rb && |s.parent| == |s.groups| && |s.rank| == |s.groups|
    requires |s.root| == |s.groups| && g < |s.groups| && IdsOk(s)
    ensures Members(WithUnion(s, ra, rb), g) ==
      if g == ra then Members(s, ra) + Members(s, rb) else if g == rb then {} else Members(s, g)
  {
    hide Merged, IdsOk;
  }

  lemma UnionOk(x: Archive, log: seq<Event>, s: State, ra: nat, rb: nat)
    requires StateOk(x, log, s) && ra < |s.groups| && rb < |s.groups| && ra != rb
    requires s.root[ra] == ra && s.root[rb] == rb
    ensures StateOk(x, log, WithUnion(s, ra, rb))
  {
    var s' := WithUnion(s, ra, rb);
    JoiningOk(s.parent, s.root, s.rank, s.bound, ra, rb);
    hide ForestOk, GroupOk, Merged, EmptyGroup;
    forall g: nat | g < |s'.groups| && s'.root[g] == g
      ensures GroupOk(x, log, s'.groups[g], Members(s', g))
    {
      UnionMembers(s, ra, rb, g);
      assert g != rb && s.root[g] == g && GroupOk(x, log, s.groups[g], Members(s, g));
      if g == ra {
        assert GroupOk(x, log, s.groups[rb], Members(s, rb));
        GroupsMerged(x, log, s.groups[ra], s.groups[rb], Members(s, ra), Members(s, rb));
      }
    }
    hide Members;
  }

  // ---- which ids are of one group ----

  /** The groups are as the log says, but that those of `joined` are one already. */
  ghost predicate JoinedSoFar(lows: seq<Text>, log: seq<Event>, s: State, joined: set<Id>) {
    forall a, b :: a in s.ids && b in s.ids ==>
      (RootOf(s, a) == RootOf(s, b) <==> Same(lows, log, a, b) || (a in joined && b in joined))
  }

  ghost predicate ClassesOk(lows: seq<Text>, log: seq<Event>, s: State) {
    forall a, b :: a in s.ids && b in s.ids ==> (RootOf(s, a) == RootOf(s, b) <==> Same(lows, log, a, b))
  }

  /** A stem is of one icon's textures at most, so before they are joined it is alone. */
  lemma AloneUntilJoined(lows: seq<Text>, log: seq<Event>, key: Text, a: Id, b: Id)
    requires a in IconStems(lows, key) && Join(key) !in log
    ensures Same(lows, log, a, b) ==> a == b
    ensures Same(lows, log, b, a) ==> a == b
  {
    hide IconStems, IdSpelling;
    StemsSpell(lows, key, a);
    if a != b && (Same(lows, log, a, b) || Same(lows, log, b, a)) {
      var k :| Join(k) in log && a in IconStems(lows, k) && b in IconStems(lows, k);
      StemsSpell(lows, k, a);
    }
  }

  ghost predicate RootsUnited(s: State, s': State, a: Id, b: Id) {
    && s'.ids == s.ids && |s'.root| == |s.root|
    && s'.root == if RootOf(s, a) == RootOf(s, b) then s.root else Rerooted(s.root, RootOf(s, a), RootOf(s, b))
  }

  lemma RootAfter(s: State, s': State, a: Id, b: Id, c: Id)
    requires RootsUnited(s, s', a, b) && c in s.ids && IdsOk(s) && |s.root| == |s.groups|
    ensures RootOf(s', c) == if RootOf(s, c) == RootOf(s, b) then RootOf(s, a) else RootOf(s, c)
  {
  }

  lemma JoinStep(lows: seq<Text>, log: seq<Event>, s: State, s': State, key: Text, joined: set<Id>, a: Id, b: Id)
    requires JoinedSoFar(lows, log, s, joined) && joined <= IconStems(lows, key) && a in joined
    requires b in IconStems(lows, key) && a in s.ids && b in s.ids && joined <= s.ids.Keys
    requires RootsUnited(s, s', a, b) && IdsOk(s) && |s.root| == |s.groups|
    ensures JoinedSoFar(lows, log, s', joined + {b})
  {
    hide IconStems, RootOf, RootsUnited, IdsOk;
    assert s'.ids == s.ids by { UnitedIds(s, s', a, b); }
    forall c, d | c in s.ids && d in s.ids
      ensures RootOf(s', c) == RootOf(s', d) <==> Same(lows, log, c, d) || (c in joined + {b} && d in joined + {b})
    {
      RootAfter(s, s', a, b, c);
      RootAfter(s, s', a, b, d);
      JoinPair(lows, log, s, key, joined, a, b, c, d);
    }
  }

  lemma UnitedIds(s: State, s': State, a: Id, b: Id)
    requires RootsUnited(s, s', a, b)
    ensures s'.ids == s.ids
  {
  }

  lemma JoinPair(lows: seq<Text>, log: seq<Event>, s: State, key: Text, joined: set<Id>, a: Id, b: Id, c: Id, d: Id)
    requires JoinedSoFar(lows, log, s, joined) && joined <= IconStems(lows, key) && a in joined
    requires b in IconStems(lows, key) && a in s.ids && b in s.ids && joined <= s.ids.Keys && c in s.ids && d in s.ids
    ensures var rc := if RootOf(s, c) == RootOf(s, b) then RootOf(s, a) else RootOf(s, c);
      var rd := if RootOf(s, d) == RootOf(s, b) then RootOf(s, a) else RootOf(s, d);
      rc == rd <==> Same(lows, log, c, d) || (c in joined + {b} && d in joined + {b})
  {
    hide IconStems, RootOf;
    if Join(key) in log {
      AllSame(lows, log, key, joined + {b}, c, d);
      AllSame(lows, log, key, joined + {b}, a, b);
    } else {
      AloneUntilJoined(lows, log, key, b, c);
      AloneUntilJoined(lows, log, key, b, d);
      AloneUntilJoined(lows, log, key, a, c);
      AloneUntilJoined(lows, log, key, a, d);
      hide Same;
      assert RootOf(s, c) == RootOf(s, b) <==> (c == b || (c in joined && b in joined)) by { SelfSame(lows, log, b); }
      assert RootOf(s, d) == RootOf(s, b) <==> (d == b || (d in joined && b in joined)) by { SelfSame(lows, log, b); }
      assert RootOf(s, c) == RootOf(s, a) <==> c in joined by { SelfSame(lows, log, a); }
      assert RootOf(s, d) == RootOf(s, a) <==> d in joined by { SelfSame(lows, log, a); }
      SelfSame(lows, log, b);
    }
  }

  lemma SelfSame(lows: seq<Text>, log: seq<Event>, a: Id)
    ensures Same(lows, log, a, a)
  {
  }

  lemma AllSame(lows: seq<Text>, log: seq<Event>, key: Text, joined: set<Id>, c: Id, d: Id)
    requires Join(key) in log && joined <= IconStems(lows, key)
    ensures c in joined && d in joined ==> Same(lows, log, c, d)
  {
    if c in joined && d in joined {
      assert c in IconStems(lows, key) && d in IconStems(lows, key);
    }
  }

  /** With all of an icon's stems joined, the groups are as the log with the joining says. */
  lemma JoinedAll(lows: seq<Text>, log: seq<Event>, s: State, key: Text)
    requires JoinedSoFar(lows, log, s, IconStems(lows, key))
    ensures ClassesOk(lows, log + [Join(key)], s)
  {
    hide IconStems, RootOf;
    var log' := log + [Join(key)];
    forall a, b | a in s.ids && b in s.ids
      ensures Same(lows, log', a, b) <==>
        Same(lows, log, a, b) || (a in IconStems(lows, key) && b in IconStems(lows, key))
    {
      assert Join(key) in log';
      if a != b && Same(lows, log, a, b) {
        var k :| Join(k) in log && a in IconStems(lows, k) && b in IconStems(lows, k);
        assert Join(k) in log';
      }
    }
  }

  /** Anything else that is found leaves the groups' ids as they are. */
  lemma SameUnless(lows: seq<Text>, log: seq<Event>, e: Event, a: Id, b: Id)
    requires !e.Join?
    ensures Same(lows, log + [e], a, b) <==> Same(lows, log, a, b)
  {
    hide IconStems;
    if a != b && Same(lows, log, a, b) {
      var k :| Join(k) in log && a in IconStems(lows, k) && b in IconStems(lows, k);
      assert Join(k) in log + [e];
    }
  }

  lemma ClassesStay(lows: seq<Text>, log: seq<Event>, e: Event, s: State, s': State)
    requires ClassesOk(lows, log, s) && !e.Join? && s'.ids == s.ids && s'.root == s.root
    ensures ClassesOk(lows, log + [e], s')
  {
    hide Same;
    forall a, b | a in s.ids && b in s.ids
      ensures Same(lows, log + [e], a, b) <==> Same(lows, log, a, b)
    {
      SameUnless(lows, log, e, a, b);
    }
  }
}
