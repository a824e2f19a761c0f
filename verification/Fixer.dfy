/**
 The case fixer (class Fixer of src/pak_fix.cpp): it takes names apart, resolves
 the strings of files to entries, and spells every group one way, in place.
*/
module Fixer {
  import opened Choosing
  import opened Grouping
  import opened References
  import opened Scanning
  import opened Sequences
  import opened Spelling
  import opened Unification
  import opened Wrappers

  /** A component of an entry's name and the group that spells it. */
  datatype Part = Part(begin: nat, end: nat, group: nat)

  type Index = map<Text, seq<nat>>

  function Lookup(index: Index, key: Text): seq<nat> {
    if key in index then index[key] else []
  }

  function Pushed(index: Index, key: Text, i: nat): (r: Index)
    ensures forall k :: Lookup(r, k) == Lookup(index, k) + (if k == key then [i] else [])
  {
    index[key := Lookup(index, key) + [i]]
  }

  // ---- what the tables hold ----

  predicate PartsMatch(parts: seq<Part>, pieces: seq<Piece>, ids: map<Id, nat>) {
    && |parts| == |pieces|
    && forall k :: 0 <= k < |parts| ==>
      && parts[k].begin == pieces[k].begin && parts[k].end == pieces[k].end
      && pieces[k].id in ids && ids[pieces[k].id] == parts[k].group
  }

  predicate OthersKept(parts: seq<seq<Part>>, parts': seq<seq<Part>>, i: nat) {
    |parts'| == |parts| && forall j :: 0 <= j < |parts| && j != i ==> parts'[j] == parts[j]
  }

  lemma ExtendsTwice(a: map<Id, nat>, b: map<Id, nat>, c: map<Id, nat>)
    requires Extends(a, b) && Extends(b, c)
    ensures Extends(a, c)
  {
  }

  predicate Extends(ids: map<Id, nat>, ids': map<Id, nat>) {
    forall id :: id in ids ==> id in ids' && ids'[id] == ids[id]
  }

  ghost predicate FullOk(lows: seq<Text>, full: Index, n: nat)
    requires n <= |lows|
  {
    forall key :: Lookup(full, key) == FullOf(lows, key, n)
  }

  ghost predicate SuffixesOk(lows: seq<Text>, suffixes: Index, n: nat)
    requires n <= |lows|
  {
    forall key :: Lookup(suffixes, key) == TailOf(lows, key, n)
  }

  ghost predicate IconsOk(lows: seq<Text>, icons: Index, n: nat)
    requires n <= |lows|
  {
    forall key :: Lookup(icons, key) == IconsOf(lows, key, n)
  }

  predicate PartsOk(lows: seq<Text>, parts: seq<seq<Part>>, stems: seq<nat>, ids: map<Id, nat>, n: nat) {
    && n <= |lows| && |parts| == |lows| && |stems| == |lows|
    && (forall i :: 0 <= i < n ==> PartsMatch(parts[i], Pieces(lows[i]), ids))
    && (forall i :: 0 <= i < n ==> StemId(lows[i]) in ids && ids[StemId(lows[i])] == stems[i])
  }

  predicate NoJoins(log: seq<Event>) {
    forall e :: e in log ==> !e.Join?
  }

  ghost predicate LogTrue(x: Archive, log: seq<Event>) {
    forall e :: e in log ==> EventOk(x, e)
  }

  ghost predicate GroupedAs(x: Archive, log: seq<Event>, s: State) {
    StateOk(x, log, s) && ClassesOk(Lows(x.names), log, s) && LogTrue(x, log)
  }

  /** Pins of a group are as long as each other, so an empty one is alone. */
  lemma EmptyPinAlone(x: Archive, log: seq<Event>, s: State, e: Event)
    requires GroupedAs(x, log, s) && EventOk(x, e) && (e.Own? || e.Fixed?) && e.id in s.ids
    ensures RootOf(s, e.id) < |s.groups|
    ensures PinText(x, e) == [] ==> s.groups[RootOf(s, e.id)].pin == []
  {
    var r := RootOf(s, e.id);
    RootIsRoot(s, s.ids[e.id]);
    hide ForestOk, Same, IdSpelling, Lowered, Spelled;
    var g := s.groups[r];
    assert GroupOk(x, log, g, Members(s, r));
    if PinText(x, e) == [] && g.pin != [] {
      assert g.pin in PinsOf(x, log, Members(s, r));
      var f :| f in log && (f.Own? || f.Fixed?) && f.id in Members(s, r) && PinText(x, f) == g.pin;
      assert RootOf(s, f.id) == RootOf(s, e.id) && Same(Lows(x.names), log, f.id, e.id);
      SameSpell(Lows(x.names), log, f.id, e.id);
      assert EventOk(x, f);
      PinLength(x, e);
      PinLength(x, f);
    }
  }

  lemma PinLength(x: Archive, e: Event)
    ensures EventOk(x, e) && (e.Own? || e.Fixed?) ==> |PinText(x, e)| == |IdSpelling(e.id)|
  {
    hide IdSpelling;
  }

  /** A new id is of no group but its own, while no icons are joined. */
  lemma NewIdAlone(lows: seq<Text>, log: seq<Event>, s: State, id: Id)
    requires ClassesOk(lows, log, s) && NoJoins(log) && id !in s.ids && IdsOk(s)
    requires |s.groups| == |s.parent| && ForestOk(s.parent, s.root, s.rank, s.bound)
    ensures ClassesOk(lows, log, WithGroup(s, id))
  {
    var s' := WithGroup(s, id);
    var n := |s.groups|;
    assert RootOf(s', id) == n;
    forall a | a in s.ids
      ensures RootOf(s', a) == RootOf(s, a) < n
    {
      RootIsRoot(s, s.ids[a]);
    }
    hide RootOf, IconStems, ForestOk;
    assert s'.ids.Keys == s.ids.Keys + {id};
    forall a, b | a in s'.ids && b in s'.ids
      ensures RootOf(s', a) == RootOf(s', b) <==> Same(lows, log, a, b)
    {
      if a in s.ids && b in s.ids {
        assert RootOf(s, a) == RootOf(s, b) <==> Same(lows, log, a, b);
      }
    }
  }

  /** Parents may change as long as they lead to the same roots. */
  lemma Reparented(x: Archive, log: seq<Event>, s: State, parent: seq<nat>)
    requires GroupedAs(x, log, s) && ForestOk(parent, s.root, s.rank, s.bound) && |parent| == |s.parent|
    ensures GroupedAs(x, log, s.(parent := parent))
  {
    assert |s.root| == |s.groups|;
    hide ForestOk, GroupOk, Same;
    var s' := s.(parent := parent);
    forall g: nat | g < |s.groups| && s.root[g] == g
      ensures GroupOk(x, log, s'.groups[g], Members(s', g))
    {
      assert Members(s', g) == Members(s, g) && GroupOk(x, log, s.groups[g], Members(s, g));
    }
    forall a | a in s.ids
      ensures RootOf(s', a) == RootOf(s, a)
    {
    }
    hide RootOf;
  }

  lemma Added(x: Archive, log: seq<Event>, s: State, e: Event)
    requires GroupedAs(x, log, s) && e.Occ? && e.id in s.ids && EventOk(x, e)
    ensures var r := RootOf(s, e.id);
      r < |s.groups| && GroupedAs(x, log + [e], s.(groups := s.groups[r := WithOccurrence(s.groups[r], e.at)]))
  {
    hide EventOk, StateOk, ClassesOk;
    AddOk(x, log, s, e);
    var r := RootOf(s, e.id);
    ClassesStay(Lows(x.names), log, e, s, s.(groups := s.groups[r := WithOccurrence(s.groups[r], e.at)]));
  }

  lemma Pinned(x: Archive, log: seq<Event>, s: State, e: Event)
    requires GroupedAs(x, log, s) && (e.Own? || e.Fixed?) && e.id in s.ids && EventOk(x, e)
    ensures var r := RootOf(s, e.id);
      r < |s.groups| && GroupedAs(x, log + [e], s.(groups := s.groups[r := WithPin(s.groups[r], PinText(x, e))]))
  {
    EmptyPinAlone(x, log, s, e);
    hide EventOk, StateOk, ClassesOk, PinText;
    PinOk(x, log, s, e);
    var r := RootOf(s, e.id);
    ClassesStay(Lows(x.names), log, e, s, s.(groups := s.groups[r := WithPin(s.groups[r], PinText(x, e))]));
  }

  lemma NewGroup(x: Archive, log: seq<Event>, s: State, id: Id)
    requires GroupedAs(x, log, s) && NoJoins(log) && id !in s.ids
    ensures GroupedAs(x, log, WithGroup(s, id))
  {
    NewIdAlone(Lows(x.names), log, s, id);
    hide StateOk, ClassesOk, WithGroup;
    NewGroupOk(x, log, s, id);
  }

  lemma Shape(x: Archive, log: seq<Event>, s: State, id: Id)
    requires GroupedAs(x, log, s)
    ensures |s.groups| == |s.parent| == |s.root| == |s.rank| && ForestOk(s.parent, s.root, s.rank, s.bound)
    ensures id in s.ids ==> s.ids[id] < |s.parent| && RootOf(s, id) == s.root[s.ids[id]]
  {
  }

  // ---- entries ----

  lemma PieceEventsOfOne(pieces: seq<Piece>, p: Piece, i: nat)
    ensures PieceEvents(pieces + [p], i) == PieceEvents(pieces, i) + [Occ(p.id, At(p, i))]
  {
  }

  lemma PartsMatchMore(parts: seq<Part>, pieces: seq<Piece>, ids: map<Id, nat>, ids': map<Id, nat>, p: Piece)
    requires PartsMatch(parts, pieces, ids) && Extends(ids, ids') && p.id in ids'
    ensures PartsMatch(parts + [Part(p.begin, p.end, ids'[p.id])], pieces + [p], ids')
  {
  }

  lemma PartsStay(lows: seq<Text>, parts: seq<seq<Part>>, stems: seq<nat>, ids: map<Id, nat>, n: nat,
                  parts': seq<seq<Part>>, stems': seq<nat>, ids': map<Id, nat>)
    requires PartsOk(lows, parts, stems, ids, n) && Extends(ids, ids')
    requires |parts'| == |parts| && |stems'| == |stems|
    requires forall i :: 0 <= i < n ==> parts'[i] == parts[i] && stems'[i] == stems[i]
    ensures PartsOk(lows, parts', stems', ids', n)
  {
    hide Pieces, StemId;
  }

  ghost predicate SuffixesUpTo(lows: seq<Text>, suffixes: Index, i: nat, begin: nat)
    requires i < |lows|
  {
    forall key :: Lookup(suffixes, key) ==
      TailOf(lows, key, i) + (if IsTail(lows[i], key) && |lows[i]| - |key| <= begin then [i] else [])
  }

  lemma TailsFrom(low: Text, begin: nat, s: nat, key: Text)
    requires begin <= s < |low| && s == FirstFrom(low, SLASH, begin) && IsTail(low, key)
    ensures |low| - |key| <= begin || key == low[s + 1..] || |low| - |key| > s + 1
  {
    hide FirstFrom;
    var p := |low| - |key| - 1;
    assert low[p] == SLASH;
  }

  lemma TailItself(low: Text, s: nat)
    requires s < |low| && low[s] == SLASH
    ensures IsTail(low, low[s + 1..]) && |low| - |low[s + 1..]| == s + 1
  {
  }

  lemma SuffixAdded(lows: seq<Text>, suffixes: Index, i: nat, begin: nat, s: nat)
    requires i < |lows| && SuffixesUpTo(lows, suffixes, i, begin)
    requires begin <= s < |lows[i]| && s == FirstFrom(lows[i], SLASH, begin)
    ensures SuffixesUpTo(lows, Pushed(suffixes, lows[i][s + 1..], i), i, s + 1)
  {
    hide TailOf, FirstFrom, Lookup, Pushed, IsTail;
    var low := lows[i];
    TailItself(low, s);
    var suffixes' := Pushed(suffixes, low[s + 1..], i);
    forall key
      ensures Lookup(suffixes', key) ==
        TailOf(lows, key, i) + (if IsTail(low, key) && |low| - |key| <= s + 1 then [i] else [])
    {
      if IsTail(low, key) {
        TailsFrom(low, begin, s, key);
      }
    }
  }

  lemma SuffixesDone(lows: seq<Text>, suffixes: Index, i: nat, begin: nat)
    requires i < |lows| && SuffixesUpTo(lows, suffixes, i, begin) && begin <= |lows[i]|
    requires FirstFrom(lows[i], SLASH, begin) == |lows[i]|
    ensures SuffixesOk(lows, suffixes, i + 1)
  {
    hide FirstFrom, Lookup;
  }

  lemma NoneUpTo(lows: seq<Text>, suffixes: Index, i: nat)
    requires i < |lows| && SuffixesOk(lows, suffixes, i)
    ensures SuffixesUpTo(lows, suffixes, i, 0)
  {
  }

  lemma DirPiecesStep(low: Text, pieces: seq<Piece>, begin: nat)
    requires begin <= |low| && FirstFrom(low, SLASH, begin) < |low| && (begin > 0 ==> low[begin - 1] == SLASH)
    requires pieces + DirPieces(low, begin) == DirPieces(low, 0)
    ensures var s := FirstFrom(low, SLASH, begin);
      var p := Piece(begin, s, Dir(low[..s]));
      PieceOk(low, p) && pieces + [p] + DirPieces(low, s + 1) == DirPieces(low, 0)
  {
    hide PieceOk, FirstFrom;
    var s := FirstFrom(low, SLASH, begin);
    DirPieceOk(low, begin, s);
  }

  lemma DirPiecesEnd(low: Text, pieces: seq<Piece>, begin: nat)
    requires begin <= |low| && FirstFrom(low, SLASH, begin) == |low|
    requires pieces + DirPieces(low, begin) == DirPieces(low, 0)
    ensures DirPieces(low, 0) == pieces
  {
    assert DirPieces(low, begin) == [];
  }

  class Fixer {
    const names: seq<Text>
    var contents: seq<Content>
    var parts: seq<seq<Part>>
    var stems: seq<nat>
    var groups: seq<Group>
    var parent: seq<nat>
    var ids: map<Id, nat>
    var full: Index
    var suffixes: Index
    var icons: Index
    ghost var log: seq<Event>
    ghost var root: seq<nat>
    ghost var rank: seq<nat>
    ghost var bound: nat
    ghost var owner: seq<Id>

    function X(): Archive
      reads this`contents
    {
      Archive(names, contents)
    }

    ghost function S(): State
      reads this`groups, this`parent, this`ids, this`root, this`rank, this`bound, this`owner
    {
      State(groups, parent, ids, root, rank, bound, owner)
    }

    ghost predicate Grouped()
      reads this`contents, this`log
      reads this`groups, this`parent, this`ids, this`root, this`rank, this`bound, this`owner
    {
      GroupedAs(X(), log, S())
    }

    /** The group of an id, a new one if it has none yet. */
    method GroupFor(id: Id) returns (g: nat)
      requires Grouped() && NoJoins(log)
      modifies this`groups, this`parent, this`ids, this`root, this`rank, this`owner
      ensures Grouped() && id in ids && ids[id] == g && Extends(old(ids), ids)
    {
      if id in ids {
        return ids[id];
      }
      hide GroupedAs;
      g := |groups|;
      NewGroup(X(), log, S(), id);
      ids := ids[id := g];
      groups := groups + [Group([], id.Dir?, [], false)];
      parent := parent + [g];
      root, rank, owner := root + [g], rank + [0], owner + [id];
    }

    /** The root of a group's tree. The way there is halved, which changes no root. */
    method Find(g: nat) returns (r: nat)
      requires ForestOk(parent, root, rank, bound) && g < |parent|
      modifies this`parent
      ensures ForestOk(parent, root, rank, bound) && |parent| == old(|parent|)
      ensures r == root[g] && r < |parent| && root[r] == r
    {
      r := g;
      assert NodeOk(parent, root, rank, g);
      while parent[r] != r
        invariant ForestOk(parent, root, rank, bound) && |parent| == old(|parent|)
        invariant r < |parent| && root[r] == root[g]
        decreases bound - rank[r]
      {
        assert NodeOk(parent, root, rank, r) && NodeOk(parent, root, rank, parent[r]);
        HalvingOk(parent, root, rank, bound, r);
        parent := parent[r := parent[parent[r]]];
        r := parent[r];
      }
      assert NodeOk(parent, root, rank, r);
    }

    method Add(g: nat, o: Occurrence, ghost id: Id)
      requires Grouped() && id in ids && ids[id] == g && EventOk(X(), Occ(id, o))
      modifies this`groups, this`parent, this`log
      ensures Grouped() && log == old(log) + [Occ(id, o)]
    {
      hide EventOk, ForestOk, GroupedAs;
      ghost var s := S();
      Shape(X(), log, s, id);
      var r := Find(g);
      Reparented(X(), log, s, parent);
      Added(X(), log, S(), Occ(id, o));
      groups := groups[r := groups[r].(occurrences := groups[r].occurrences + [o])];
      log := log + [Occ(id, o)];
    }

    /** Pins a group to a spelling: the first it is pinned to, in conflict if there is another. */
    method PinTo(g: nat, spelling: Text, ghost e: Event)
      requires Grouped() && (e.Own? || e.Fixed?) && e.id in ids && ids[e.id] == g && EventOk(X(), e)
      requires PinText(X(), e) == spelling
      modifies this`groups, this`parent, this`log
      ensures Grouped() && log == old(log) + [e]
    {
      hide EventOk, ForestOk, GroupedAs, PinText;
      ghost var s := S();
      Shape(X(), log, s, e.id);
      var r := Find(g);
      Reparented(X(), log, s, parent);
      Pinned(X(), log, S(), e);
      if groups[r].pin == [] {
        groups := groups[r := groups[r].(pin := spelling)];
      } else if groups[r].pin != spelling {
        groups := groups[r := groups[r].(pinConflict := true)];
      } else {
        assert groups[r := groups[r]] == groups;
      }
      log := log + [e];
    }

    /** A part of entry `i`'s name, and its spelling. */
    method AddPart(i: nat, begin: nat, end: nat, id: Id, ghost pieces: seq<Piece>) returns (g: nat)
      requires Grouped() && NoJoins(log) && i < |names| && |parts| == |names|
      requires PieceOk(Lowered(names[i]), Piece(begin, end, id)) && PartsMatch(parts[i], pieces, ids)
      modifies this`groups, this`parent, this`ids, this`root, this`rank, this`owner, this`log, this`parts
      ensures Grouped() && NoJoins(log) && Extends(old(ids), ids) && id in ids && ids[id] == g
      ensures parts == old(parts)[i := old(parts[i]) + [Part(begin, end, g)]]
      ensures PartsMatch(parts[i], pieces + [Piece(begin, end, id)], ids)
      ensures log == old(log) + [Occ(id, At(Piece(begin, end, id), i))]
    {
      hide Grouped, PieceOk, EventOk, PartsMatch, Lowered;
      ghost var p := Piece(begin, end, id);
      g := GroupFor(id);
      PartsMatchMore(parts[i], pieces, old(ids), ids, p);
      parts := parts[i := parts[i] + [Part(begin, end, g)]];
      PieceIsEvent(X(), i, p);
      Add(g, InName(i, begin, end - begin), id);
    }

    /** These parts of entry `i`'s name are found, since the state given. */
    ghost predicate PartsSoFar(i: nat, pieces: seq<Piece>, log0: seq<Event>, ids0: map<Id, nat>, parts0: seq<seq<Part>>)
      reads this`contents, this`log, this`groups, this`parent, this`ids, this`root, this`rank, this`bound, this`owner
      reads this`parts
    {
      && Grouped() && NoJoins(log) && Extends(ids0, ids) && OthersKept(parts0, parts, i) && i < |parts|
      && PartsMatch(parts[i], pieces, ids) && log == log0 + PieceEvents(pieces, i)
    }

    /** The directories of entry `i`'s name up to `begin` are found. */
    ghost predicate DirsUpTo(i: nat, begin: nat, pieces: seq<Piece>, log0: seq<Event>, ids0: map<Id, nat>,
                             parts0: seq<seq<Part>>)
      requires i < |names|
      reads this`contents, this`log, this`groups, this`parent, this`ids, this`root, this`rank, this`bound, this`owner
      reads this`parts, this`suffixes
    {
      var low := Lowered(names[i]);
      && PartsSoFar(i, pieces, log0, ids0, parts0)
      && begin <= |low| && (begin > 0 ==> low[begin - 1] == SLASH)
      && pieces + DirPieces(low, begin) == DirPieces(low, 0)
      && SuffixesUpTo(Lows(names), suffixes, i, begin)
    }

    method AddPiece(i: nat, begin: nat, end: nat, id: Id, ghost pieces: seq<Piece>, ghost log0: seq<Event>,
                    ghost ids0: map<Id, nat>, ghost parts0: seq<seq<Part>>) returns (g: nat)
      requires i < |names| && |parts| == |names| && PartsSoFar(i, pieces, log0, ids0, parts0)
      requires PieceOk(Lowered(names[i]), Piece(begin, end, id))
      modifies this`groups, this`parent, this`ids, this`root, this`rank, this`owner, this`log, this`parts
      ensures |parts| == |names| && id in ids && ids[id] == g && Extends(old(ids), ids)
      ensures PartsSoFar(i, pieces + [Piece(begin, end, id)], log0, ids0, parts0)
    {
      hide Grouped, PieceOk, PartsMatch, NoJoins, PieceEvents, Extends, At, Lowered;
      ghost var p := Piece(begin, end, id);
      ghost var ids1 := ids;
      g := AddPart(i, begin, end, id, pieces);
      ExtendsTwice(ids0, ids1, ids);
      PieceEventsOfOne(pieces, p, i);
      Assoc(log0, PieceEvents(pieces, i), [Occ(p.id, At(p, i))]);
    }

    lemma DirsStart(i: nat)
      requires Grouped() && NoJoins(log) && i < |names| && |parts| == |names| && parts[i] == []
      requires SuffixesOk(Lows(names), suffixes, i)
      ensures DirsUpTo(i, 0, [], log, ids, parts)
    {
      hide Grouped, NoJoins, SuffixesOk, SuffixesUpTo, PartsMatch, PieceEvents, DirPieces;
      NoneUpTo(Lows(names), suffixes, i);
      NoParts(ids, i);
    }

    /** One directory of entry `i`'s name, up to the slash, and the tail of its path after it. */
    method AddDirectory(i: nat, begin: nat, slash: nat, ghost pieces: seq<Piece>, ghost log0: seq<Event>,
                        ghost ids0: map<Id, nat>, ghost parts0: seq<seq<Part>>)
      requires i < |names| && |parts| == |names| && DirsUpTo(i, begin, pieces, log0, ids0, parts0)
      requires begin <= slash < |names[i]| && slash == FirstFrom(Lowered(names[i]), SLASH, begin)
      modifies this`groups, this`parent, this`ids, this`root, this`rank, this`owner, this`log, this`parts, this`suffixes
      ensures |parts| == |names|
      ensures DirsUpTo(i, slash + 1, pieces + [Piece(begin, slash, Dir(Lowered(names[i])[..slash]))],
                       log0, ids0, parts0)
    {
      hide PartsSoFar, PieceOk, SuffixesUpTo, Pushed, FirstFrom, AfterLast, DirPieces, Lows;
      var low := Lowered(names[i]);
      DirPieceOk(low, begin, slash);
      DirPiecesStep(low, pieces, begin);
      var _ := AddPiece(i, begin, slash, Dir(low[..slash]), pieces, log0, ids0, parts0);
      SuffixAdded(Lows(names), suffixes, i, begin, slash);
      suffixes := Pushed(suffixes, low[slash + 1..], i);
    }

    /** The directories of entry `i`'s name, and the tails of its path; returns where its leaf begins. */
    method AddDirectories(i: nat) returns (begin: nat)
      requires Grouped() && NoJoins(log) && i < |names| && |parts| == |names| && parts[i] == []
      requires NoBackslash(names[i]) && SuffixesOk(Lows(names), suffixes, i)
      modifies this`groups, this`parent, this`ids, this`root, this`rank, this`owner, this`log, this`parts, this`suffixes
      ensures |parts| == |names| && begin == AfterLast(Lowered(names[i]), SLASH)
      ensures DirsUpTo(i, begin, DirPieces(Lowered(names[i]), 0), old(log), old(ids), old(parts))
      ensures SuffixesOk(Lows(names), suffixes, i + 1)
    {
      hide DirsUpTo, SuffixesOk, DirPieces, FirstFrom, AfterLast, Grouped, NoJoins;
      var name := names[i];
      ghost var low := Lowered(name);
      SlashPlaces(name);
      ghost var pieces: seq<Piece> := [];
      DirsStart(i);
      begin := 0;
      while true
        invariant |parts| == |names| && begin <= |name|
        invariant DirsUpTo(i, begin, pieces, old(log), old(ids), old(parts))
        decreases |name| - begin
      {
        var slash := FirstFrom(name, SLASH, begin);
        KeepsFirst(name, low, SLASH, begin);
        if slash == |name| {
          break;
        }
        AddDirectory(i, begin, slash, pieces, old(log), old(ids), old(parts));
        pieces := pieces + [Piece(begin, slash, Dir(low[..slash]))];
        begin := slash + 1;
      }
      DirsEnd(i, begin, pieces, old(log), old(ids), old(parts));
    }

    lemma DirsEnd(i: nat, begin: nat, pieces: seq<Piece>, log0: seq<Event>, ids0: map<Id, nat>, parts0: seq<seq<Part>>)
      requires i < |names| && DirsUpTo(i, begin, pieces, log0, ids0, parts0) && begin <= |names[i]|
      requires FirstFrom(Lowered(names[i]), SLASH, begin) == |names[i]|
      ensures pieces == DirPieces(Lowered(names[i]), 0) && begin == AfterLast(Lowered(names[i]), SLASH)
      ensures SuffixesOk(Lows(names), suffixes, i + 1)
    {
      hide Grouped, PartsMatch, PieceEvents, SuffixesUpTo, SuffixesOk, NoJoins, Extends, DirPieces, AfterLast;
      hide FirstFrom;
      var low := Lowered(names[i]);
      SuffixesDone(Lows(names), suffixes, i, begin);
      AfterLastUnique(low, SLASH, begin);
      DirPiecesEnd(low, pieces, begin);
    }

    /** The parts of entry `i`'s name: its directories, its stem and, if it has one, its extension. */
    method AddName(i: nat) returns (stem: nat, ext: nat)
      requires Grouped() && NoJoins(log) && i < |names| && |parts| == |names| && parts[i] == []
      requires NoBackslash(names[i]) && SuffixesOk(Lows(names), suffixes, i)
      modifies this`groups, this`parent, this`ids, this`root, this`rank, this`owner, this`log, this`parts, this`suffixes
      ensures |parts| == |names| && PartsSoFar(i, Pieces(Lowered(names[i])), old(log), old(ids), old(parts))
      ensures SuffixesOk(Lows(names), suffixes, i + 1)
      ensures var low := Lowered(names[i]);
        && StemId(low) in ids && ids[StemId(low)] == stem
        && (HasExt(low) ==> ExtId(low) in ids && ids[ExtId(low)] == ext)
    {
      hide PartsSoFar, PieceOk, SuffixesOk, DirPieces, AfterLast, Pieces, Grouped, NoJoins, SuffixesUpTo, Lows;
      ghost var log0, ids0, parts0 := log, ids, parts;
      var name := names[i];
      var low := Lowered(name);
      var begin := AddDirectories(i);
      SlashPlaces(name);
      KeepsLast(name, low, DOT);
      var afterDot := AfterLast(name, DOT);
      var hasExt := afterDot > begin + 1;
      var stemEnd := if hasExt then afterDot - 1 else |name|;
      ghost var dirs := DirPieces(low, 0);
      StemOk(low);
      stem := AddPiece(i, begin, stemEnd, Stem(low[..stemEnd]), dirs, log0, ids0, parts0);
      PiecesAre(low);
      ext := 0;
      if hasExt {
        ExtOk(low);
        ext := AddPiece(i, afterDot, |name|, Ext(low), dirs + [StemPiece(low)], log0, ids0, parts0);
        assert Pieces(low) == dirs + [StemPiece(low)] + [ExtPiece(low)];
      } else {
        assert Pieces(low) == dirs + [StemPiece(low)];
      }
    }

    /** Files that are found by name keep their spelling. */
    method PinName(i: nat, stem: nat, ext: nat)
      requires Grouped() && i < |names| && NoBackslash(names[i])
      requires var low := Lowered(names[i]);
        && StemId(low) in ids && ids[StemId(low)] == stem
        && (HasExt(low) ==> ExtId(low) in ids && ids[ExtId(low)] == ext)
      modifies this`groups, this`parent, this`log
      ensures Grouped() && log == old(log) + NamePins(Lowered(names[i]), i)
    {
      hide Grouped, PieceOk, AfterLast, FixedNames, EventOk, PinText;
      var name := names[i];
      var low := Lowered(name);
      SlashPlaces(name);
      KeepsLast(name, low, SLASH);
      KeepsLast(name, low, DOT);
      LeafLowered(name);
      var begin, afterDot := AfterLast(name, SLASH), AfterLast(name, DOT);
      var hasExt := afterDot > begin + 1;
      var stemEnd := if hasExt then afterDot - 1 else |name|;
      if Lowered(Leaf(name)) in FixedNames() {
        StemOk(low);
        PieceIsEvent(X(), i, StemPiece(low));
        OwnText(X(), i, StemPiece(low));
        PinTo(stem, name[begin..stemEnd], Own(StemId(low), At(StemPiece(low), i)));
        if hasExt {
          ExtOk(low);
          PieceIsEvent(X(), i, ExtPiece(low));
          OwnText(X(), i, ExtPiece(low));
          assert name[afterDot..] == name[afterDot..|name|];
          PinTo(ext, name[afterDot..], Own(ExtId(low), At(ExtPiece(low), i)));
        }
      }
    }

    /** Where the last directory "gui" of entry `i`'s name is among its parts. */
    method LastGuiPart(i: nat) returns (from: nat)
      requires i < |names| && NoBackslash(names[i]) && |parts| == |names|
      requires PartsMatch(parts[i], Pieces(Lowered(names[i])), ids)
      ensures var low := Lowered(names[i]);
        |Pieces(low)| > 0 && from == LastGui(low, Pieces(low), |Pieces(low)| - 1)
    {
      hide PieceOk, Pieces;
      var name := names[i];
      ghost var low := Lowered(name);
      ghost var pieces := Pieces(low);
      PiecesOk(low);
      GuiIsBeforeEnd(low);
      var mine := parts[i];
      from := |mine|;
      for k := 0 to |mine| - 1
        invariant from == LastGui(low, pieces, k)
      {
        PieceIn(name, pieces, k);
        if SameButCase(name[mine[k].begin..mine[k].end], Lit("GUI")) {
          from := k;
        }
      }
    }

    /** Pins one directory, if the engine spells it its own way; nothing from a part that is no directory. */
    method PinDirectory(i: nat, k: nat) returns (more: bool)
      requires Grouped() && i < |names| && NoBackslash(names[i]) && |parts| == |names|
      requires PartsMatch(parts[i], Pieces(Lowered(names[i])), ids) && k < |parts[i]|
      modifies this`groups, this`parent, this`log
      ensures var low := Lowered(names[i]);
        var pieces := Pieces(low);
        && Grouped() && more == pieces[k].id.Dir?
        && if more then log + CanonicalPins(low, pieces, k + 1) == old(log) + CanonicalPins(low, pieces, k)
           else log == old(log) && CanonicalPins(low, pieces, k) == []
    {
      hide Grouped, PieceOk, EventOk, PinText, ForestOk, Canonical, NameEventOk, Pieces, GroupedAs;
      var name := names[i];
      ghost var low := Lowered(name);
      ghost var pieces := Pieces(low);
      PiecesOk(low);
      PieceIn(name, pieces, k);
      var part := parts[i][k];
      ghost var s := S();
      FlagOf(pieces[k].id);
      var r := Find(part.group);
      ParentsMoved(s);
      more := groups[r].directory;
      if more {
        var t := Lowered(name[part.begin..part.end]);
        if t in Canonical() {
          CanonicalPinOk(X(), i, pieces, k);
          PinTo(part.group, Canonical()[t], Fixed(pieces[k].id, Canonical()[t]));
        }
      }
    }

    /** The engine builds icon paths itself, so their directories are spelled its way from the last "gui" on. */
    method PinIconDirectories(i: nat)
      requires Grouped() && i < |names| && NoBackslash(names[i]) && |parts| == |names|
      requires PartsMatch(parts[i], Pieces(Lowered(names[i])), ids)
      modifies this`groups, this`parent, this`log
      ensures Grouped() && log == old(log) + DirectoryPins(Lowered(names[i]))
    {
      hide Grouped, Pieces, LastGui;
      ghost var low := Lowered(names[i]);
      ghost var pieces := Pieces(low);
      var k := LastGuiPart(i);
      ghost var from := k;
      while k < |parts[i]|
        invariant k <= |parts[i]| && Grouped()
        invariant log + CanonicalPins(low, pieces, k) == old(log) + CanonicalPins(low, pieces, from)
      {
        var more := PinDirectory(i, k);
        if !more {
          break;
        }
        k := k + 1;
      }
      assert CanonicalPins(low, pieces, k) == [];
    }

    /** GUI textures are ".DDS"; those that the engine names after icons are listed by the icon. */
    method PinTexture(i: nat, ext: nat)
      requires Grouped() && i < |names| && NoBackslash(names[i]) && |parts| == |names|
      requires PartsMatch(parts[i], Pieces(Lowered(names[i])), ids) && IconsOk(Lows(names), icons, i)
      requires var low := Lowered(names[i]);
        HasExt(low) ==> ExtId(low) in ids && ids[ExtId(low)] == ext
      modifies this`groups, this`parent, this`log, this`icons
      ensures Grouped() && log == old(log) + TexturePins(Lowered(names[i]))
      ensures IconsOk(Lows(names), icons, i + 1)
    {
      hide Grouped, Pieces, IconsOf, EventOk, AfterLast, Contains, Extension, IconDirectory, DirectoryPins, Lookup;
      hide Pushed;
      var name := names[i];
      var low := Lowered(name);
      SlashPlaces(name);
      KeepsLast(name, low, SLASH);
      KeepsLast(name, low, DOT);
      LoweredIsCase(name);
      CaseKeepsExtension(name, low);
      var begin, afterDot := AfterLast(name, SLASH), AfterLast(name, DOT);
      var hasExt := afterDot > begin + 1;
      if hasExt && Contains(low, Lit("/gui/")) && Extension(name) == Lit("dds") {
        DdsIsEvent(X(), i);
        PinTo(ext, Lit("DDS"), Fixed(ExtId(low), Lit("DDS")));
        if IconDirectory(low) {
          IconPushed(Lows(names), icons, i);
          icons := Pushed(icons, low[begin..afterDot - 1], i);
          PinIconDirectories(i);
          Assoc(old(log), [Fixed(ExtId(low), Lit("DDS"))], DirectoryPins(low));
        } else {
          NoIconPushed(Lows(names), icons, i);
        }
      } else {
        NoIconPushed(Lows(names), icons, i);
      }
    }

    /** What the tables hold of the first `n` entries. */
    ghost predicate Tables(n: nat)
      reads this`parts, this`stems, this`ids, this`full, this`suffixes, this`icons
    {
      && n <= |names| && PartsOk(Lows(names), parts, stems, ids, n)
      && FullOk(Lows(names), full, n) && SuffixesOk(Lows(names), suffixes, n) && IconsOk(Lows(names), icons, n)
      && forall i :: n <= i < |names| ==> parts[i] == []
    }

    method AddEntry(i: nat)
      requires Grouped() && NoJoins(log) && i < |names| && NoBackslash(names[i]) && Tables(i)
      modifies this`groups, this`parent, this`ids, this`root, this`rank, this`owner, this`log
      modifies this`parts, this`stems, this`full, this`suffixes, this`icons
      ensures Grouped() && NoJoins(log) && Tables(i + 1)
      ensures log == old(log) + EntryEvents(Lowered(names[i]), i)
    {
      hide Grouped, Pieces, PartsMatch, FullOf, Lookup, Pushed, StemId, ExtId, HasExt, SuffixesOk, IconsOk;
      hide PieceEvents, NamePins, TexturePins;
      ghost var lows := Lows(names);
      ghost var low := Lowered(names[i]);
      full := Pushed(full, Lowered(names[i]), i);
      FullPushed(lows, old(full), i);
      var stem, ext := AddName(i);
      stems := stems[i := stem];
      PartsStay(lows, old(parts), old(stems), old(ids), i, parts, stems, ids);
      PinName(i, stem, ext);
      PinTexture(i, ext);
      EntryHasNoJoins(low, i);
      assert log == old(log) + EntryEvents(low, i);
    }

    constructor (names: seq<Text>, contents: seq<Content>)
      requires forall i :: 0 <= i < |names| ==> NoBackslash(names[i])
      ensures this.names == names && this.contents == contents
      ensures Grouped() && Tables(|names|) && log == EntriesEvents(Lows(names), |names|)
    {
      hide Grouped, Tables, EntryEvents, Pieces, Lows;
      this.names := names;
      this.contents := contents;
      parts := seq(|names|, _ => []);
      stems := seq(|names|, _ => 0);
      groups, parent, ids := [], [], map[];
      full, suffixes, icons := map[], map[], map[];
      log, root, rank, bound, owner := [], [], [], 0, [];
      new;
      StartOk();
      for i := 0 to |names|
        invariant this.contents == contents
        invariant Grouped() && NoJoins(log) && Tables(i) && log == EntriesEvents(Lows(names), i)
      {
        AddEntry(i);
      }
    }

    lemma StartOk()
      requires parts == seq(|names|, _ => []) && stems == seq(|names|, _ => 0)
      requires groups == [] && parent == [] && ids == map[] && root == [] && rank == [] && owner == [] && log == []
      requires full == map[] && suffixes == map[] && icons == map[]
      ensures Grouped() && NoJoins(log) && Tables(0)
    {
    }

    /** Unites two groups: what either holds, the first's root holds. */
    method Unite(a: nat, b: nat, ghost ida: Id, ghost idb: Id)
      requires StateOk(X(), log, S()) && ida in ids && idb in ids && ids[ida] == a && ids[idb] == b
      modifies this`groups, this`parent, this`root, this`rank, this`bound
      ensures StateOk(X(), log, S()) && RootsUnited(old(S()), S(), ida, idb)
    {
      hide ForestOk, StateOk, RootsUnited, WithUnion, Rerooted, EmptyGroup, Merged, Max;
      ghost var s := S();
      StateShape(X(), log, s, ida);
      StateShape(X(), log, s, idb);
      var ra := Find(a);
      var rb := Find(b);
      MovedOk(X(), log, s, parent);
      if ra == rb {
        AlreadyUnited(s, parent, ida, idb);
        return;
      }
      United(X(), log, s, parent, ida, idb);
      UnionFields(S(), ra, rb);
      groups := groups[ra := Merged(groups[ra], groups[rb])][rb := EmptyGroup()];
      parent := parent[rb := ra];
      ghost var top := Max(rank[ra], rank[rb] + 1);
      root, rank, bound := Rerooted(root, ra, rb), rank[ra := top], Max(bound, top);
    }

    method JoinOne(first: nat, e: nat, key: Text, ghost joined: set<Id>)
      requires StateOk(X(), log, S()) && JoinedSoFar(Lows(names), log, S(), joined)
      requires first < |names| && e < |names| && first < |stems| && e < |stems|
      requires var lows := Lows(names);
        && StemId(lows[first]) in joined && joined <= IconStems(lows, key) && joined <= ids.Keys
        && StemId(lows[e]) in IconStems(lows, key) && StemId(lows[e]) in ids
        && ids[StemId(lows[first])] == stems[first] && ids[StemId(lows[e])] == stems[e]
      modifies this`groups, this`parent, this`root, this`rank, this`bound
      ensures StateOk(X(), log, S()) && JoinedSoFar(Lows(names), log, S(), joined + {StemId(Lows(names)[e])})
    {
      hide StateOk, IconStems, JoinedSoFar, RootsUnited, StemId;
      ghost var lows := Lows(names);
      ghost var s := S();
      IdsFacts(X(), log, s);
      Unite(stems[first], stems[e], StemId(lows[first]), StemId(lows[e]));
      JoinStep(lows, log, s, S(), key, joined, StemId(lows[first]), StemId(lows[e]));
    }

    /** The textures derived from one icon have one name, so their stems are one group. */
    method JoinIcons(key: Text)
      requires Grouped() && Tables(|names|) && IconsOf(Lows(names), key, |names|) != []
      modifies this`groups, this`parent, this`root, this`rank, this`bound, this`log
      ensures Grouped() && log == old(log) + [Join(key)]
    {
      hide GroupedAs, StateOk, PartsOk, IconsOf, IconStems, JoinedSoFar, ClassesOk, RootsUnited, StemId, LogTrue;
      ghost var lows := Lows(names);
      var list := Lookup(icons, key);
      assert list == IconsOf(lows, key, |lows|);
      GroupedParts(X(), log, S());
      StemOfIcon(list[0], key);
      ghost var first := StemId(lows[list[0]]);
      ghost var joined := {first};
      OneJoined(lows, log, S(), first);
      var j := 0;
      while j < |list|
        invariant j <= |list| && StateOk(X(), log, S()) && JoinedSoFar(lows, log, S(), joined)
        invariant joined == {first} + StemsOf(lows, list[..j]) && ids == old(ids) && log == old(log)
      {
        StemOfIcon(list[j], key);
        StemsWithin(lows, key, list, j);
        StemsKnown(list, key, j);
        JoinOne(list[0], list[j], key, joined);
        StemsOfMore(lows, list, j);
        joined := joined + {StemId(lows[list[j]])};
        j := j + 1;
      }
      assert list[..|list|] == list;
      AllJoined(X(), log, S(), key, list);
      log := log + [Join(key)];
    }

    lemma StemOfIcon(i: nat, key: Text)
      requires Tables(|names|) && i in IconsOf(Lows(names), key, |names|)
      ensures i < |names| && i < |stems| && StemId(Lows(names)[i]) in ids && ids[StemId(Lows(names)[i])] == stems[i]
      ensures StemId(Lows(names)[i]) in IconStems(Lows(names), key)
    {
      hide StemId, IconsOf, IsIcon, IconKey;
      InIconsOf(Lows(names), key, |names|, i);
    }

    lemma StemsKnown(list: seq<nat>, key: Text, j: nat)
      requires Tables(|names|) && j <= |list| && list == IconsOf(Lows(names), key, |names|)
      ensures StemsOf(Lows(names), list[..j]) <= ids.Keys
    {
      hide StemId, IconsOf;
      forall i | i in list[..j]
        ensures i < |names| && StemId(Lows(names)[i]) in ids
      {
        assert i in list;
        StemOfIcon(i, key);
      }
    }

    /** A string's bytes from `pos` name `[begin, end)` of entry `i`: each part found there is spelled there too. */
    method Link(c: nat, pos: nat, i: nat, begin: nat, end: nat)
      requires Grouped() && Tables(|names|) && i < |names| && c < |contents|
      requires begin <= end <= |names[i]| && pos + (end - begin) <= |contents[c].bytes|
      requires Lowered(contents[c].bytes)[pos..pos + (end - begin)] == Lowered(names[i])[begin..end]
      modifies this`groups, this`parent, this`log
      ensures Grouped() && log == old(log) + LinkEvents(Pieces(Lowered(names[i])), c, pos, begin, end)
    {
      hide Grouped, GroupedAs, PieceOk, EventOk, Lowered, PartsMatch, Pieces, StemId;
      ghost var low := Lowered(names[i]);
      ghost var pieces := Pieces(low);
      assert PartsMatch(parts[i], pieces, ids) && low == Lows(names)[i];
      PiecesOk(low);
      var mine := parts[i];
      PartsAre(mine, pieces, ids);
      for k := 0 to |mine|
        invariant Grouped() && log == old(log) + LinkEvents(pieces[..k], c, pos, begin, end)
      {
        LinkOne(low, pieces, k, c, pos, begin, end);
        var p := mine[k];
        PieceSpan(low, pieces, k);
        if p.begin >= begin && p.end <= end {
          LinkedOk(X(), c, low, pieces, k, pos, begin, end);
          Add(p.group, InContent(c, pos + (p.begin - begin), p.end - p.begin), pieces[k].id);
        }
      }
      assert pieces[..|mine|] == pieces;
    }

    /** All entries are in the tables, and a file has this range. */
    ghost predicate Readable(c: nat, pos: nat, len: nat)
      reads this`contents, this`log, this`groups, this`parent, this`ids, this`root, this`rank, this`bound, this`owner
      reads this`parts, this`stems, this`full, this`suffixes, this`icons
    {
      && Grouped() && Tables(|names|) && c < |contents| && pos + len <= |contents[c].bytes|
      && contents[c].file < |names| && forall i :: 0 <= i < |names| ==> NoBackslash(names[i])
    }

    /** The folded bytes of a range of a file. */
    ghost function Word(c: nat, pos: nat, len: nat): Text
      requires c < |contents| && pos + len <= |contents[c].bytes|
      reads this`contents
    {
      Lowered(contents[c].bytes[pos..pos + len])
    }

    method LinkWhole(c: nat, pos: nat, key: Text, i: nat)
      requires Readable(c, pos, |key|) && Word(c, pos, |key|) == key
      requires Unique(FullOf(Lows(names), key, |names|)) == Some(i)
      modifies this`groups, this`parent, this`log
      ensures Grouped() && i < |names| && log == old(log) + WholeEvents(Lows(names), i, c, pos)
    {
      hide Grouped, Tables, FullOf, Pieces, LinkEvents, Lowered;
      UniqueIn(FullOf(Lows(names), key, |names|));
      InFullOf(Lows(names), key, |names|, i);
      LoweredSlice(contents[c].bytes, pos, pos + |key|);
      assert Lowered(names[i]) == Lows(names)[i] == key;
      assert key[0..|key|] == key;
      Link(c, pos, i, 0, |names[i]|);
    }

    method LinkTail(c: nat, pos: nat, key: Text, i: nat)
      requires Readable(c, pos, |key|) && Word(c, pos, |key|) == key
      requires Unique(TailOf(Lows(names), key, |names|)) == Some(i)
      modifies this`groups, this`parent, this`log
      ensures Grouped() && i < |names| && log == old(log) + TailEvents(Lows(names), i, |key|, c, pos)
    {
      hide Grouped, Tables, TailOf, Pieces, LinkEvents, Lowered;
      UniqueIn(TailOf(Lows(names), key, |names|));
      InTailOf(Lows(names), key, |names|, i);
      LoweredSlice(contents[c].bytes, pos, pos + |key|);
      WholeTail(Lows(names)[i], |key|);
      Link(c, pos, i, |names[i]| - |key|, |names[i]|);
    }

    /** A ".png" of GUI metadata stands for the ".dds" of the same name under the metadata's directory. */
    method LinkTexture(c: nat, pos: nat, key: Text, file: Text)
      requires Readable(c, pos, |key|) && Word(c, pos, |key|) == key && |key| >= 4
      requires NoBackslash(file) && AfterLast(file, SLASH) > 0
      modifies this`groups, this`parent, this`log
      ensures Grouped() && log == old(log) + MetadataEvents(Lows(names), Lowered(file), key, c, pos)
    {
      hide Grouped, FullOf, Pieces, LinkEvents, Lowered, AfterLast, Lookup;
      var dir := Lowered(file[..AfterLast(file, SLASH) - 1]);
      MetadataDirOf(file);
      var name := dir + [SLASH] + key[..|key| - 4] + Lit(".dds");
      ghost var lows := Lows(names);
      var found := Unique(Lookup(full, name));
      assert found == Unique(FullOf(lows, name, |lows|));
      hide Tables;
      if found.Some? {
        var i := found.value;
        UniqueIn(FullOf(lows, name, |lows|));
        InFullOf(lows, name, |lows|, i);
        TextureStem(Lowered(file), key);
        HeadOfWord(contents[c].bytes, pos, key, |key| - 4);
        Link(c, pos, i, |dir| + 1, |names[i]| - 4);
      }
    }

    /** An icon's name is that of every texture derived from it. */
    method LinkIcon(c: nat, pos: nat, key: Text)
      requires Readable(c, pos, |key|) && Word(c, pos, |key|) == key
      modifies this`groups, this`parent, this`root, this`rank, this`bound, this`log
      ensures Grouped() && Tables(|names|) && log == old(log) + IconEvents(Lows(names), key, c, pos)
    {
      hide Grouped, IconsOf, StemId, EventOk, StringEventOk, Lowered, PartsOk, Lookup;
      ghost var lows := Lows(names);
      var list := Lookup(icons, key);
      assert list == IconsOf(lows, key, |lows|);
      if list != [] {
        LoweredSlice(contents[c].bytes, pos, pos + |key|);
        IconEventsOk(lows, contents[c].bytes, key, c, pos);
        StemOfIcon(list[0], key);
        ghost var id := StemId(lows[list[0]]);
        ghost var e := Occ(id, InContent(c, pos, |key|));
        assert IconEvents(lows, key, c, pos)[1] == e;
        WithinFile(contents[c].bytes, c, pos, |key|, e);
        ContentEventIs(X(), c, e);
        JoinIcons(key);
        Add(stems[list[0]], InContent(c, pos, |key|), id);
      }
    }

    /** One string: what it refers to is spelled by it too. */
    method ReadString(c: nat, pos: nat, len: nat, attribute: Text)
      requires Readable(c, pos, len)
      modifies this`groups, this`parent, this`root, this`rank, this`bound, this`log
      ensures Readable(c, pos, len)
      ensures log == old(log) +
        TokenEvents(Lows(names), Lows(names)[contents[c].file], Word(c, pos, len), c, pos, attribute)
    {
      hide Grouped, Tables, FullOf, TailOf, Lowered, WholeEvents, TailEvents, RequiredFrom;
      hide LooseEvents, Lookup, AfterLast;
      var raw := contents[c].bytes[pos..pos + len];
      var key := Lowered(raw);
      var word := IsPlain(raw);
      if !word {
        return;
      }
      TablesTell(key);
      var whole := Unique(Lookup(full, key));
      if whole.Some? {
        LinkWhole(c, pos, key, whole.value);
        return;
      }
      var slash, dot := SLASH in key, DOT in key;
      var file := names[contents[c].file];
      if slash {
        var tail := Unique(Lookup(suffixes, key));
        UniqueTail(Lows(names), key);
        if tail.Some? && RequiredFrom(Lowered(file), Lowered(names[tail.value]), len) {
          LinkTail(c, pos, key, tail.value);
          return;
        }
      }
      assert TailEntry(Lows(names), Lowered(file), key) == None;
      ReadLoose(c, pos, key, file, attribute);
    }

    /** A string that is no path of the archive's: a key of GUI metadata, or an icon's name. */
    method ReadLoose(c: nat, pos: nat, key: Text, file: Text, attribute: Text)
      requires Readable(c, pos, |key|) && Word(c, pos, |key|) == key && NoBackslash(file)
      modifies this`groups, this`parent, this`root, this`rank, this`bound, this`log
      ensures Grouped()
      ensures log == old(log) + LooseEvents(Lows(names), Lowered(file), key, c, pos, attribute)
    {
      hide Grouped, Tables, Lowered, MetadataEvents, IconEvents, GuiMetadata, IconAttribute, AfterLast;
      GuiFolds(file);
      if EndsWith(key, Lit(".png")) && IsGuiMetadata(file) {
        LinkTexture(c, pos, key, file);
      } else if SLASH !in key && DOT !in key && IconAttribute(attribute) {
        LinkIcon(c, pos, key);
      }
    }

    lemma TablesTell(key: Text)
      requires Tables(|names|)
      ensures Lookup(full, key) == FullOf(Lows(names), key, |names|)
      ensures Lookup(suffixes, key) == TailOf(Lows(names), key, |names|)
    {
    }

    /** The strings of a text: quoted, on one line, with the attribute the line gives them. */
    method ScanText(c: nat)
      requires Readable(c, 0, 0) && !contents[c].lsf
      modifies this`groups, this`parent, this`root, this`rank, this`bound, this`log
      ensures Readable(c, 0, 0)
      ensures log == old(log) + ContentEvents(Lows(names), contents[c], c, TextTokens(contents[c].bytes, 0, 0))
    {
      hide Grouped, Tables, TokenEvents, Lowered, Context, TextTokens, ContentEvents;
      ghost var lows := Lows(names);
      var text := contents[c].bytes;
      ghost var tokens: seq<Token> := [];
      assert tokens + TextTokens(text, 0, 0) == TextTokens(text, 0, 0);
      NoStrings(lows, contents[c], c);
      var lineStart, at := 0, 0;
      while at < |text|
        invariant lineStart <= at <= |text| && Readable(c, 0, 0)
        invariant tokens + TextTokens(text, at, lineStart) == TextTokens(text, 0, 0)
        invariant log == old(log) + ContentEvents(lows, contents[c], c, tokens)
        decreases |text| - at
      {
        TextStep(text, at, lineStart);
        if text[at] == NEWLINE {
          at := at + 1;
          lineStart := at;
          continue;
        }
        if text[at] != QUOTE && text[at] != APOSTROPHE {
          at := at + 1;
          continue;
        }
        var end := FindQuoteEnd(text, at);
        if end >= |text| || text[end] != text[at] {
          at := at + 1;
          continue;
        }
        var t := Token(at + 1, end - at - 1, Context(text[lineStart..at]));
        ReadString(c, t.pos, t.len, t.attribute);
        StringsStep(lows, contents[c], c, tokens, t);
        Assoc(old(log), ContentEvents(lows, contents[c], c, tokens), StringEvents(lows, contents[c], c, t));
        Assoc(tokens, [t], TextTokens(text, end + 1, lineStart));
        tokens := tokens + [t];
        at := end + 1;
      }
      TextEnd(text, lineStart);
      assert tokens == TextTokens(text, 0, 0);
    }

    /** The strings of every file. */
    method Scan()
      requires Sound(X()) && Grouped() && Tables(|names|) && log == EntriesEvents(Lows(names), |names|)
      modifies this`groups, this`parent, this`root, this`rank, this`bound, this`log
      ensures Grouped() && log == Log(X())
    {
      hide Grouped, Tables, ContentEvents, TextTokens, EntriesEvents;
      ghost var lows := Lows(names);
      for c := 0 to |contents|
        invariant Grouped() && Tables(|names|)
        invariant log == EntriesEvents(lows, |lows|) + ContentsEvents(lows, contents, c)
      {
        assert ContentSound(X(), contents[c]);
        if contents[c].lsf {
          ScanStrings(c);
        } else {
          ScanText(c);
        }
      }
    }

    /** The strings of an LSF file. */
    method ScanStrings(c: nat)
      requires Readable(c, 0, 0) && contents[c].lsf && StringsFit(contents[c].bytes, contents[c].strings)
      modifies this`groups, this`parent, this`root, this`rank, this`bound, this`log
      ensures Readable(c, 0, 0)
      ensures log == old(log) + ContentEvents(Lows(names), contents[c], c, contents[c].strings)
    {
      hide Grouped, Tables, TokenEvents, Lowered, ContentEvents;
      ghost var lows := Lows(names);
      var strings := contents[c].strings;
      NoStrings(lows, contents[c], c);
      for k := 0 to |strings|
        invariant Readable(c, 0, 0)
        invariant log == old(log) + ContentEvents(lows, contents[c], c, strings[..k])
      {
        var t := strings[k];
        ReadString(c, t.pos, t.len, t.attribute);
        StringsStep(lows, contents[c], c, strings[..k], t);
        Assoc(old(log), ContentEvents(lows, contents[c], c, strings[..k]), StringEvents(lows, contents[c], c, t));
        assert strings[..k + 1] == strings[..k] + [t];
      }
      assert strings[..|strings|] == strings;
    }

    /** The spellings of a group as they are: entries by the names they have, files by their bytes now. */
    method SpellingsOf(occurrences: seq<Occurrence>) returns (spellings: seq<Text>)
      requires forall k :: 0 <= k < |occurrences| ==> InRange(X(), occurrences[k])
      ensures |spellings| == |occurrences|
      ensures forall k :: 0 <= k < |spellings| ==> spellings[k] == Spelled(X(), occurrences[k])
    {
      spellings := [];
      for k := 0 to |occurrences|
        invariant |spellings| == k && forall j :: 0 <= j < k ==> spellings[j] == Spelled(X(), occurrences[j])
      {
        var o := occurrences[k];
        if o.InName? {
          spellings := spellings + [names[o.index][o.pos..o.pos + o.len]];
        } else {
          spellings := spellings + [contents[o.content].bytes[o.pos..o.pos + o.len]];
        }
      }
    }

    /** Spells one occurrence, of a name in `newNames` or of a file in place. */
    method Write(newNames: seq<Text>, o: Occurrence, t: Text) returns (result: seq<Text>)
      requires InRange(Archive(newNames, contents), o) && o.len == |t|
      modifies this`contents
      ensures Archive(result, contents) == Put(Archive(newNames, old(contents)), o, t)
    {
      result := newNames;
      if o.InName? {
        result := result[o.index := Splice(result[o.index], o.pos, t)];
      } else {
        var content := contents[o.content];
        contents := contents[o.content := content.(bytes := Splice(content.bytes, o.pos, t), changed := true)];
      }
    }

    /** Spells every occurrence of group `g` as the target. */
    method Rewrite(g: nat, newNames: seq<Text>, spellings: seq<Text>, t: Text, ghost x: Archive, ghost s: State)
        returns (result: seq<Text>)
      requires AtRoot(x, s, g) && groups == s.groups && OnTheWay(x, s, Archive(newNames, contents), g)
      requires Reads(x, s, Archive(newNames, contents), g, spellings)
      requires IsTarget(GroupView(s.groups[g], spellings, PinsOf(x, Log(x), Members(s, g))), t)
      modifies this`contents
      ensures OnTheWay(x, s, Archive(result, contents), g + 1)
    {
      hide AtRoot, OnTheWay, Progress, Marked, Log, Spelled, Goal, Rewriting, RootOf, Put, OnlyCase, Agree, IsTarget;
      hide Reads;
      hide PinsOf, Members, GroupView, InRange;
      AtRootFacts(x, s, g);
      ghost var before := Archive(newNames, contents);
      ReadsLength(x, s, before, g, spellings);
      var occurrences := groups[g].occurrences;
      result := newNames;
      ghost var part: set<Occurrence> := {};
      RewritingStarts(x, s, before, g);
      for k := 0 to |occurrences|
        invariant OnlyCase(x, Archive(result, contents)) && Marked(x, Archive(result, contents))
        invariant Agree(x) ==> Rewriting(x, before, Archive(result, contents), part)
        invariant part == Items(occurrences[..k])
      {
        ghost var y := Archive(result, contents);
        ghost var e := MemberOccurrence(x, s, g, k);
        OneMore(x, s, before, y, g, spellings, t, k, part, e);
        if spellings[k] != t {
          result := Write(result, occurrences[k], t);
        }
        assert occurrences[..k + 1] == occurrences[..k] + [occurrences[k]];
        ItemsAppend(occurrences[..k], [occurrences[k]]);
        part := part + {occurrences[k]};
      }
      assert occurrences[..|occurrences|] == occurrences;
      AllRewritten(x, s, before, Archive(result, contents), g, spellings, t);
    }

    /** Brings group `g`, a root, to its goal. */
    method UnifyGroup(g: nat, newNames: seq<Text>, ghost x: Archive, ghost s: State) returns (result: seq<Text>)
      requires AtRoot(x, s, g) && groups == s.groups && x.names == names
      requires OnTheWay(x, s, Archive(newNames, contents), g)
      modifies this`contents
      ensures OnTheWay(x, s, Archive(result, contents), g + 1)
    {
      hide AtRoot, OnTheWay, Log, Spelled, OneWord, IsTarget, PinsOf, GroupView, Members, GroupOk, PinsOk, InRange;
      hide OnlyCase;
      hide Reads;
      AtRootFacts(x, s, g);
      var group := groups[g];
      result := newNames;
      ghost var y := Archive(newNames, contents);
      ghost var pins := PinsOf(x, Log(x), Members(s, g));
      NowIs(x, y, X());
      ReadableOnTheWay(x, s, y, g);
      var spellings := SpellingsOf(group.occurrences);
      ReadsIs(x, s, y, g, spellings);
      if |group.occurrences| < 2 && group.pin == [] {
        LoneGroup(x, s, g, spellings);
        LeftAlone(x, s, y, g, spellings);
        return;
      }
      if group.pin != [] {
        PinnedIsSpelled(x, s, g);
      }
      OnTheWayIsCase(x, s, y, g);
      GroupIsOneWord(x, s, g, Now(x, y), spellings);
      var target := Choose(group, spellings, pins);
      if target == None {
        LeftAlone(x, s, y, g, spellings);
        return;
      }
      result := Rewrite(g, newNames, spellings, target.value, x, s);
    }

    method AllDistinct(all: seq<Text>) returns (distinct: bool)
      ensures distinct <==> Distinct(all)
    {
      var seen: set<Text> := {};
      for i := 0 to |all|
        invariant seen == Items(all[..i]) && Distinct(all[..i])
      {
        assert all[..i + 1] == all[..i] + [all[i]];
        if all[i] in seen {
          var j :| 0 <= j < i && all[j] == all[i];
          return false;
        }
        seen := seen + {all[i]};
        ItemsAppend(all[..i], [all[i]]);
      }
      assert all[..|all|] == all;
      return true;
    }

    method Unmark()
      modifies this`contents
      ensures |contents| == |old(contents)|
      ensures forall c :: 0 <= c < |contents| ==> contents[c] == old(contents)[c].(changed := false)
    {
      for c := 0 to |contents|
        invariant |contents| == |old(contents)|
        invariant forall d :: 0 <= d < c ==> contents[d] == old(contents)[d].(changed := false)
        invariant forall d :: c <= d < |contents| ==> contents[d] == old(contents)[d]
      {
        contents := contents[c := contents[c].(changed := false)];
      }
    }

    /**
     Spells every group as it is to be. Whatever the archive, only case changes;
     and it is unified exactly if occurrences that share bytes are to be spelled
     alike there. False, with no file marked and no name given, exactly if two
     entries would end up with one name; the bytes in memory are spelled anew
     even then.
    */
    method Unify() returns (ok: bool, newNames: seq<Text>, ghost spelled: seq<Text>)
      requires Sound(X()) && Grouped() && log == Log(X())
      requires forall c :: 0 <= c < |contents| ==> !contents[c].changed
      modifies this`contents, this`parent
      ensures OnlyCase(old(X()), Archive(spelled, contents))
      ensures Unified(old(X()), Archive(spelled, contents)) <==> Agree(old(X()))
      ensures ok <==> Distinct(spelled)
      ensures newNames == if ok then spelled else []
      ensures MarksOk(old(X()), contents, ok)
    {
      hide OnTheWay, Log, Spelled, Goal, Sound, GroupedAs, ForestOk, StateOk, ClassesOk, Settled, Agree, OnlyCase;
      hide Unified, Progress, Marked, MarksOk;
      ghost var x := X();
      ghost var s := S();
      GroupedParts(x, log, s);
      StateForest(x, log, s);
      StartsOnTheWay(x, s);
      newNames := names;
      for g := 0 to |groups|
        invariant OnTheWay(x, s, Archive(newNames, contents), g)
        invariant ForestOk(parent, root, rank, bound) && |parent| == |groups|
      {
        var r := Find(g);
        if r != g {
          SkipsOnTheWay(x, s, Archive(newNames, contents), g);
        } else {
          assert AtRoot(x, s, g);
          newNames := UnifyGroup(g, newNames, x, s);
        }
      }
      AllDone(x, s, Archive(newNames, contents));
      spelled := newNames;
      ok := AllDistinct(newNames);
      if !ok {
        ghost var y := Archive(newNames, contents);
        Unmark();
        UnmarkedIsSame(x, y, Archive(newNames, contents));
        newNames := [];
      } else {
        MarksAre(x, Archive(newNames, contents));
      }
    }

    lemma FlagOf(id: Id)
      requires Grouped() && id in ids
      ensures ids[id] < |parent| && |parent| == |groups| && |root| == |parent| && root[ids[id]] < |groups|
      ensures groups[root[ids[id]]].directory <==> id.Dir?
      ensures ForestOk(parent, root, rank, bound)
    {
      DirectoryFlag(X(), log, S(), id);
    }

    twostate lemma ParentsMoved(s: State)
      requires old(Grouped()) && s == old(S()) && ForestOk(parent, root, rank, bound) && |parent| == |old(parent)|
      requires S() == s.(parent := parent) && log == old(log) && contents == old(contents)
      ensures Grouped()
    {
      Reparented(X(), log, s, parent);
    }
  }

  /** A group is a directory's exactly if its ids are. */
  lemma DirectoryFlag(x: Archive, log: seq<Event>, s: State, id: Id)
    requires GroupedAs(x, log, s) && id in s.ids
    ensures |s.groups| == |s.parent| == |s.root| && s.ids[id] < |s.parent| && RootOf(s, id) < |s.groups|
    ensures RootOf(s, id) == s.root[s.ids[id]] && ForestOk(s.parent, s.root, s.rank, s.bound)
    ensures s.groups[RootOf(s, id)].directory <==> id.Dir?
  {
    RootIsRoot(s, s.ids[id]);
    var r := RootOf(s, id);
    hide ForestOk, Same, LogTrue;
    assert GroupOk(x, log, s.groups[r], Members(s, r)) && id in Members(s, r);
    forall other | other in Members(s, r)
      ensures other.Dir? <==> id.Dir?
    {
      assert RootOf(s, other) == RootOf(s, id);
      SameIsTransitive(Lows(x.names), log, other, id, id);
    }
  }

  lemma PieceIn(name: Text, pieces: seq<Piece>, k: nat)
    requires k < |pieces| && AllOk(Lowered(name), pieces) && NoBackslash(name)
    ensures var p := pieces[k];
      && p.begin <= p.end <= |name|
      && Lowered(name[p.begin..p.end]) == PieceText(Lowered(name), p)
      && (SameButCase(name[p.begin..p.end], Lit("GUI")) <==> PieceText(Lowered(name), p) == Lit("gui"))
  {
    var p := pieces[k];
    assert PieceOk(Lowered(name), p);
    LoweredSlice(name, p.begin, p.end);
    FoldedLiterals();
    var text := name[p.begin..p.end];
    hide Lit;
    if SameButCase(text, Lit("GUI")) {
      CaseIsFolded(text, Lit("GUI"));
    } else if Lowered(text) == Lit("gui") {
      FoldedIsCase(text, Lit("GUI"));
    }
  }

  lemma CanonicalPinOk(x: Archive, i: nat, pieces: seq<Piece>, k: nat)
    requires i < |x.names| && k < |pieces| && AllOk(Lowered(x.names[i]), pieces) && pieces[k].id.Dir?
    ensures var t := PieceText(Lowered(x.names[i]), pieces[k]);
      t in Canonical() ==>
        && EventOk(x, Fixed(pieces[k].id, Canonical()[t]))
        && PinText(x, Fixed(pieces[k].id, Canonical()[t])) == Canonical()[t]
  {
    var t := PieceText(Lowered(x.names[i]), pieces[k]);
    hide Canonical, NameEventOk, EventOk, IdSpelling, PieceText;
    CanonicalPinsOk(x.names[i], i, pieces, k);
    if t in Canonical() {
      var e := Fixed(pieces[k].id, Canonical()[t]);
      assert e in CanonicalPins(Lowered(x.names[i]), pieces, k);
      EntryEventIs(x, i, e);
    }
  }

  lemma LoweredIsCase(name: Text)
    requires NoBackslash(name)
    ensures SameButCase(name, Lowered(name))
  {
  }

  lemma DdsIsEvent(x: Archive, i: nat)
    requires i < |x.names| && IsTexture(Lowered(x.names[i]))
    ensures var e := Fixed(ExtId(Lowered(x.names[i])), Lit("DDS"));
      EventOk(x, e) && PinText(x, e) == Lit("DDS")
  {
    hide NameEventOk, EventOk, IsTexture;
    TexturePinsOk(x.names[i], i);
    var e := Fixed(ExtId(Lowered(x.names[i])), Lit("DDS"));
    assert TexturePins(Lowered(x.names[i]))[0] == e;
    EntryEventIs(x, i, e);
  }

  lemma FullPushed(lows: seq<Text>, full: Index, i: nat)
    requires i < |lows| && FullOk(lows, full, i)
    ensures FullOk(lows, Pushed(full, lows[i], i), i + 1)
  {
    hide Lookup, Pushed;
  }

  lemma IconPushed(lows: seq<Text>, icons: Index, i: nat)
    requires i < |lows| && IconsOk(lows, icons, i) && IsIcon(lows[i])
    ensures IconsOk(lows, Pushed(icons, IconKey(lows[i]), i), i + 1)
  {
    hide Lookup, Pushed, IsIcon, IconKey;
  }

  lemma NoIconPushed(lows: seq<Text>, icons: Index, i: nat)
    requires i < |lows| && IconsOk(lows, icons, i) && !IsIcon(lows[i])
    ensures IconsOk(lows, icons, i + 1)
  {
    hide Lookup, Pushed, IsIcon, IconKey;
  }

  lemma EntryHasNoJoins(low: Text, i: nat)
    ensures NoJoins(EntryEvents(low, i))
  {
    forall e | e in EntryEvents(low, i)
      ensures !e.Join?
    {
      EntryBacked(low, i, e);
    }
  }

  lemma MovedOk(x: Archive, log: seq<Event>, s: State, parent: seq<nat>)
    requires StateOk(x, log, s) && ForestOk(parent, s.root, s.rank, s.bound) && |parent| == |s.parent|
    ensures StateOk(x, log, s.(parent := parent))
  {
    assert |s.root| == |s.groups|;
    hide ForestOk, GroupOk;
    var s' := s.(parent := parent);
    forall g: nat | g < |s.groups| && s.root[g] == g
      ensures GroupOk(x, log, s'.groups[g], Members(s', g))
    {
      assert Members(s', g) == Members(s, g) && GroupOk(x, log, s.groups[g], Members(s, g));
    }
  }

  lemma AlreadyUnited(s: State, parent: seq<nat>, a: Id, b: Id)
    requires RootOf(s, a) == RootOf(s, b)
    ensures RootsUnited(s, s.(parent := parent), a, b)
  {
  }

  lemma United(x: Archive, log: seq<Event>, s: State, parent: seq<nat>, a: Id, b: Id)
    requires StateOk(x, log, s.(parent := parent)) && a in s.ids && b in s.ids && RootOf(s, a) != RootOf(s, b)
    ensures var s1 := s.(parent := parent);
      && RootOf(s, a) < |s.groups| && RootOf(s, b) < |s.groups| && |parent| == |s.groups| && |s.rank| == |s.groups|
      && StateOk(x, log, WithUnion(s1, RootOf(s, a), RootOf(s, b)))
      && RootsUnited(s, WithUnion(s1, RootOf(s, a), RootOf(s, b)), a, b)
  {
    var s1 := s.(parent := parent);
    StateShape(x, log, s1, a);
    StateShape(x, log, s1, b);
    assert RootOf(s1, a) == RootOf(s, a) && RootOf(s1, b) == RootOf(s, b);
    hide StateOk, ForestOk, Merged;
    UnionOk(x, log, s1, RootOf(s, a), RootOf(s, b));
  }

  lemma UnionFields(s: State, ra: nat, rb: nat)
    requires ra < |s.groups| && rb < |s.groups| && |s.parent| == |s.groups| && |s.rank| == |s.groups|
    ensures var top := Max(s.rank[ra], s.rank[rb] + 1);
      WithUnion(s, ra, rb) == State(
        s.groups[ra := Merged(s.groups[ra], s.groups[rb])][rb := EmptyGroup()], s.parent[rb := ra], s.ids,
        Rerooted(s.root, ra, rb), s.rank[ra := top], Max(s.bound, top), s.owner)
  {
  }

  // ---- joining icons ----

  function StemsOf(lows: seq<Text>, list: seq<nat>): set<Id> {
    set i | i in list && i < |lows| :: StemId(lows[i])
  }

  lemma StemsOfMore(lows: seq<Text>, list: seq<nat>, j: nat)
    requires j < |list| && list[j] < |lows|
    ensures StemsOf(lows, list[..j + 1]) == StemsOf(lows, list[..j]) + {StemId(lows[list[j]])}
  {
    hide StemId;
    assert list[..j + 1] == list[..j] + [list[j]];
    forall id | id in StemsOf(lows, list[..j]) + {StemId(lows[list[j]])}
      ensures id in StemsOf(lows, list[..j + 1])
    {
      if id in StemsOf(lows, list[..j]) {
        var i :| i in list[..j] && i < |lows| && id == StemId(lows[i]);
        assert i in list[..j + 1];
      } else {
        assert list[j] in list[..j + 1];
      }
    }
  }

  lemma StemsWithin(lows: seq<Text>, key: Text, list: seq<nat>, j: nat)
    requires list == IconsOf(lows, key, |lows|) && j <= |list|
    ensures StemsOf(lows, list[..j]) <= IconStems(lows, key)
  {
    hide StemId, IconsOf;
    forall i | i in list[..j]
      ensures i in list
    {
    }
  }

  lemma AllStems(lows: seq<Text>, key: Text, list: seq<nat>)
    requires list == IconsOf(lows, key, |lows|) && list != [] && list[0] < |lows|
    ensures {StemId(lows[list[0]])} + StemsOf(lows, list) == IconStems(lows, key)
  {
    hide StemId, IconsOf;
    assert list[0] in list;
  }

  lemma OneJoined(lows: seq<Text>, log: seq<Event>, s: State, id: Id)
    requires ClassesOk(lows, log, s)
    ensures JoinedSoFar(lows, log, s, {id})
  {
    hide RootOf;
  }

  lemma GroupedParts(x: Archive, log: seq<Event>, s: State)
    requires GroupedAs(x, log, s)
    ensures StateOk(x, log, s) && ClassesOk(Lows(x.names), log, s) && LogTrue(x, log)
  {
  }

  lemma IdsFacts(x: Archive, log: seq<Event>, s: State)
    requires StateOk(x, log, s)
    ensures IdsOk(s) && |s.root| == |s.groups|
  {
  }

  /** Logging that an icon's textures are joined, once they are. */
  lemma JoinLogged(x: Archive, log: seq<Event>, s: State, key: Text)
    requires StateOk(x, log, s) && ClassesOk(Lows(x.names), log + [Join(key)], s) && LogTrue(x, log)
    ensures GroupedAs(x, log + [Join(key)], s)
  {
    hide ClassesOk, ForestOk, GroupOk;
    forall g: nat | g < |s.groups| && g < |s.root| && s.root[g] == g
      ensures GroupOk(x, log + [Join(key)], s.groups[g], Members(s, g))
    {
      OtherGroup(x, log, Join(key), s.groups[g], Members(s, g));
    }
    hide Members;
  }

  // ---- strings ----

  lemma PartsAre(parts: seq<Part>, pieces: seq<Piece>, ids: map<Id, nat>)
    requires PartsMatch(parts, pieces, ids)
    ensures |parts| == |pieces|
    ensures forall k :: 0 <= k < |parts| ==>
      && parts[k].begin == pieces[k].begin && parts[k].end == pieces[k].end
      && pieces[k].id in ids && ids[pieces[k].id] == parts[k].group
  {
  }

  lemma PieceSpan(low: Text, pieces: seq<Piece>, k: nat)
    requires AllOk(low, pieces) && k < |pieces|
    ensures pieces[k].begin <= pieces[k].end <= |low|
  {
    assert PieceOk(low, pieces[k]);
  }

  lemma LinkOne(low: Text, pieces: seq<Piece>, k: nat, c: nat, pos: nat, begin: nat, end: nat)
    requires k < |pieces|
    ensures var p := pieces[k];
      LinkEvents(pieces[..k + 1], c, pos, begin, end) == LinkEvents(pieces[..k], c, pos, begin, end)
        + (if begin <= p.begin <= p.end <= end then [Occ(p.id, InContent(c, pos + (p.begin - begin), p.end - p.begin))]
           else [])
  {
    assert pieces[..k + 1][..k] == pieces[..k];
  }

  lemma LinkedOk(x: Archive, c: nat, low: Text, pieces: seq<Piece>, k: nat, pos: nat, begin: nat, end: nat)
    requires AllOk(low, pieces) && k < |pieces| && c < |x.contents|
    requires begin <= pieces[k].begin && pieces[k].end <= end <= |low|
    requires begin <= end && pos + (end - begin) <= |x.contents[c].bytes|
    requires Lowered(x.contents[c].bytes)[pos..pos + (end - begin)] == low[begin..end]
    ensures var p := pieces[k];
      && p.begin <= p.end
      && EventOk(x, Occ(p.id, InContent(c, pos + (p.begin - begin), p.end - p.begin)))
  {
    var p := pieces[k];
    assert PieceOk(low, p);
    assert p.begin <= p.end;
    hide PieceOk, StringEventOk, EventOk, Lowered;
    var e := Occ(p.id, InContent(c, pos + (p.begin - begin), p.end - p.begin));
    LinkedPiece(low, p, x.contents[c].bytes, c, pos, begin, end);
    WithinFile(x.contents[c].bytes, c, pos, end - begin, e);
    ContentEventIs(x, c, e);
  }

  lemma MetadataDirOf(file: Text)
    requires NoBackslash(file) && AfterLast(file, SLASH) > 0
    ensures MetadataDir(Lowered(file)) == Lowered(file[..AfterLast(file, SLASH) - 1])
  {
    SlashPlaces(file);
    KeepsLast(file, Lowered(file), SLASH);
    hide AfterLast;
    LoweredSlice(file, 0, AfterLast(file, SLASH) - 1);
  }

  method IsPlain(raw: Text) returns (ok: bool)
    ensures ok == IsWord(Lowered(raw))
  {
    if |raw| < 3 || |raw| > 255 {
      return false;
    }
    for k := 0 to |raw|
      invariant forall j :: 0 <= j < k ==> Lowered(raw)[j] >= 32
    {
      if raw[k] < 32 {
        assert Lowered(raw)[k] < 32;
        return false;
      }
    }
    return true;
  }

  method FindQuoteEnd(text: Text, at: nat) returns (end: nat)
    requires at < |text|
    ensures end == QuoteEnd(text, at, at + 1)
  {
    end := at + 1;
    while end < |text| && text[end] != text[at] && text[end] != NEWLINE && end - at <= 256
      invariant at < end <= |text| && QuoteEnd(text, at, end) == QuoteEnd(text, at, at + 1)
      decreases |text| - end
    {
      end := end + 1;
    }
  }

  predicate IsGuiMetadata(name: Text) {
    EndsWithAnyCase(name, Lit("/GUI/metadata.lsx")) || EndsWithAnyCase(name, Lit("/GUI/metadata.lsf"))
  }

  lemma FoldedLsx()
    ensures FoldsTo(Lit("/GUI/metadata.lsx"), Lit("/gui/metadata.lsx")) && NoBackslash(Lit("/GUI/metadata.lsx"))
  {
  }

  lemma FoldedLsf()
    ensures FoldsTo(Lit("/GUI/metadata.lsf"), Lit("/gui/metadata.lsf")) && NoBackslash(Lit("/GUI/metadata.lsf"))
  {
  }

  lemma SuffixFolds(name: Text, tail: Text, low: Text)
    requires NoBackslash(name) && NoBackslash(tail) && FoldsTo(tail, low)
    ensures EndsWithAnyCase(name, tail) <==> EndsWith(Lowered(name), low)
  {
    if |name| >= |tail| {
      var at := |name| - |tail|;
      LoweredSlice(name, at, |name|);
      assert name[at..] == name[at..|name|] && Lowered(name)[at..] == Lowered(name)[at..|name|];
      CaseOrFolded(name[at..], tail);
    }
  }

  lemma CaseOrFolded(a: Text, b: Text)
    requires NoBackslash(a) && NoBackslash(b)
    ensures SameButCase(a, b) <==> Lowered(a) == Lowered(b)
  {
    if Lowered(a) == Lowered(b) {
      forall i | 0 <= i < |a|
        ensures LowerByte(a[i]) == LowerByte(b[i])
      {
        assert Lowered(a)[i] == Lowered(b)[i] && a[i] != BACKSLASH && b[i] != BACKSLASH;
      }
    } else if SameButCase(a, b) {
      CaseIsFolded(a, b);
    }
  }

  lemma GuiFolds(file: Text)
    requires NoBackslash(file)
    ensures IsGuiMetadata(file) <==> GuiMetadata(Lowered(file))
    ensures IsGuiMetadata(file) ==> AfterLast(file, SLASH) > 0
  {
    FoldedLsx();
    FoldedLsf();
    hide Lit, AfterLast;
    SuffixFolds(file, Lit("/GUI/metadata.lsx"), Lit("/gui/metadata.lsx"));
    SuffixFolds(file, Lit("/GUI/metadata.lsf"), Lit("/gui/metadata.lsf"));
    if IsGuiMetadata(file) {
      StartsWithSlash();
      var at := |file| - 17;
      assert Lowered(file)[at..][0] == SLASH;
      assert file[at] == SLASH;
    }
  }

  lemma StartsWithSlash()
    ensures Lit("/gui/metadata.lsx")[0] == SLASH && Lit("/gui/metadata.lsf")[0] == SLASH
  {
  }

  lemma UniqueTail(lows: seq<Text>, key: Text)
    ensures var u := Unique(TailOf(lows, key, |lows|));
      u.Some? ==> u.value < |lows|
  {
    UniqueIn(TailOf(lows, key, |lows|));
    var u := Unique(TailOf(lows, key, |lows|));
    hide TailOf;
    if u.Some? {
      InTailOf(lows, key, |lows|, u.value);
    }
  }

  lemma NoStrings(lows: seq<Text>, content: Content, c: nat)
    ensures ContentEvents(lows, content, c, []) == []
  {
  }

  lemma StringsStep(lows: seq<Text>, content: Content, c: nat, tokens: seq<Token>, t: Token)
    ensures ContentEvents(lows, content, c, tokens + [t]) ==
      ContentEvents(lows, content, c, tokens) + StringEvents(lows, content, c, t)
  {
    assert (tokens + [t])[..|tokens|] == tokens;
  }

  // ---- unifying ----

  lemma AtRootFacts(x: Archive, s: State, g: nat)
    requires AtRoot(x, s, g)
    ensures g < |s.groups| && Sound(x) && StateOk(x, Log(x), s)
  {
  }

  lemma StateForest(x: Archive, log: seq<Event>, s: State)
    requires StateOk(x, log, s)
    ensures ForestOk(s.parent, s.root, s.rank, s.bound) && |s.parent| == |s.groups|
  {
  }

  /** The spellings of a group as the fixer reads them on the way. */
  ghost predicate Reads(x: Archive, s: State, y: Archive, g: nat, spellings: seq<Text>)
    requires g < |s.groups|
  {
    var occurrences := s.groups[g].occurrences;
    && |spellings| == |occurrences|
    && forall k :: 0 <= k < |spellings| ==> spellings[k] == Spelled(Now(x, y), occurrences[k])
  }

  lemma ReadsLength(x: Archive, s: State, y: Archive, g: nat, spellings: seq<Text>)
    requires g < |s.groups| && Reads(x, s, y, g, spellings)
    ensures |spellings| == |s.groups[g].occurrences|
  {
  }

  lemma NowIs(x: Archive, y: Archive, now: Archive)
    requires now.names == x.names && now.contents == y.contents
    ensures now == Now(x, y)
  {
  }

  lemma OnTheWayIsCase(x: Archive, s: State, y: Archive, g: nat)
    requires OnTheWay(x, s, y, g)
    ensures OnlyCase(x, y) && OnlyCase(x, Now(x, y))
  {
    NowIsCase(x, y);
  }

  lemma ReadableOnTheWay(x: Archive, s: State, y: Archive, g: nat)
    requires AtRoot(x, s, g) && OnTheWay(x, s, y, g)
    ensures forall k :: 0 <= k < |s.groups[g].occurrences| ==> InRange(Now(x, y), s.groups[g].occurrences[k])
  {
    hide Log, AtRoot, OnTheWay, Spelled, InRange, OnlyCase;
    AtRootFacts(x, s, g);
    OnTheWayIsCase(x, s, y, g);
    forall k | 0 <= k < |s.groups[g].occurrences|
      ensures InRange(Now(x, y), s.groups[g].occurrences[k])
    {
      MemberSpells(x, s, g, Now(x, y), k);
    }
  }

  lemma ReadsIs(x: Archive, s: State, y: Archive, g: nat, spellings: seq<Text>)
    requires g < |s.groups| && |spellings| == |s.groups[g].occurrences|
    requires forall k :: 0 <= k < |spellings| ==> spellings[k] == Spelled(Now(x, y), s.groups[g].occurrences[k])
    ensures Reads(x, s, y, g, spellings)
  {
    hide Spelled;
  }

  /** A group of which nothing is chosen is left as it is, and is as it is to be. */
  lemma LeftAlone(x: Archive, s: State, y: Archive, g: nat, spellings: seq<Text>)
    requires AtRoot(x, s, g) && OnTheWay(x, s, y, g) && Reads(x, s, y, g, spellings)
    requires var v := GroupView(s.groups[g], spellings, PinsOf(x, Log(x), Members(s, g)));
      forall t :: !IsTarget(v, t)
    ensures OnTheWay(x, s, y, g + 1)
  {
    hide Log, Progress, AtRoot, Goal, Spelled, RootOf, PinsOf, Members, IsTarget, GroupView, Agree, OnlyCase, Marked;
    AtRootFacts(x, s, g);
    if Agree(x) {
      forall e | e in Log(x) && e.Occ? && RootOf(s, e.id) == g
        ensures Spelled(Now(x, y), e.at) == Goal(x, e)
      {
        ChosenOk(x, s, y, g, spellings, None, e);
      }
      ProgressLeaves(x, s, y, g);
    }
  }

  lemma RewritingStarts(x: Archive, s: State, before: Archive, g: nat)
    requires OnTheWay(x, s, before, g)
    ensures OnlyCase(x, before) && Marked(x, before) && Rewriting(x, before, before, {})
  {
    hide Log, Spelled, InRange, Agree, OnlyCase, Marked;
  }

  /** One more occurrence: written where it reads otherwise, and as it is to be then. */
  lemma OneMore(x: Archive, s: State, before: Archive, y: Archive, g: nat, spellings: seq<Text>, t: Text, k: nat,
                part: set<Occurrence>, e: Event)
    requires AtRoot(x, s, g) && OnTheWay(x, s, before, g) && Reads(x, s, before, g, spellings) && k < |spellings|
    requires IsTarget(GroupView(s.groups[g], spellings, PinsOf(x, Log(x), Members(s, g))), t)
    requires OnlyCase(x, y) && Marked(x, y) && (Agree(x) ==> Rewriting(x, before, y, part))
    requires e in Log(x) && e.Occ? && e.at == s.groups[g].occurrences[k] && RootOf(s, e.id) == g
    ensures InRange(y, e.at) && e.at.len == |t|
    ensures var y' := if spellings[k] != t then Put(y, e.at, t) else y;
      && OnlyCase(x, y') && Marked(x, y') && (Agree(x) ==> Rewriting(x, before, y', part + {e.at}))
  {
    hide AtRoot, OnTheWay, Log, Spelled, Goal, Rewriting, RootOf, Put, OnlyCase, Agree, IsTarget, Marked, GroupView;
    hide PinsOf;
    hide Members, InRange;
    AtRootFacts(x, s, g);
    OnTheWayIsCase(x, s, before, g);
    TargetIsCase(x, s, g, Now(x, before), spellings, t, k);
    LogRange(x, e);
    OnlyCaseRange(x, y, e.at);
    if Agree(x) {
      GoalOnTheWay(x, s, before, g, spellings, t, k, e);
    }
    if spellings[k] != t {
      PutIsCase(x, y, e.at, t);
      MarkedStill(x, y, e, t);
      if Agree(x) {
        OnlyCaseShape(x, y);
        RewriteOne(x, before, y, part, t, e);
      }
    } else if Agree(x) {
      RewriteNone(x, before, y, part, e);
    }
  }

  lemma OnlyCaseShape(x: Archive, y: Archive)
    requires OnlyCase(x, y)
    ensures SameShape(x, y)
  {
  }

  lemma LogRange(x: Archive, e: Event)
    requires Sound(x) && e in Log(x) && e.Occ?
    ensures InRange(x, e.at)
  {
    LogOk(x);
    hide Log, Sound;
    assert EventOk(x, e);
  }

  /** What an occurrence is to be, and that it is not so yet where it reads otherwise. */
  lemma GoalOnTheWay(x: Archive, s: State, before: Archive, g: nat, spellings: seq<Text>, t: Text, k: nat, e: Event)
    requires AtRoot(x, s, g) && OnTheWay(x, s, before, g) && Reads(x, s, before, g, spellings) && k < |spellings|
    requires IsTarget(GroupView(s.groups[g], spellings, PinsOf(x, Log(x), Members(s, g))), t)
    requires e in Log(x) && e.Occ? && e.at == s.groups[g].occurrences[k] && RootOf(s, e.id) == g && Agree(x)
    ensures Goal(x, e) == t && (spellings[k] != t ==> Spelled(x, e.at) != t)
    ensures spellings[k] == t ==>
      forall o :: InRange(x, o) && o.len == 1 && Covers(e, o) ==> Spelled(before, o) == [CellGoal(x, o)]
  {
    hide AtRoot, Log, Spelled, Goal, Progress, RootOf, OnlyCase, Agree, IsTarget, Marked, GroupView, PinsOf, CellGoal;
    hide Members, InRange, Covers;
    AtRootFacts(x, s, g);
    ChosenOk(x, s, before, g, spellings, Some(t), e);
    NowIsMixed(x, s, before, g, e);
    if Spelled(x, e.at) == t {
      MixedSame(t, spellings[k]);
    }
    if spellings[k] == t {
      ReadsDone(x, s, before, g, e);
    }
  }

  lemma AllRewritten(x: Archive, s: State, before: Archive, y: Archive, g: nat, spellings: seq<Text>, t: Text)
    requires AtRoot(x, s, g) && OnTheWay(x, s, before, g) && Reads(x, s, before, g, spellings)
    requires IsTarget(GroupView(s.groups[g], spellings, PinsOf(x, Log(x), Members(s, g))), t)
    requires OnlyCase(x, y) && Marked(x, y)
    requires Agree(x) ==> Rewriting(x, before, y, Items(s.groups[g].occurrences))
    ensures OnTheWay(x, s, y, g + 1)
  {
    hide AtRoot, Log, Spelled, Goal, Progress, RootOf, OnlyCase, Agree, IsTarget, Marked, GroupView, PinsOf, Rewriting;
    hide Members;
    AtRootFacts(x, s, g);
    if Agree(x) {
      forall e | e in Log(x) && e.Occ? && RootOf(s, e.id) == g
        ensures e.at in Items(s.groups[g].occurrences)
      {
        ChosenOk(x, s, before, g, spellings, Some(t), e);
      }
      ProgressRewrites(x, s, before, y, g, Items(s.groups[g].occurrences));
    }
  }

  lemma SkipsOnTheWay(x: Archive, s: State, y: Archive, g: nat)
    requires OnTheWay(x, s, y, g) && Sound(x) && StateOk(x, Log(x), s) && g < |s.groups| && s.root[g] != g
    ensures OnTheWay(x, s, y, g + 1)
  {
    hide Log, Progress, StateOk, Agree, OnlyCase, Marked, Sound;
    if Agree(x) {
      ProgressSkips(x, s, y, g);
    }
  }

  /** With every group brought to its goal: unified exactly if occurrences agree. */
  lemma AllDone(x: Archive, s: State, y: Archive)
    requires OnTheWay(x, s, y, |s.groups|) && Sound(x) && StateOk(x, Log(x), s)
    ensures OnlyCase(x, y) && Marked(x, y) && (Unified(x, y) <==> Agree(x))
  {
    hide Log, Progress, StateOk, Agree, OnlyCase, Marked, Sound, Unified;
    if Agree(x) {
      OnlyCaseShape(x, y);
      ProgressDone(x, s, y);
    }
    if Unified(x, y) {
      AgreeIfUnified(x, y);
    }
  }

  /** Which files are marked: those that changed; where occurrences agree, only those; and none on failure. */
  ghost predicate MarksOk(x: Archive, contents: seq<Content>, ok: bool) {
    && |contents| == |x.contents|
    && forall c :: 0 <= c < |contents| ==>
         && (ok && contents[c].bytes != x.contents[c].bytes ==> contents[c].changed)
         && (contents[c].changed ==> ok && (Agree(x) ==> contents[c].bytes != x.contents[c].bytes))
  }

  lemma MarksAre(x: Archive, y: Archive)
    requires Marked(x, y)
    ensures MarksOk(x, y.contents, true)
  {
    hide Agree;
  }

  /** What a file is marked as is no part of how it is spelled. */
  lemma UnmarkedIsSame(x: Archive, y: Archive, z: Archive)
    requires OnlyCase(x, y) && z.names == y.names && |z.contents| == |y.contents|
    requires forall c :: 0 <= c < |y.contents| ==> z.contents[c] == y.contents[c].(changed := false)
    ensures OnlyCase(x, z) && (Unified(x, z) <==> Unified(x, y)) && MarksOk(x, z.contents, false)
  {
    hide Log, Goal, Agree;
    forall o
      ensures Spelled(z, o) == Spelled(y, o)
    {
    }
    hide Spelled;
  }

  lemma WholeTail(s: Text, n: nat)
    requires n <= |s|
    ensures s[|s| - n..] == s[|s| - n..|s|]
  {
  }

  lemma HeadOfWord(bytes: Text, pos: nat, key: Text, n: nat)
    requires pos + |key| <= |bytes| && Lowered(bytes[pos..pos + |key|]) == key && n <= |key|
    ensures Lowered(bytes)[pos..pos + n] == key[..n]
  {
    LoweredSlice(bytes, pos, pos + |key|);
  }

  lemma AllJoined(x: Archive, log: seq<Event>, s: State, key: Text, list: seq<nat>)
    requires StateOk(x, log, s) && LogTrue(x, log)
    requires var lows := Lows(x.names);
      && list == IconsOf(lows, key, |lows|) && list != [] && list[0] < |lows|
      && JoinedSoFar(lows, log, s, {StemId(lows[list[0]])} + StemsOf(lows, list))
    ensures GroupedAs(x, log + [Join(key)], s)
  {
    hide StateOk, LogTrue, JoinedSoFar, ClassesOk, GroupedAs, IconsOf, StemId, StemsOf, IconStems;
    var lows := Lows(x.names);
    AllStems(lows, key, list);
    JoinedAll(lows, log, s, key);
    JoinLogged(x, log, s, key);
  }

  lemma PiecesAre(low: Text)
    ensures Pieces(low) == DirPieces(low, 0) + [StemPiece(low)] + (if HasExt(low) then [ExtPiece(low)] else [])
  {
  }

  lemma LeafLowered(name: Text)
    requires NoBackslash(name)
    ensures Lowered(Leaf(name)) == Leaf(Lowered(name))
  {
    SlashPlaces(name);
    KeepsLast(name, Lowered(name), SLASH);
    hide AfterLast;
    LoweredSlice(name, AfterLast(name, SLASH), |name|);
    assert name[AfterLast(name, SLASH)..] == name[AfterLast(name, SLASH)..|name|];
  }

  lemma OwnText(x: Archive, i: nat, p: Piece)
    requires i < |x.names| && p.begin <= p.end <= |x.names[i]|
    ensures PinText(x, Own(p.id, At(p, i))) == x.names[i][p.begin..p.end]
  {
  }

  /**
   What the fixer makes of an archive's names and files: only case changes, and
   it is the archive's one unified spelling exactly if it has one. The names are
   given unless two entries would then have one.
  */
  method Fix(names: seq<Text>, contents: seq<Content>)
      returns (ok: bool, newNames: seq<Text>, newContents: seq<Content>, ghost spelled: seq<Text>)
    requires Sound(Archive(names, contents))
    requires forall c :: 0 <= c < |contents| ==> !contents[c].changed
    ensures OnlyCase(Archive(names, contents), Archive(spelled, newContents))
    ensures Unified(Archive(names, contents), Archive(spelled, newContents)) <==> Agree(Archive(names, contents))
    ensures (ok <==> Distinct(spelled)) && newNames == if ok then spelled else []
    ensures MarksOk(Archive(names, contents), newContents, ok)
  {
    hide Unified, OnlyCase, Log, EntriesEvents, Agree, MarksOk;
    var fixer := new Fixer(names, contents);
    fixer.Scan();
    ok, newNames, spelled := fixer.Unify();
    newContents := fixer.contents;
  }

  /**
   Why names must have no backslash: it is folded to a slash, so "a\\b" is
   given the id of "b" below "a", which is not as long.
  */
  lemma BackslashMixesLengths()
    ensures var a, b := Lit("a\\b/c"), Lit("a/b/c");
      && FirstFrom(a, SLASH, 0) == 3 && FirstFrom(b, SLASH, 0) == 1 && FirstFrom(b, SLASH, 2) == 3
      && Dir(Lowered(a)[..3]) == Dir(Lowered(b)[..3]) && |a[0..3]| != |b[2..3]|
  {
    var a, b := Lit("a\\b/c"), Lit("a/b/c");
    assert a == [97, 92, 98, 47, 99] && b == [97, 47, 98, 47, 99];
    FirstUnique(a, SLASH, 0, 3);
    FirstUnique(b, SLASH, 0, 1);
    FirstUnique(b, SLASH, 2, 3);
    assert Lowered(a)[..3] == Lowered(b)[..3];
  }

  lemma NoParts(ids: map<Id, nat>, i: nat)
    ensures PartsMatch([], [], ids) && PieceEvents([], i) == []
  {
  }

  lemma SlashPlaces(name: Text)
    requires NoBackslash(name)
    ensures SamePlaces(name, Lowered(name), SLASH) && SamePlaces(name, Lowered(name), DOT)
  {
  }

  lemma PieceIsEvent(x: Archive, i: nat, p: Piece)
    requires i < |x.names| && PieceOk(Lowered(x.names[i]), p)
    ensures p.begin <= p.end
    ensures EventOk(x, Occ(p.id, At(p, i))) && EventOk(x, Own(p.id, At(p, i)))
  {
    PieceEventOk(x.names[i], i, p);
    hide NameEventOk, EventOk, PieceOk;
    EntryEventIs(x, i, Occ(p.id, At(p, i)));
    EntryEventIs(x, i, Own(p.id, At(p, i)));
  }
}
