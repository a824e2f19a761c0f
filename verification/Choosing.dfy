/**
 What a group is to be spelled as, told from its occurrences and pin
 (`choose` in src/pak_fix.cpp), and putting a spelling in its place.
*/
module Choosing {
  import opened Grouping
  import opened References
  import opened Scanning
  import opened Spelling
  import opened Unification
  import opened Wrappers

  /** The spellings of a group, all one but for case. */
  predicate OneWord(spellings: seq<Text>) {
    spellings != [] && forall k :: 0 <= k < |spellings| ==> SameButCase(spellings[0], spellings[k])
  }

  function InNames(occurrences: seq<Occurrence>, spellings: seq<Text>): set<Text>
    requires |occurrences| == |spellings|
  {
    set k | 0 <= k < |occurrences| && occurrences[k].InName? :: spellings[k]
  }

  function GroupView(g: Group, spellings: seq<Text>, pins: set<Text>): View
    requires |g.occurrences| == |spellings|
  {
    View(Items(spellings), InNames(g.occurrences, spellings), pins, g.directory)
  }

  method AllSame(spellings: seq<Text>) returns (same: bool)
    requires spellings != []
    ensures same <==> forall k :: 0 <= k < |spellings| ==> spellings[k] == spellings[0]
  {
    same := true;
    for k := 0 to |spellings|
      invariant same <==> forall j :: 0 <= j < k ==> spellings[j] == spellings[0]
    {
      same := same && spellings[k] == spellings[0];
    }
  }

  lemma SameMeansNoDifference(spellings: seq<Text>)
    requires spellings != []
    ensures Differ(Items(spellings)) <==> exists k :: 0 <= k < |spellings| && spellings[k] != spellings[0]
  {
    if k :| 0 <= k < |spellings| && spellings[k] != spellings[0] {
      assert spellings[k] in Items(spellings) && spellings[0] in Items(spellings);
    }
  }

  /** The archive's one spelling of a directory; none if it has several. */
  method ArchiveSpelling(occurrences: seq<Occurrence>, spellings: seq<Text>) returns (r: Option<Text>)
    requires |occurrences| == |spellings| && forall k :: 0 <= k < |spellings| ==> spellings[k] != []
    ensures r.Some? ==> InNames(occurrences, spellings) == {r.value}
    ensures r == None ==> forall t :: InNames(occurrences, spellings) != {t}
  {
    var archive: Text := [];
    for k := 0 to |spellings|
      invariant archive == [] ==> forall j :: 0 <= j < k ==> !occurrences[j].InName?
      invariant archive != [] ==> exists j :: 0 <= j < k && occurrences[j].InName? && spellings[j] == archive
      invariant forall j :: 0 <= j < k && occurrences[j].InName? ==> spellings[j] == archive
    {
      if occurrences[k].InContent? {
        continue;
      }
      if archive == [] {
        archive := spellings[k];
      } else if archive != spellings[k] {
        assert archive in InNames(occurrences, spellings) && spellings[k] in InNames(occurrences, spellings);
        return None;
      }
    }
    if archive == [] {
      assert InNames(occurrences, spellings) == {};
      forall t: Text
        ensures InNames(occurrences, spellings) != {t}
      {
        assert t in {t};
      }
      return None;
    }
    assert InNames(occurrences, spellings) == {archive};
    return Some(archive);
  }

  /** Whether the spellings differ at `c` from the first. */
  method DifferAt(spellings: seq<Text>, c: nat) returns (r: bool)
    requires OneWord(spellings) && c < |spellings[0]|
    ensures r <==> !AgreeAt(Items(spellings), c)
  {
    for k := 0 to |spellings|
      invariant forall j :: 0 <= j < k ==> spellings[j][c] == spellings[0][c]
    {
      if spellings[k][c] != spellings[0][c] {
        assert spellings[k] in Items(spellings) && spellings[0] in Items(spellings);
        return true;
      }
    }
    return false;
  }

  /** The spellings' common bytes, and lower case where they differ. */
  method Blend(spellings: seq<Text>) returns (t: Text)
    requires OneWord(spellings)
    ensures Blends(Items(spellings), t)
  {
    var first := spellings[0];
    t := first;
    for c := 0 to |first|
      invariant |t| == |first| && forall k :: c <= k < |first| ==> t[k] == first[k]
      invariant forall k :: 0 <= k < c ==>
        t[k] == if AgreeAt(Items(spellings), k) then first[k] else LowerByte(first[k])
    {
      var differ := DifferAt(spellings, c);
      if differ {
        t := t[c := LowerByte(t[c])];
      }
    }
    BlendAll(spellings, t);
  }

  lemma BlendAll(spellings: seq<Text>, t: Text)
    requires OneWord(spellings) && |t| == |spellings[0]|
    requires forall k :: 0 <= k < |t| ==>
      t[k] == if AgreeAt(Items(spellings), k) then spellings[0][k] else LowerByte(spellings[0][k])
    ensures Blends(Items(spellings), t)
  {
    forall s, k | s in Items(spellings) && 0 <= k < |t|
      ensures |s| == |t|
      ensures t[k] == if AgreeAt(Items(spellings), k) then ByteAt(s, k) else LowerByte(ByteAt(s, k))
    {
      assert SameButCase(spellings[0], s);
      assert LowerByte(spellings[0][k]) == LowerByte(s[k]);
      assert spellings[0] in Items(spellings);
    }
    forall s | s in Items(spellings)
      ensures |s| == |t|
    {
      assert SameButCase(spellings[0], s);
    }
  }

  /** What to spell a group as, or nothing: the target of its spellings and pins. */
  method Choose(g: Group, spellings: seq<Text>, ghost pins: set<Text>) returns (target: Option<Text>)
    requires |g.occurrences| == |spellings| && OneWord(spellings) && PinsOk(g, pins)
    requires forall p :: p in pins ==> |p| == |spellings[0]|
    ensures var v := GroupView(g, spellings, pins);
      if target.Some? then IsTarget(v, target.value) && |target.value| == |spellings[0]|
      else forall t :: !IsTarget(v, t)
  {
    hide SameButCase, AgreeAt, ByteAt;
    if g.pinConflict {
      TwoPins(g, pins);
      return None;
    }
    if g.pin != [] {
      assert pins == {g.pin};
      return if |g.pin| == |spellings[0]| then Some(g.pin) else None;
    }
    SameMeansNoDifference(spellings);
    var same := AllSame(spellings);
    if same {
      return None;
    }
    LengthsAgree(spellings);
    if g.directory {
      target := ArchiveSpelling(g.occurrences, spellings);
      return;
    }
    var t := Blend(spellings);
    assert spellings[0] in Items(spellings);
    return Some(t);
  }

  lemma TwoPins(g: Group, pins: set<Text>)
    requires PinsOk(g, pins) && g.pinConflict
    ensures forall t :: pins != {t}
  {
    var p :| p in pins && p != g.pin;
    assert g.pin != [];
    forall t: Text
      ensures pins != {t}
    {
      assert t == p ==> g.pin !in {t};
      assert t != p ==> p !in {t};
    }
  }

  lemma LengthsAgree(spellings: seq<Text>)
    requires OneWord(spellings) && exists k :: 0 <= k < |spellings| && spellings[k] != spellings[0]
    ensures forall k :: 0 <= k < |spellings| ==> |spellings[k]| == |spellings[0]| && spellings[k] != []
  {
    forall k | 0 <= k < |spellings|
      ensures |spellings[k]| == |spellings[0]|
    {
      assert SameButCase(spellings[0], spellings[k]);
    }
    var k :| 0 <= k < |spellings| && spellings[k] != spellings[0];
    assert |spellings[k]| > 0;
  }

  // ---- putting a spelling in its place ----

  function Splice(s: Text, pos: nat, t: Text): (r: Text)
    requires pos + |t| <= |s|
    ensures |r| == |s|
  {
    s[..pos] + t + s[pos + |t|..]
  }

  lemma SpliceHere(s: Text, pos: nat, t: Text)
    requires pos + |t| <= |s|
    ensures Splice(s, pos, t)[pos..pos + |t|] == t
  {
  }

  lemma SpliceAt(s: Text, pos: nat, t: Text, k: nat)
    requires pos + |t| <= |s| && k < |s|
    ensures Splice(s, pos, t)[k] == if pos <= k < pos + |t| then t[k - pos] else s[k]
  {
  }

  function Put(x: Archive, o: Occurrence, t: Text): Archive
    requires InRange(x, o) && o.len == |t|
  {
    match o
    case InName(i, pos, _) => x.(names := x.names[i := Splice(x.names[i], pos, t)])
    case InContent(c, pos, _) =>
      x.(contents := x.contents[c := x.contents[c].(bytes := Splice(x.contents[c].bytes, pos, t), changed := true)])
  }

  lemma PutShape(x: Archive, y: Archive, o: Occurrence, t: Text)
    requires SameShape(x, y) && InRange(y, o) && o.len == |t|
    ensures SameShape(x, Put(y, o, t))
  {
  }

  lemma PutHere(x: Archive, o: Occurrence, t: Text)
    requires InRange(x, o) && o.len == |t|
    ensures Spelled(Put(x, o, t), o) == t
  {
    if o.InName? {
      SpliceHere(x.names[o.index], o.pos, t);
    } else {
      SpliceHere(x.contents[o.content].bytes, o.pos, t);
    }
  }

  /** A byte after a spelling is put in its place: the spelling's there, and as it was elsewhere. */
  lemma PutCell(y: Archive, e: Event, t: Text, o: Occurrence)
    requires e.Occ? && InRange(y, e.at) && e.at.len == |t| && InRange(y, o) && o.len == 1
    ensures Spelled(Put(y, e.at, t), o) ==
      if Covers(e, o) then [ByteAt(t, o.pos - e.at.pos)] else Spelled(y, o)
  {
    hide Splice;
    if e.at.InName? && o.InName? && o.index == e.at.index {
      SpliceCell(y.names[o.index], e.at.pos, t, o.pos);
    } else if e.at.InContent? && o.InContent? && o.content == e.at.content {
      SpliceCell(y.contents[o.content].bytes, e.at.pos, t, o.pos);
    }
  }

  lemma SpliceCell(s: Text, pos: nat, t: Text, k: nat)
    requires pos + |t| <= |s| && k < |s|
    ensures Splice(s, pos, t)[k..k + 1] ==
      if pos <= k && k + 1 <= pos + |t| then [ByteAt(t, k - pos)] else s[k..k + 1]
  {
    SpliceAt(s, pos, t, k);
    hide Splice;
  }

  // ---- how far the unifying has come ----

  /** A byte of an occurrence of one of the groups before `g`. */
  ghost predicate Reached(x: Archive, s: State, o: Occurrence, g: nat) {
    exists e :: e in Log(x) && Covers(e, o) && RootOf(s, e.id) < g
  }

  /** The groups before `g` are spelled as they are to be; what is no part of them is as it was. */
  ghost predicate Progress(x: Archive, s: State, y: Archive, g: nat) {
    forall o :: InRange(x, o) && o.len == 1 ==>
      Spelled(y, o) == if Reached(x, s, o, g) then [CellGoal(x, o)] else Spelled(x, o)
  }

  /** A byte of one of the occurrences in `part`. */
  ghost predicate Within(x: Archive, o: Occurrence, part: set<Occurrence>) {
    exists e :: e in Log(x) && Covers(e, o) && e.at in part
  }

  /** Of group `g`, the occurrences in `part` are spelled as they are to be; the rest is as before. */
  ghost predicate Rewriting(x: Archive, before: Archive, y: Archive, part: set<Occurrence>) {
    forall o :: InRange(x, o) && o.len == 1 ==>
      Spelled(y, o) == if Within(x, o, part) then [CellGoal(x, o)] else Spelled(before, o)
  }

  /** A file is marked if its bytes changed; and where occurrences agree, only then. */
  ghost predicate Marked(x: Archive, y: Archive) {
    && |y.contents| == |x.contents|
    && forall c :: 0 <= c < |x.contents| ==>
         && (!y.contents[c].changed ==> y.contents[c].bytes == x.contents[c].bytes)
         && (Agree(x) && y.contents[c].changed ==> y.contents[c].bytes != x.contents[c].bytes)
  }

  // ---- one occurrence ----

  /** Putting the same word but for case where a word is changes nothing but case. */
  lemma PutIsCase(x: Archive, y: Archive, o: Occurrence, t: Text)
    requires OnlyCase(x, y) && InRange(y, o) && o.len == |t| && SameButCase(Spelled(x, o), t)
    ensures OnlyCase(x, Put(y, o, t))
  {
    PutShape(x, y, o, t);
    SameRange(x, y, o);
    if o.InName? {
      SpliceIsCase(x.names[o.index], y.names[o.index], o.pos, t);
    } else {
      SpliceIsCase(x.contents[o.content].bytes, y.contents[o.content].bytes, o.pos, t);
    }
  }

  lemma SpliceIsCase(a: Text, b: Text, pos: nat, t: Text)
    requires SameButCase(a, b) && pos + |t| <= |a| && SameButCase(a[pos..pos + |t|], t)
    ensures SameButCase(a, Splice(b, pos, t))
  {
    forall k | 0 <= k < |a|
      ensures LowerByte(a[k]) == LowerByte(Splice(b, pos, t)[k])
    {
      SpliceAt(b, pos, t, k);
      if pos <= k < pos + |t| {
        assert a[pos..pos + |t|][k - pos] == a[k];
      }
    }
  }

  /** Spelling one occurrence as it is to be. */
  lemma RewriteOne(x: Archive, before: Archive, y: Archive, part: set<Occurrence>, t: Text, e: Event)
    requires Agree(x) && SameShape(x, y) && Rewriting(x, before, y, part)
    requires e in Log(x) && e.Occ? && e.at.len == |t| && InRange(y, e.at) && Goal(x, e) == t
    ensures Rewriting(x, before, Put(y, e.at, t), part + {e.at})
  {
    hide Log, Agree, Put, Spelled, InRange, Covers, CellGoal, Goal, SameShape, ByteAt;
    forall o: Occurrence | InRange(x, o) && o.len == 1
      ensures Spelled(Put(y, e.at, t), o) ==
        if Within(x, o, part + {e.at}) then [CellGoal(x, o)] else Spelled(before, o)
    {
      SameRange(x, y, o);
      PutCell(y, e, t, o);
      WithinOne(x, o, part, e);
      if Covers(e, o) {
        CellGoalIs(x, e, o);
      }
    }
  }

  /** A byte of one more occurrence; every occurrence of that range covers it too. */
  lemma WithinOne(x: Archive, o: Occurrence, part: set<Occurrence>, e: Event)
    requires e in Log(x) && e.Occ?
    ensures Within(x, o, part + {e.at}) <==> Within(x, o, part) || Covers(e, o)
  {
    hide Log;
    if Within(x, o, part + {e.at}) {
      var f :| f in Log(x) && Covers(f, o) && f.at in part + {e.at};
      assert f.at !in part ==> Covers(e, o);
    }
    if Within(x, o, part) {
      var f :| f in Log(x) && Covers(f, o) && f.at in part;
      assert f.at in part + {e.at};
    }
    if Covers(e, o) {
      assert e.at in part + {e.at};
    }
  }

  /** An occurrence whose bytes are as they are to be before needs no rewriting. */
  lemma RewriteNone(x: Archive, before: Archive, y: Archive, part: set<Occurrence>, e: Event)
    requires Rewriting(x, before, y, part) && e in Log(x) && e.Occ?
    requires forall o :: InRange(x, o) && o.len == 1 && Covers(e, o) ==> Spelled(before, o) == [CellGoal(x, o)]
    ensures Rewriting(x, before, y, part + {e.at})
  {
    hide Log, Spelled, InRange, Covers, CellGoal;
    forall o: Occurrence | InRange(x, o) && o.len == 1
      ensures Spelled(y, o) == if Within(x, o, part + {e.at}) then [CellGoal(x, o)] else Spelled(before, o)
    {
      WithinOne(x, o, part, e);
    }
  }

  // ---- the files changed ----

  /** Spelling an occurrence in a file otherwise marks the file. */
  lemma MarkedStill(x: Archive, y: Archive, e: Event, t: Text)
    requires OnlyCase(x, y) && Marked(x, y) && e.Occ? && e.at.len == |t| && InRange(y, e.at)
    requires Agree(x) ==> Spelled(x, e.at) != t
    ensures Marked(x, Put(y, e.at, t))
  {
    hide Agree;
    PutHere(y, e.at, t);
    SameRange(x, y, e.at);
    PutContents(y, e.at, t);
  }

  lemma PutContents(y: Archive, o: Occurrence, t: Text)
    requires InRange(y, o) && o.len == |t|
    ensures |Put(y, o, t).contents| == |y.contents|
    ensures forall c :: 0 <= c < |y.contents| ==>
      Put(y, o, t).contents[c] == y.contents[c] || (o.InContent? && o.content == c && Put(y, o, t).contents[c].changed)
  {
  }

  // ---- a group's goal ----

  lemma MembersAreSame(x: Archive, s: State, g: nat, id: Id, other: Id)
    requires ClassesOk(Lows(x.names), Log(x), s) && id in Members(s, g) && other in s.ids
    requires |s.root| == |s.groups| && IdsOk(s)
    ensures other in Members(s, g) <==> Same(Lows(x.names), Log(x), other, id)
  {
    hide Log, Same;
  }

  /** A group's occurrences and pin are all that its goal depends on. */
  lemma GroupTells(x: Archive, s: State, g: nat, spellings: seq<Text>, id: Id)
    requires StateOk(x, Log(x), s) && ClassesOk(Lows(x.names), Log(x), s)
    requires g < |s.groups| && s.root[g] == g && id in Members(s, g)
    requires var occurrences := s.groups[g].occurrences;
      |spellings| == |occurrences| && forall k :: 0 <= k < |spellings| ==> spellings[k] == Spelled(x, occurrences[k])
    ensures ViewOf(x, Lows(x.names), Log(x), id) ==
      GroupView(s.groups[g], spellings, PinsOf(x, Log(x), Members(s, g)))
  {
    var group, log, lows, members := s.groups[g], Log(x), Lows(x.names), Members(s, g);
    StateShape(x, log, s, id);
    assert GroupOk(x, log, group, members);
    forall e | e in log && !e.Join?
      ensures e.id in members <==> Same(lows, log, e.id, id)
    {
      MembersAreSame(x, s, g, id, e.id);
    }
    assert group.directory == id.Dir? by { DirectoryIs(x, s, g, id); }
    hide Log, Same, StateOk, ClassesOk, Members, PinText, Spelled;
    SpellingsTell(x, lows, log, group, members, spellings, id);
    assert PinsOf(x, log, members) == Pins(x, lows, log, id);
  }

  lemma SpellingsTell(x: Archive, lows: seq<Text>, log: seq<Event>, group: Group, members: set<Id>,
                      spellings: seq<Text>,
                      id: Id)
    requires GroupOk(x, log, group, members) && |spellings| == |group.occurrences|
    requires forall k :: 0 <= k < |spellings| ==> spellings[k] == Spelled(x, group.occurrences[k])
    requires forall e :: e in log && !e.Join? ==> (e.id in members <==> Same(lows, log, e.id, id))
    ensures Items(spellings) == Spellings(x, lows, log, id)
    ensures InNames(group.occurrences, spellings) == ArchiveSpellings(x, lows, log, id)
  {
    hide Same, PinsOf, PinsOk, Spelled;
    forall k | 0 <= k < |spellings|
      ensures spellings[k] in Spellings(x, lows, log, id)
      ensures group.occurrences[k].InName? ==> spellings[k] in ArchiveSpellings(x, lows, log, id)
    {
      assert group.occurrences[k] in Items(group.occurrences);
    }
    forall e | e in log && e.Occ? && Same(lows, log, e.id, id)
      ensures Spelled(x, e.at) in Items(spellings)
      ensures e.at.InName? ==> Spelled(x, e.at) in InNames(group.occurrences, spellings)
    {
      assert e.at in OccsOf(log, members);
      assert e.at in Items(group.occurrences);
      var k :| 0 <= k < |spellings| && group.occurrences[k] == e.at;
      assert spellings[k] == Spelled(x, e.at);
    }
  }

  lemma DirectoryIs(x: Archive, s: State, g: nat, id: Id)
    requires StateOk(x, Log(x), s) && ClassesOk(Lows(x.names), Log(x), s)
    requires g < |s.groups| && s.root[g] == g && id in Members(s, g)
    ensures s.groups[g].directory == id.Dir?
  {
    StateShape(x, Log(x), s, id);
    assert GroupOk(x, Log(x), s.groups[g], Members(s, g));
    hide Same, StateOk, Log, ForestOk;
    forall other | other in Members(s, g)
      ensures other.Dir? <==> id.Dir?
    {
      assert RootOf(s, other) == RootOf(s, id);
      SameIsTransitive(Lows(x.names), Log(x), other, id, id);
    }
  }

  // ---- what choosing needs of a group ----

  /** The number of a group's root, with the occurrences found of its ids. */
  ghost predicate AtRoot(x: Archive, s: State, g: nat) {
    && Sound(x) && StateOk(x, Log(x), s) && ClassesOk(Lows(x.names), Log(x), s)
    && g < |s.groups| && s.root[g] == g
  }

  lemma RootOwner(x: Archive, s: State, g: nat)
    requires AtRoot(x, s, g)
    ensures s.owner[g] in Members(s, g) && |s.owner| == |s.groups|
    ensures GroupOk(x, Log(x), s.groups[g], Members(s, g))
  {
    hide Log, ClassesOk;
  }

  lemma MemberOccurrence(x: Archive, s: State, g: nat, k: nat) returns (e: Event)
    requires AtRoot(x, s, g) && k < |s.groups[g].occurrences|
    ensures e in Log(x) && e.Occ? && e.at == s.groups[g].occurrences[k] && RootOf(s, e.id) == g && e.id in Members(s, g)
  {
    RootOwner(x, s, g);
    hide Log, ClassesOk, StateOk, PinsOf, PinsOk;
    var o := s.groups[g].occurrences[k];
    assert o in Items(s.groups[g].occurrences);
    assert o in OccsOf(Log(x), Members(s, g));
    e :| e in Log(x) && e.Occ? && e.id in Members(s, g) && e.at == o;
  }

  lemma MemberSpelling(x: Archive, s: State, g: nat, id: Id)
    requires AtRoot(x, s, g) && id in Members(s, g)
    ensures IdSpelling(id) == IdSpelling(s.owner[g])
  {
    RootOwner(x, s, g);
    var owner := s.owner[g];
    assert RootOf(s, id) == RootOf(s, owner) && id in s.ids && owner in s.ids;
    assert Same(Lows(x.names), Log(x), id, owner);
    SameSpell(Lows(x.names), Log(x), id, owner);
  }

  lemma SpelledIsCase(x: Archive, y: Archive, o: Occurrence)
    requires OnlyCase(x, y)
    ensures SameButCase(Spelled(x, o), Spelled(y, o))
  {
    SameRange(x, y, o);
    if o.InName? && o.index < |x.names| {
      assert SameButCase(x.names[o.index], y.names[o.index]);
    } else if o.InContent? && o.content < |x.contents| {
      assert SameButCase(x.contents[o.content].bytes, y.contents[o.content].bytes);
    }
  }

  /** However far the unifying has come, an occurrence spells its group's word. */
  lemma MemberSpells(x: Archive, s: State, g: nat, now: Archive, k: nat)
    requires AtRoot(x, s, g) && OnlyCase(x, now) && k < |s.groups[g].occurrences|
    ensures |s.owner| == |s.groups| && Lowered(Spelled(now, s.groups[g].occurrences[k])) == IdSpelling(s.owner[g])
    ensures InRange(now, s.groups[g].occurrences[k]) && SLASH !in IdSpelling(s.owner[g])
  {
    RootOwner(x, s, g);
    LogOk(x);
    hide Log, ClassesOk, StateOk, Spelled, OccsOf, AtRoot, IdSpelling, Members, OnlyCase, SameButCase;
    var e := MemberOccurrence(x, s, g, k);
    MemberSpelling(x, s, g, e.id);
    EventSpells(x, e);
    SpelledIsCase(x, now, e.at);
    CaseIsFolded(Spelled(x, e.at), Spelled(now, e.at));
    OnlyCaseRange(x, now, e.at);
    assert EventOk(x, e);
  }

  lemma OnlyCaseRange(x: Archive, y: Archive, o: Occurrence)
    requires OnlyCase(x, y)
    ensures InRange(y, o) <==> InRange(x, o)
  {
  }

  /** A group's spellings are one word but for case, and its pins are as long. */
  lemma GroupIsOneWord(x: Archive, s: State, g: nat, now: Archive, spellings: seq<Text>)
    requires AtRoot(x, s, g) && OnlyCase(x, now)
    requires var occurrences := s.groups[g].occurrences;
      |spellings| == |occurrences| && forall k :: 0 <= k < |spellings| ==> spellings[k] == Spelled(now, occurrences[k])
    requires spellings != []
    ensures OneWord(spellings) && PinsOk(s.groups[g], PinsOf(x, Log(x), Members(s, g)))
    ensures forall p :: p in PinsOf(x, Log(x), Members(s, g)) ==> |p| == |spellings[0]|
  {
    RootOwner(x, s, g);
    var low := IdSpelling(s.owner[g]);
    hide Log, ClassesOk, StateOk, Spelled, OccsOf, AtRoot, IdSpelling, Members, OnlyCase, InRange;
    forall k | 0 <= k < |spellings|
      ensures SameButCase(spellings[0], spellings[k])
    {
      MemberSpells(x, s, g, now, 0);
      MemberSpells(x, s, g, now, k);
      FoldedIsCase(spellings[0], spellings[k]);
    }
    MemberSpells(x, s, g, now, 0);
    assert |Lowered(spellings[0])| == |low|;
    forall e | e in Log(x) && (e.Own? || e.Fixed?) && e.id in Members(s, g)
      ensures |PinText(x, e)| == |spellings[0]|
    {
      PinSpells(x, s, g, e);
    }
  }

  lemma PinSpells(x: Archive, s: State, g: nat, e: Event)
    requires AtRoot(x, s, g) && e in Log(x) && (e.Own? || e.Fixed?) && e.id in Members(s, g)
    ensures |s.owner| == |s.groups| && Lowered(PinText(x, e)) == IdSpelling(s.owner[g])
  {
    RootOwner(x, s, g);
    LogOk(x);
    hide Log, ClassesOk, StateOk, Spelled, AtRoot, IdSpelling, Members;
    MemberSpelling(x, s, g, e.id);
    EventOkFolds(x, e);
    EventFoldsTo(x, e, IdSpelling(e.id));
  }

  /** What a group is to be spelled as is its word, but for case, wherever it occurs. */
  lemma TargetIsCase(x: Archive, s: State, g: nat, now: Archive, spellings: seq<Text>, t: Text, k: nat)
    requires AtRoot(x, s, g) && OnlyCase(x, now) && k < |spellings|
    requires var occurrences := s.groups[g].occurrences;
      |spellings| == |occurrences| && forall k :: 0 <= k < |spellings| ==> spellings[k] == Spelled(now, occurrences[k])
    requires IsTarget(GroupView(s.groups[g], spellings, PinsOf(x, Log(x), Members(s, g))), t)
    ensures SameButCase(Spelled(x, s.groups[g].occurrences[k]), t) && |t| == s.groups[g].occurrences[k].len
  {
    RootOwner(x, s, g);
    var low := IdSpelling(s.owner[g]);
    var v := GroupView(s.groups[g], spellings, PinsOf(x, Log(x), Members(s, g)));
    hide Log, ClassesOk, StateOk, Spelled, OccsOf, AtRoot, IdSpelling, Members, OnlyCase, InRange, IsTarget, PinText;
    forall j | 0 <= j < |spellings|
      ensures Lowered(spellings[j]) == low
    {
      MemberSpells(x, s, g, now, j);
    }
    forall e | e in Log(x) && (e.Own? || e.Fixed?) && e.id in Members(s, g)
      ensures Lowered(PinText(x, e)) == low
    {
      PinSpells(x, s, g, e);
    }
    TargetFolds(v, t, low);
    SelfCase(x);
    MemberSpells(x, s, g, x, k);
    FoldedIsCase(Spelled(x, s.groups[g].occurrences[k]), t);
    SpelledLength(x, s.groups[g].occurrences[k]);
    assert |Lowered(t)| == |low| == |Lowered(Spelled(x, s.groups[g].occurrences[k]))|;
  }

  lemma SelfCase(x: Archive)
    ensures OnlyCase(x, x)
  {
  }

  lemma EventSpells(x: Archive, e: Event)
    requires EventOk(x, e) && e.Occ?
    ensures Lowered(Spelled(x, e.at)) == IdSpelling(e.id) && SLASH !in IdSpelling(e.id)
  {
  }

  /** What is pinned is spelled somewhere. */
  lemma PinnedIsSpelled(x: Archive, s: State, g: nat)
    requires AtRoot(x, s, g) && s.groups[g].pin != []
    ensures s.groups[g].occurrences != []
  {
    RootOwner(x, s, g);
    LogBacked(x);
    var members := Members(s, g);
    hide Log, ClassesOk, StateOk, AtRoot, Members, Spelled;
    assert s.groups[g].pin in PinsOf(x, Log(x), members);
    var e :| e in Log(x) && (e.Own? || e.Fixed?) && e.id in members && PinText(x, e) == s.groups[g].pin;
    var o :| Occ(e.id, o) in Log(x);
    assert o in OccsOf(Log(x), members);
    assert o in Items(s.groups[g].occurrences);
  }

  lemma LoneGroup(x: Archive, s: State, g: nat, spellings: seq<Text>)
    requires AtRoot(x, s, g) && s.groups[g].pin == [] && |s.groups[g].occurrences| < 2
    requires |spellings| == |s.groups[g].occurrences|
    ensures forall t :: !IsTarget(GroupView(s.groups[g], spellings, PinsOf(x, Log(x), Members(s, g))), t)
  {
    RootOwner(x, s, g);
    hide Log, ClassesOk, StateOk, AtRoot, Members, OccsOf, PinsOf;
    assert !Differ(Items(spellings)) by {
      forall a, b | a in Items(spellings) && b in Items(spellings)
        ensures a == b
      {
      }
    }
  }

  /** The goal of every occurrence of a group is the target chosen for the group. */
  lemma GoalOfGroup(x: Archive, s: State, g: nat, spellings: seq<Text>, target: Option<Text>, e: Event)
    requires AtRoot(x, s, g) && e in Log(x) && e.Occ? && RootOf(s, e.id) == g
    requires var occurrences := s.groups[g].occurrences;
      |spellings| == |occurrences| && forall k :: 0 <= k < |spellings| ==> spellings[k] == Spelled(x, occurrences[k])
    requires var v := GroupView(s.groups[g], spellings, PinsOf(x, Log(x), Members(s, g)));
      if target.Some? then IsTarget(v, target.value) else forall t :: !IsTarget(v, t)
    ensures Goal(x, e) == if target.Some? then target.value else Spelled(x, e.at)
    ensures e.at in s.groups[g].occurrences
  {
    RootOwner(x, s, g);
    assert e.id in s.ids;
    GroupTells(x, s, g, spellings, e.id);
    var v := ViewOf(x, Lows(x.names), Log(x), e.id);
    assert e.at in OccsOf(Log(x), Members(s, g));
    assert e.at in Items(s.groups[g].occurrences);
    hide Log, ClassesOk, StateOk, AtRoot, Members, Spelled, OccsOf, PinsOf, IsTarget, ViewOf, GroupView;
    if target.Some? {
      WantedIs(v, target.value);
    }
  }

  // ---- what is chosen of a group that others have been written over ----

  /** Each byte is the first's or the target's. */
  predicate Mixed(a: seq<Text>, b: seq<Text>, t: Text) {
    |a| == |b| && forall k :: 0 <= k < |a| ==> MixedOne(a[k], b[k], t)
  }

  predicate MixedOne(a: Text, b: Text, t: Text) {
    |a| == |b| == |t| && forall j :: 0 <= j < |t| ==> b[j] == a[j] || b[j] == t[j]
  }

  /** Where all agree now, they agree with the target. */
  lemma MixedAgree(a: seq<Text>, b: seq<Text>, t: Text, j: nat)
    requires Mixed(a, b, t) && a != [] && Blends(Items(a), t) && j < |t|
    ensures forall k :: 0 <= k < |b| ==> t[j] == if AgreeAt(Items(b), j) then b[k][j] else LowerByte(b[k][j])
  {
    forall k | 0 <= k < |b|
      ensures t[j] == if AgreeAt(Items(b), j) then b[k][j] else LowerByte(b[k][j])
    {
      assert a[k] in Items(a) && b[k] in Items(b) && MixedOne(a[k], b[k], t);
      assert t[j] == if AgreeAt(Items(a), j) then ByteAt(a[k], j) else LowerByte(ByteAt(a[k], j));
      if AgreeAt(Items(a), j) {
        StillAgree(a, b, t, j);
      } else if AgreeAt(Items(b), j) && b[k][j] != t[j] {
        NeverAgreed(a, b, t, j, k);
      }
    }
  }

  lemma StillAgree(a: seq<Text>, b: seq<Text>, t: Text, j: nat)
    requires Mixed(a, b, t) && Blends(Items(a), t) && j < |t| && AgreeAt(Items(a), j)
    ensures AgreeAt(Items(b), j) && forall k :: 0 <= k < |b| ==> b[k][j] == t[j]
  {
    forall k | 0 <= k < |b|
      ensures ByteAt(b[k], j) == b[k][j] == t[j]
    {
      assert a[k] in Items(a) && MixedOne(a[k], b[k], t);
    }
  }

  lemma NeverAgreed(a: seq<Text>, b: seq<Text>, t: Text, j: nat, k: nat)
    requires Mixed(a, b, t) && j < |t| && k < |b| && AgreeAt(Items(b), j) && MixedOne(a[k], b[k], t) && b[k][j] != t[j]
    ensures AgreeAt(Items(a), j)
  {
    forall i | 0 <= i < |a|
      ensures ByteAt(a[i], j) == b[k][j]
    {
      assert MixedOne(a[i], b[i], t) && b[i] in Items(b) && b[k] in Items(b);
      assert ByteAt(b[i], j) == ByteAt(b[k], j);
    }
  }

  /** A group that others have been written over has the target it had, or is spelled as that already. */
  lemma TargetStays(g: Group, a: seq<Text>, b: seq<Text>, pins: set<Text>, t: Text)
    requires |g.occurrences| == |a| && a != [] && Mixed(a, b, t)
    requires forall k :: 0 <= k < |a| && g.occurrences[k].InName? ==> b[k] == a[k]
    requires IsTarget(GroupView(g, a, pins), t)
    ensures IsTarget(GroupView(g, b, pins), t) || forall k :: 0 <= k < |b| ==> b[k] == t
  {
    assert InNames(g.occurrences, a) == InNames(g.occurrences, b);
    hide Blends, Differ, AgreeAt, MixedOne;
    if pins == {} && g.directory && !Differ(Items(b)) {
      assert t in InNames(g.occurrences, a);
      var k :| 0 <= k < |a| && g.occurrences[k].InName? && a[k] == t;
      OneSpelling(b, k);
    } else if pins == {} && !g.directory {
      if Differ(Items(b)) {
        BlendStays(a, b, t);
      } else {
        BlendReached(a, b, t);
      }
    }
  }

  lemma OneSpelling(b: seq<Text>, k: nat)
    requires !Differ(Items(b)) && k < |b|
    ensures forall i :: 0 <= i < |b| ==> b[i] == b[k]
  {
    forall i | 0 <= i < |b|
      ensures b[i] == b[k]
    {
      assert b[i] in Items(b) && b[k] in Items(b);
    }
  }

  lemma BlendStays(a: seq<Text>, b: seq<Text>, t: Text)
    requires Mixed(a, b, t) && a != [] && Blends(Items(a), t)
    ensures Blends(Items(b), t)
  {
    hide AgreeAt;
    forall s, j | s in Items(b) && 0 <= j < |t|
      ensures t[j] == if AgreeAt(Items(b), j) then ByteAt(s, j) else LowerByte(ByteAt(s, j))
    {
      MixedAgree(a, b, t, j);
      var k :| 0 <= k < |b| && b[k] == s;
      assert MixedOne(a[k], b[k], t);
    }
    forall s | s in Items(b)
      ensures |s| == |t|
    {
      var k :| 0 <= k < |b| && b[k] == s;
      assert MixedOne(a[k], b[k], t);
    }
  }

  lemma BlendReached(a: seq<Text>, b: seq<Text>, t: Text)
    requires Mixed(a, b, t) && a != [] && Blends(Items(a), t) && !Differ(Items(b))
    ensures forall k :: 0 <= k < |b| ==> b[k] == t
  {
    forall k | 0 <= k < |b|
      ensures b[k] == t
    {
      assert MixedOne(a[k], b[k], t);
      OneSpelling(b, k);
      forall j | 0 <= j < |t|
        ensures b[k][j] == t[j]
      {
        assert AgreeAt(Items(b), j);
        MixedAgree(a, b, t, j);
      }
    }
  }

  lemma MixedSame(a: Text, b: Text)
    requires MixedOne(a, b, a)
    ensures b == a
  {
  }

  /** The archive as the fixer reads it on the way: the names as they were, and the files' bytes now. */
  function Now(x: Archive, y: Archive): Archive {
    Archive(x.names, y.contents)
  }

  lemma NowIsCase(x: Archive, y: Archive)
    requires OnlyCase(x, y)
    ensures OnlyCase(x, Now(x, y))
  {
  }

  /** An occurrence on the way: each byte is what it was or what it is to be. */
  lemma NowIsMixed(x: Archive, s: State, y: Archive, g: nat, e: Event)
    requires Sound(x) && Agree(x) && OnlyCase(x, y) && Progress(x, s, y, g) && e in Log(x) && e.Occ?
    ensures MixedOne(Spelled(x, e.at), Spelled(Now(x, y), e.at), Goal(x, e))
    ensures e.at.InName? ==> Spelled(Now(x, y), e.at) == Spelled(x, e.at)
  {
    GoalLength(x, e);
    OnlyCaseRange(x, y, e.at);
    NowIsCase(x, y);
    OnlyCaseRange(x, Now(x, y), e.at);
    var now := Now(x, y);
    SpelledLength(x, e.at);
    SpelledLength(now, e.at);
    NowSpelled(x, y, e.at);
    hide Log, Goal, Sound, OnlyCase, Progress, Spelled, InRange, Now, Agree;
    forall j | 0 <= j < e.at.len
      ensures Spelled(now, e.at)[j] == Spelled(x, e.at)[j] || Spelled(now, e.at)[j] == Goal(x, e)[j]
    {
      if e.at.InContent? {
        CellOnTheWay(x, s, y, g, e, j);
      }
    }
  }

  lemma NowSpelled(x: Archive, y: Archive, o: Occurrence)
    requires OnlyCase(x, y)
    ensures Spelled(Now(x, y), o) == Spelled(if o.InName? then x else y, o)
  {
  }

  lemma CellOnTheWay(x: Archive, s: State, y: Archive, g: nat, e: Event, j: nat)
    requires Agree(x) && Progress(x, s, y, g) && e in Log(x) && e.Occ?
    requires InRange(x, e.at) && InRange(y, e.at) && j < e.at.len == |Goal(x, e)|
    ensures |Spelled(x, e.at)| == |Spelled(y, e.at)| == e.at.len
    ensures Spelled(y, e.at)[j] == Spelled(x, e.at)[j] || Spelled(y, e.at)[j] == Goal(x, e)[j]
  {
    hide Log, Goal, Spelled, InRange, Agree, Covers, CellGoal, Reached;
    var o := CellOf(e.at, j);
    CellOfSpelled(x, e, j);
    CellOfSpelled(y, e, j);
    CellOfCovered(e, j);
    CellGoalIs(x, e, o);
    assert o.pos - e.at.pos == j;
  }

  /** An occurrence that reads as it is to be has every byte as it is to be. */
  lemma ReadsDone(x: Archive, s: State, y: Archive, g: nat, e: Event)
    requires Sound(x) && Agree(x) && OnlyCase(x, y) && Progress(x, s, y, g) && e in Log(x) && e.Occ?
    requires Spelled(Now(x, y), e.at) == Goal(x, e)
    ensures forall o :: InRange(x, o) && o.len == 1 && Covers(e, o) ==> Spelled(y, o) == [CellGoal(x, o)]
  {
    hide Log, Goal, Sound, OnlyCase, Spelled, InRange, Agree, Covers, CellGoal, Now, Progress;
    GoalLength(x, e);
    OnlyCaseRange(x, y, e.at);
    NowSpelled(x, y, e.at);
    forall o: Occurrence | InRange(x, o) && o.len == 1 && Covers(e, o)
      ensures Spelled(y, o) == [CellGoal(x, o)]
    {
      ReadsDoneAt(x, s, y, g, e, o);
    }
  }

  lemma ReadsDoneAt(x: Archive, s: State, y: Archive, g: nat, e: Event, o: Occurrence)
    requires Agree(x) && Progress(x, s, y, g) && e in Log(x) && Covers(e, o)
    requires InRange(x, e.at) && InRange(y, e.at) && InRange(x, o) && o.len == 1
    requires Spelled(if e.at.InName? then x else y, e.at) == Goal(x, e)
    ensures Spelled(y, o) == [CellGoal(x, o)]
  {
    hide Log, Goal, Spelled, InRange, Agree, Covers, CellGoal, Reached, Progress, ByteAt;
    CellGoalIs(x, e, o);
    CoversIsOcc(x, o);
    CellGoalSpelled(if e.at.InName? then x else y, e, o);
    ProgressAt(x, s, y, g, o);
  }

  /**
   The group as it is read on the way, and what is chosen of it: its goal, or
   nothing if it has none or is spelled so already.
  */
  lemma ChosenOk(x: Archive, s: State, y: Archive, g: nat, spellings: seq<Text>, target: Option<Text>, e: Event)
    requires AtRoot(x, s, g) && Agree(x) && OnlyCase(x, y) && Progress(x, s, y, g)
    requires var occurrences := s.groups[g].occurrences;
      && |spellings| == |occurrences|
      && forall k :: 0 <= k < |spellings| ==> spellings[k] == Spelled(Now(x, y), occurrences[k])
    requires var v := GroupView(s.groups[g], spellings, PinsOf(x, Log(x), Members(s, g)));
      if target.Some? then IsTarget(v, target.value) else forall t :: !IsTarget(v, t)
    requires e in Log(x) && e.Occ? && RootOf(s, e.id) == g
    ensures if target.Some? then Goal(x, e) == target.value else Spelled(Now(x, y), e.at) == Goal(x, e)
    ensures e.at in s.groups[g].occurrences
  {
    var group := s.groups[g];
    var pins := PinsOf(x, Log(x), Members(s, g));
    var before := SpellingsIn(x, group.occurrences);
    var wanted := Wanted(GroupView(group, before, pins));
    assert if wanted.Some? then IsTarget(GroupView(group, before, pins), wanted.value)
           else forall t :: !IsTarget(GroupView(group, before, pins), t);
    GoalOfGroup(x, s, g, before, wanted, e);
    hide Log, StateOk, ClassesOk, PinsOf, Members, Spelled, Goal, Progress, OnlyCase, IsTarget, Agree, Wanted, Sound;
    var k :| 0 <= k < |group.occurrences| && group.occurrences[k] == e.at;
    if wanted.Some? {
      AllMixed(x, s, y, g, before, spellings, wanted);
      TargetStays(group, before, spellings, pins, wanted.value);
      if target.Some? {
        ChosenIsWanted(group, before, spellings, pins, wanted.value, target.value);
      }
    } else {
      NotWritten(x, s, y, g, before, spellings, wanted);
    }
  }

  function SpellingsIn(x: Archive, occurrences: seq<Occurrence>): (r: seq<Text>)
    ensures |r| == |occurrences| && forall k :: 0 <= k < |r| ==> r[k] == Spelled(x, occurrences[k])
  {
    seq(|occurrences|, k requires 0 <= k < |occurrences| => Spelled(x, occurrences[k]))
  }

  /** Of a group with a goal, every spelling on the way is mixed of what it was and the goal. */
  lemma AllMixed(x: Archive, s: State, y: Archive, g: nat, before: seq<Text>, spellings: seq<Text>,
                 wanted: Option<Text>)
    requires AtRoot(x, s, g) && Agree(x) && OnlyCase(x, y) && Progress(x, s, y, g)
    requires before == SpellingsIn(x, s.groups[g].occurrences) && |spellings| == |before|
    requires forall k :: 0 <= k < |spellings| ==> spellings[k] == Spelled(Now(x, y), s.groups[g].occurrences[k])
    requires var v := GroupView(s.groups[g], before, PinsOf(x, Log(x), Members(s, g)));
      wanted.Some? && IsTarget(v, wanted.value)
    ensures Mixed(before, spellings, wanted.value)
    ensures forall k :: 0 <= k < |before| && s.groups[g].occurrences[k].InName? ==> spellings[k] == before[k]
  {
    hide Log, StateOk, ClassesOk, PinsOf, Members, Spelled, Goal, Progress, OnlyCase, IsTarget, Agree, MixedOne, Now;
    AtRootIsSound(x, s, g);
    hide GroupView, RootOf, AtRoot;
    forall k | 0 <= k < |before|
      ensures MixedOne(before[k], spellings[k], wanted.value)
      ensures s.groups[g].occurrences[k].InName? ==> spellings[k] == before[k]
    {
      var f := MemberOccurrence(x, s, g, k);
      GoalOfGroup(x, s, g, before, wanted, f);
      NowIsMixed(x, s, y, g, f);
    }
  }

  lemma AtRootIsSound(x: Archive, s: State, g: nat)
    requires AtRoot(x, s, g)
    ensures Sound(x) && g < |s.groups| && StateOk(x, Log(x), s)
  {
    hide Sound, Log, StateOk;
  }

  /** A group without a goal reads as it did. */
  lemma NotWritten(x: Archive, s: State, y: Archive, g: nat, before: seq<Text>, spellings: seq<Text>,
                   wanted: Option<Text>)
    requires AtRoot(x, s, g) && Agree(x) && OnlyCase(x, y) && Progress(x, s, y, g)
    requires before == SpellingsIn(x, s.groups[g].occurrences) && |spellings| == |before|
    requires forall k :: 0 <= k < |spellings| ==> spellings[k] == Spelled(Now(x, y), s.groups[g].occurrences[k])
    requires wanted == None
    requires forall t :: !IsTarget(GroupView(s.groups[g], before, PinsOf(x, Log(x), Members(s, g))), t)
    ensures spellings == before
  {
    hide Log, StateOk, ClassesOk, PinsOf, Members, Spelled, Goal, Progress, OnlyCase, IsTarget, Agree, MixedOne, Now;
    AtRootIsSound(x, s, g);
    hide GroupView, RootOf, AtRoot;
    forall k | 0 <= k < |before|
      ensures spellings[k] == before[k]
    {
      var f := MemberOccurrence(x, s, g, k);
      GoalOfGroup(x, s, g, before, wanted, f);
      NowIsMixed(x, s, y, g, f);
      MixedSame(before[k], spellings[k]);
    }
  }

  lemma ChosenIsWanted(g: Group, before: seq<Text>, spellings: seq<Text>, pins: set<Text>, wanted: Text, target: Text)
    requires |g.occurrences| == |before| == |spellings|
    requires IsTarget(GroupView(g, spellings, pins), target)
    requires IsTarget(GroupView(g, before, pins), wanted)
    requires
      || IsTarget(GroupView(g, spellings, pins), wanted)
      || forall k :: 0 <= k < |spellings| ==> spellings[k] == wanted
    ensures target == wanted
  {
    var v := GroupView(g, spellings, pins);
    if IsTarget(v, wanted) {
      TargetUnique(v, target, wanted);
    }
  }

  // ---- the whole run ----

  /** What is so on the way: only case has changed, files that changed are marked, and what was reached is done. */
  ghost predicate OnTheWay(x: Archive, s: State, y: Archive, g: nat) {
    OnlyCase(x, y) && Marked(x, y) && (Agree(x) ==> Progress(x, s, y, g))
  }

  lemma ReachedNext(x: Archive, s: State, o: Occurrence, g: nat)
    ensures Reached(x, s, o, g + 1) <==>
      Reached(x, s, o, g) || exists e :: e in Log(x) && Covers(e, o) && RootOf(s, e.id) == g
  {
    hide Log, RootOf;
    if Reached(x, s, o, g) {
      var e :| e in Log(x) && Covers(e, o) && RootOf(s, e.id) < g;
      assert RootOf(s, e.id) < g + 1;
    }
    if e :| e in Log(x) && Covers(e, o) && RootOf(s, e.id) == g {
      assert RootOf(s, e.id) < g + 1;
    }
  }

  /** A number that is no root's has no occurrences. */
  lemma ProgressSkips(x: Archive, s: State, y: Archive, g: nat)
    requires Progress(x, s, y, g) && Sound(x) && StateOk(x, Log(x), s) && g < |s.groups| && s.root[g] != g
    ensures Progress(x, s, y, g + 1)
  {
    hide Log, CellGoal, Spelled, InRange, Reached, Covers, Sound;
    forall e | e in Log(x) && e.Occ?
      ensures RootOf(s, e.id) != g
    {
      StateShape(x, Log(x), s, e.id);
    }
    hide StateOk, RootOf;
    forall o: Occurrence | InRange(x, o) && o.len == 1
      ensures Reached(x, s, o, g + 1) <==> Reached(x, s, o, g)
    {
      ReachedNext(x, s, o, g);
      CoversIsOcc(x, o);
    }
  }

  lemma CoversIsOcc(x: Archive, o: Occurrence)
    ensures forall e :: Covers(e, o) ==> e.Occ?
  {
  }

  /** A group that reads as it is to be needs nothing done. */
  lemma ProgressLeaves(x: Archive, s: State, y: Archive, g: nat)
    requires Sound(x) && Agree(x) && OnlyCase(x, y) && Progress(x, s, y, g)
    requires forall e :: e in Log(x) && e.Occ? && RootOf(s, e.id) == g ==> Spelled(Now(x, y), e.at) == Goal(x, e)
    ensures Progress(x, s, y, g + 1)
  {
    hide Log, CellGoal, Spelled, InRange, Reached, Covers, Sound, RootOf, Goal, OnlyCase, Agree, Now, Progress;
    forall o: Occurrence | InRange(x, o) && o.len == 1
      ensures Spelled(y, o) == if Reached(x, s, o, g + 1) then [CellGoal(x, o)] else Spelled(x, o)
    {
      ReachedNext(x, s, o, g);
      CoversIsOcc(x, o);
      ProgressAt(x, s, y, g, o);
      if e :| e in Log(x) && Covers(e, o) && RootOf(s, e.id) == g {
        ReadsDone(x, s, y, g, e);
      }
    }
    ProgressIs(x, s, y, g + 1);
  }

  lemma ProgressAt(x: Archive, s: State, y: Archive, g: nat, o: Occurrence)
    requires Progress(x, s, y, g) && InRange(x, o) && o.len == 1
    ensures Spelled(y, o) == if Reached(x, s, o, g) then [CellGoal(x, o)] else Spelled(x, o)
  {
    hide Reached, CellGoal, Spelled, InRange;
  }

  lemma ProgressIs(x: Archive, s: State, y: Archive, g: nat)
    requires forall o :: InRange(x, o) && o.len == 1 ==>
      Spelled(y, o) == if Reached(x, s, o, g) then [CellGoal(x, o)] else Spelled(x, o)
    ensures Progress(x, s, y, g)
  {
    hide Reached, CellGoal, Spelled, InRange;
  }

  /** With every occurrence of a group rewritten, the group is done. */
  lemma ProgressRewrites(x: Archive, s: State, before: Archive, y: Archive, g: nat, all: set<Occurrence>)
    requires AtRoot(x, s, g) && Progress(x, s, before, g) && Rewriting(x, before, y, all)
    requires all == Items(s.groups[g].occurrences) && Agree(x)
    requires forall e :: e in Log(x) && e.Occ? && RootOf(s, e.id) == g ==> e.at in all
    ensures Progress(x, s, y, g + 1)
  {
    hide Log, CellGoal, Spelled, InRange, Reached, Covers, RootOf, Progress, Within, AtRoot, Items, Agree;
    forall o: Occurrence | InRange(x, o) && o.len == 1
      ensures Spelled(y, o) == if Reached(x, s, o, g + 1) then [CellGoal(x, o)] else Spelled(x, o)
    {
      ReachedNext(x, s, o, g);
      CoversIsOcc(x, o);
      ProgressAt(x, s, before, g, o);
      WithinGroup(x, s, g, o);
    }
    ProgressIs(x, s, y, g + 1);
  }

  lemma WithinGroup(x: Archive, s: State, g: nat, o: Occurrence)
    requires AtRoot(x, s, g)
    requires forall e :: e in Log(x) && e.Occ? && RootOf(s, e.id) == g ==> e.at in Items(s.groups[g].occurrences)
    ensures Within(x, o, Items(s.groups[g].occurrences)) <==>
      exists e :: e in Log(x) && Covers(e, o) && RootOf(s, e.id) == g
  {
    CoversIsOcc(x, o);
    AtRootIsSound(x, s, g);
    hide Log, RootOf, AtRoot, StateOk, Sound, Covers;
    if Within(x, o, Items(s.groups[g].occurrences)) {
      var e :| e in Log(x) && Covers(e, o) && e.at in Items(s.groups[g].occurrences);
      var k :| 0 <= k < |s.groups[g].occurrences| && s.groups[g].occurrences[k] == e.at;
      var f := MemberOccurrence(x, s, g, k);
      CoversByRange(e, f, o);
    }
  }

  lemma CoversByRange(e: Event, f: Event, o: Occurrence)
    requires e.Occ? && f.Occ? && e.at == f.at && Covers(e, o)
    ensures Covers(f, o)
  {
  }

  /** With every group done, the archive is unified. */
  lemma ProgressDone(x: Archive, s: State, y: Archive)
    requires Sound(x) && Agree(x) && SameShape(x, y) && Progress(x, s, y, |s.groups|) && StateOk(x, Log(x), s)
    ensures Unified(x, y)
  {
    hide Log, CellGoal, Spelled, InRange, Agree, Covers, Sound, SameShape, Unified;
    forall o: Occurrence | InRange(x, o) && o.len == 1
      ensures Spelled(y, o) == [CellGoal(x, o)]
    {
      CoversIsOcc(x, o);
      if Covered(x, o) {
        var e :| e in Log(x) && Covers(e, o);
        StateShape(x, Log(x), s, e.id);
        assert Reached(x, s, o, |s.groups|);
      } else {
        UncoveredGoal(x, o);
        assert !Reached(x, s, o, |s.groups|);
      }
    }
    UnifiedByCells(x, y);
  }

  lemma StartsOnTheWay(x: Archive, s: State)
    requires forall c :: 0 <= c < |x.contents| ==> !x.contents[c].changed
    ensures OnTheWay(x, s, x, 0)
  {
    hide Log, Agree;
  }
}
