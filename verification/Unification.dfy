/**
 What it is to make an archive's spellings agree (src/pak_fix.cpp, class Fixer):
 which groups there are, what each is spelled as, and what follows. Only case
 changes, references follow the entries they name, and doing it again changes
 nothing.
*/
module Unification {
  import opened BitStrings
  import opened References
  import opened Scanning
  import opened Spelling
  import opened Wrappers

  // ---- groups ----

  function IconStems(lows: seq<Text>, key: Text): set<Id> {
    set i | i in IconsOf(lows, key, |lows|) && i < |lows| :: StemId(lows[i])
  }

  /** Ids of one group: the same, or stems of one icon's textures that a file names. */
  ghost predicate Same(lows: seq<Text>, log: seq<Event>, a: Id, b: Id) {
    a == b || exists key :: Join(key) in log && a in IconStems(lows, key) && b in IconStems(lows, key)
  }

  /** A group as it is spelled: everywhere, in the entries' names, and where it is pinned. */
  datatype View = View(all: set<Text>, archive: set<Text>, pins: set<Text>, directory: bool)

  ghost function Spellings(x: Archive, lows: seq<Text>, log: seq<Event>, id: Id): set<Text> {
    set e | e in log && e.Occ? && Same(lows, log, e.id, id) :: Spelled(x, e.at)
  }

  ghost function ArchiveSpellings(x: Archive, lows: seq<Text>, log: seq<Event>, id: Id): set<Text> {
    set e | e in log && e.Occ? && e.at.InName? && Same(lows, log, e.id, id) :: Spelled(x, e.at)
  }

  function PinText(x: Archive, e: Event): Text {
    match e
    case Own(_, at) => Spelled(x, at)
    case Fixed(_, text) => text
    case _ => []
  }

  ghost function Pins(x: Archive, lows: seq<Text>, log: seq<Event>, id: Id): set<Text> {
    set e | e in log && (e.Own? || e.Fixed?) && Same(lows, log, e.id, id) && PinText(x, e) != [] :: PinText(x, e)
  }

  ghost function ViewOf(x: Archive, lows: seq<Text>, log: seq<Event>, id: Id): View {
    View(Spellings(x, lows, log, id), ArchiveSpellings(x, lows, log, id), Pins(x, lows, log, id), id.Dir?)
  }

  // ---- what a group is to be spelled as ----

  function ByteAt(s: Text, k: nat): byte {
    if k < |s| then s[k] else 0
  }

  ghost predicate AgreeAt(all: set<Text>, k: nat) {
    forall s, u :: s in all && u in all ==> ByteAt(s, k) == ByteAt(u, k)
  }

  /** The bytes that all spellings share, and lower case where they differ. */
  ghost predicate Blends(all: set<Text>, t: Text) {
    && (forall s :: s in all ==> |s| == |t|)
    && (forall s, k :: s in all && 0 <= k < |t| ==>
          t[k] == if AgreeAt(all, k) then ByteAt(s, k) else LowerByte(ByteAt(s, k)))
  }

  ghost predicate Differ(all: set<Text>) {
    exists s, u :: s in all && u in all && s != u
  }

  /**
   What a group is to be spelled as: what it is pinned to, if that is one
   spelling; else, if there are several, a directory's one spelling in the
   archive, and anything else its spellings blended.
  */
  ghost predicate IsTarget(v: View, t: Text) {
    if v.pins != {} then v.pins == {t}
    else Differ(v.all) && if v.directory then v.archive == {t} else Blends(v.all, t)
  }

  lemma TargetUnique(v: View, t: Text, u: Text)
    requires IsTarget(v, t) && IsTarget(v, u)
    ensures t == u
  {
    if v.pins != {} {
      assert t in v.pins && u in {u};
    } else if v.directory {
      assert t in v.archive && u in {u};
    } else {
      var s :| s in v.all;
      assert |s| == |t| == |u|;
    }
  }

  ghost function Wanted(v: View): Option<Text> {
    if exists t :: IsTarget(v, t) then
      var t :| IsTarget(v, t);
      Some(t)
    else None
  }

  lemma WantedIs(v: View, t: Text)
    requires IsTarget(v, t)
    ensures Wanted(v) == Some(t)
  {
    TargetUnique(v, t, Wanted(v).value);
  }

  ghost function Goal(x: Archive, e: Event): Text
    requires e.Occ?
  {
    var w := Wanted(ViewOf(x, Lows(x.names), Log(x), e.id));
    if w.Some? then w.value else Spelled(x, e.at)
  }

  // ---- goals that are told by few spellings ----

  /** A group spelled one way and pinned nowhere is left. */
  lemma OneSpellingStays(x: Archive, e: Event)
    requires e in Log(x) && e.Occ?
    requires forall f :: f in Log(x) && !f.Join? && Same(Lows(x.names), Log(x), f.id, e.id) ==>
      f.Occ? && Spelled(x, f.at) == Spelled(x, e.at)
    ensures Goal(x, e) == Spelled(x, e.at)
  {
    var v := ViewOf(x, Lows(x.names), Log(x), e.id);
    hide Log, Lows, Spelled, Same, PinText, Blends;
    assert v.pins == {} && !Differ(v.all);
  }

  /** All that a group has is these two. */
  ghost predicate OnlyThese(x: Archive, own: Event, other: Event) {
    && own in Log(x) && own.Occ? && other in Log(x) && other.Occ? && other.id == own.id
    && forall f :: f in Log(x) && !f.Join? && Same(Lows(x.names), Log(x), f.id, own.id) ==>
         f.Occ? && (f.at == own.at || f.at == other.at)
  }

  lemma TwoSpellings(x: Archive, own: Event, other: Event)
    requires OnlyThese(x, own, other)
    ensures var v := ViewOf(x, Lows(x.names), Log(x), own.id);
      && v.pins == {} && v.all == {Spelled(x, own.at), Spelled(x, other.at)}
      && (own.at.InName? && !other.at.InName? ==> v.archive == {Spelled(x, own.at)})
  {
    hide OnlyThese, Log, Lows, Spelled, Spellings, ArchiveSpellings, Pins;
    TwoEverywhere(x, own, other);
    OneInNames(x, own, other);
  }

  lemma TwoEverywhere(x: Archive, own: Event, other: Event)
    requires OnlyThese(x, own, other)
    ensures Pins(x, Lows(x.names), Log(x), own.id) == {}
    ensures Spellings(x, Lows(x.names), Log(x), own.id) == {Spelled(x, own.at), Spelled(x, other.at)}
  {
    var lows, log := Lows(x.names), Log(x);
    assert Same(lows, log, own.id, own.id);
    hide Log, Lows, Spelled, Same, PinText;
    var all := Spellings(x, lows, log, own.id);
    assert Spelled(x, own.at) in all && Spelled(x, other.at) in all;
  }

  lemma OneInNames(x: Archive, own: Event, other: Event)
    requires OnlyThese(x, own, other)
    ensures own.at.InName? && !other.at.InName? ==>
      ArchiveSpellings(x, Lows(x.names), Log(x), own.id) == {Spelled(x, own.at)}
  {
    var lows, log := Lows(x.names), Log(x);
    assert Same(lows, log, own.id, own.id);
    hide Log, Lows, Spelled, Same;
    assert own.at.InName? ==> Spelled(x, own.at) in ArchiveSpellings(x, lows, log, own.id);
  }

  /** A directory that is pinned nowhere follows the one spelling that names give it. */
  lemma NameDecides(x: Archive, own: Event, other: Event)
    requires OnlyThese(x, own, other) && own.id.Dir? && own.at.InName? && !other.at.InName?
    requires Spelled(x, own.at) != Spelled(x, other.at)
    ensures Goal(x, other) == Spelled(x, own.at)
  {
    var v := ViewOf(x, Lows(x.names), Log(x), own.id);
    TwoSpellings(x, own, other);
    assert v.directory;
    hide ViewOf, Log, Lows, Spelled, Wanted, OnlyThese;
    assert Spelled(x, own.at) in v.all && Spelled(x, other.at) in v.all;
    WantedIs(v, Spelled(x, own.at));
  }

  /** A group of files that is pinned nowhere follows its spelling in lower case, if it has that and one other. */
  lemma LowerDecides(x: Archive, own: Event, other: Event)
    requires OnlyThese(x, own, other) && !own.id.Dir?
    requires Spelled(x, own.at) != Spelled(x, other.at) && SameButCase(Spelled(x, own.at), Spelled(x, other.at))
    requires forall k :: 0 <= k < |Spelled(x, own.at)| ==> LowerByte(Spelled(x, own.at)[k]) == Spelled(x, own.at)[k]
    ensures Goal(x, own) == Spelled(x, own.at) == Goal(x, other)
  {
    var v := ViewOf(x, Lows(x.names), Log(x), own.id);
    TwoSpellings(x, own, other);
    assert !v.directory;
    hide ViewOf, Log, Lows, Spelled, Wanted, OnlyThese;
    LowerBlends(Spelled(x, own.at), Spelled(x, other.at));
    assert Spelled(x, own.at) in v.all && Spelled(x, other.at) in v.all;
    hide Blends, SameButCase;
    WantedIs(v, Spelled(x, own.at));
  }

  lemma LowerBlends(a: Text, b: Text)
    requires SameButCase(a, b) && forall k :: 0 <= k < |a| ==> LowerByte(a[k]) == a[k]
    ensures Blends({a, b}, a)
  {
    forall k | 0 <= k < |a|
      ensures a[k] == if AgreeAt({a, b}, k) then ByteAt(b, k) else LowerByte(ByteAt(b, k))
      ensures a[k] == if AgreeAt({a, b}, k) then ByteAt(a, k) else LowerByte(ByteAt(a, k))
    {
      assert AgreeAt({a, b}, k) ==> ByteAt(a, k) == ByteAt(b, k);
      assert LowerByte(a[k]) == LowerByte(b[k]);
    }
  }

  // ---- the archive with every group spelled as it is to be ----

  predicate SameShape(x: Archive, x': Archive) {
    && |x'.names| == |x.names| && |x'.contents| == |x.contents|
    && (forall i :: 0 <= i < |x.names| ==> |x'.names[i]| == |x.names[i]|)
    && (forall c :: 0 <= c < |x.contents| ==>
          |x'.contents[c].bytes| == |x.contents[c].bytes| && SameFile(x.contents[c], x'.contents[c]))
  }

  predicate SameFile(a: Content, b: Content) {
    a.file == b.file && a.lsf == b.lsf && a.strings == b.strings
  }

  predicate Covers(e: Event, o: Occurrence) {
    && e.Occ?
    && match e.at
       case InName(i, pos, len) => o.InName? && o.index == i && pos <= o.pos && o.pos + o.len <= pos + len
       case InContent(c, pos, len) => o.InContent? && o.content == c && pos <= o.pos && o.pos + o.len <= pos + len
  }

  /** A byte that no occurrence has. */
  ghost predicate Outside(log: seq<Event>, o: Occurrence) {
    o.len == 1 && forall e :: e in log ==> !Covers(e, o)
  }

  ghost predicate Settled(x: Archive, x': Archive) {
    && (forall e :: e in Log(x) && e.Occ? ==> Spelled(x', e.at) == Goal(x, e))
    && (forall o :: InRange(x, o) && Outside(Log(x), o) ==> Spelled(x', o) == Spelled(x, o))
  }

  ghost predicate Unified(x: Archive, x': Archive) {
    SameShape(x, x') && Settled(x, x')
  }

  // ---- only case changes ----

  lemma StemsSpell(lows: seq<Text>, key: Text, a: Id)
    requires a in IconStems(lows, key)
    ensures IdSpelling(a) == key
  {
    hide IdSpelling, IconKey, StemId, IsIcon;
    var i :| i in IconsOf(lows, key, |lows|) && i < |lows| && a == StemId(lows[i]);
    InIconsOf(lows, key, |lows|, i);
    StemSpelling(lows[i]);
  }

  /** A group has one spelling once folded. */
  lemma SameSpell(lows: seq<Text>, log: seq<Event>, a: Id, b: Id)
    requires Same(lows, log, a, b)
    ensures IdSpelling(a) == IdSpelling(b)
  {
    hide IdSpelling;
    if a != b {
      var key :| Join(key) in log && a in IconStems(lows, key) && b in IconStems(lows, key);
      StemsSpell(lows, key, a);
      StemsSpell(lows, key, b);
    }
  }

  ghost predicate AllFold(texts: set<Text>, low: Text) {
    forall s :: s in texts ==> Lowered(s) == low
  }

  /** Everything a group is spelled or pinned as folds to its id's spelling. */
  lemma ViewFolds(x: Archive, id: Id)
    requires Sound(x)
    ensures var v := ViewOf(x, Lows(x.names), Log(x), id);
      AllFold(v.all, IdSpelling(id)) && AllFold(v.archive, IdSpelling(id)) && AllFold(v.pins, IdSpelling(id))
  {
    LogOk(x);
    var lows, log := Lows(x.names), Log(x);
    hide Log, Lows, Same, IdSpelling, Spelled, Sound, Lowered, EventOk, PinText;
    forall e | e in log && !e.Join? && Same(lows, log, e.id, id)
      ensures EventFolds(x, e, IdSpelling(id))
    {
      SameSpell(lows, log, e.id, id);
      EventOkFolds(x, e);
    }
    hide EventFolds;
    forall e | e in log && !e.Join? && Same(lows, log, e.id, id)
      ensures e.Occ? ==> Lowered(Spelled(x, e.at)) == IdSpelling(id)
      ensures !e.Occ? ==> Lowered(PinText(x, e)) == IdSpelling(id)
    {
      EventFoldsTo(x, e, IdSpelling(id));
    }
  }

  lemma EventFoldsTo(x: Archive, e: Event, low: Text)
    requires EventFolds(x, e, low)
    ensures e.Occ? ==> Lowered(Spelled(x, e.at)) == low
    ensures e.Own? || e.Fixed? ==> Lowered(PinText(x, e)) == low
  {
  }

  predicate EventFolds(x: Archive, e: Event, low: Text) {
    match e
    case Occ(_, at) => Lowered(Spelled(x, at)) == low
    case Own(_, at) => Lowered(Spelled(x, at)) == low
    case Fixed(_, text) => Lowered(text) == low
    case Join(_) => true
  }

  lemma EventOkFolds(x: Archive, e: Event)
    requires EventOk(x, e) && !e.Join?
    ensures EventFolds(x, e, IdSpelling(e.id))
  {
  }

  lemma BlendFolds(all: set<Text>, t: Text, s: Text)
    requires Blends(all, t) && s in all
    ensures Lowered(t) == Lowered(s)
  {
  }

  lemma TargetFolds(v: View, t: Text, low: Text)
    requires IsTarget(v, t) && AllFold(v.all, low) && AllFold(v.archive, low) && AllFold(v.pins, low)
    ensures Lowered(t) == low
  {
    hide Lowered, Blends;
    if v.pins != {} {
      assert t in v.pins;
    } else if v.directory {
      assert t in v.archive;
    } else {
      var s :| s in v.all;
      BlendFolds(v.all, t, s);
    }
  }

  lemma GoalFolds(x: Archive, e: Event)
    requires Sound(x) && e in Log(x) && e.Occ?
    ensures Lowered(Goal(x, e)) == IdSpelling(e.id) && SameButCase(Spelled(x, e.at), Goal(x, e))
    ensures |Goal(x, e)| == e.at.len && InRange(x, e.at)
  {
    LogOk(x);
    ViewFolds(x, e.id);
    var v := ViewOf(x, Lows(x.names), Log(x), e.id);
    hide ViewOf, Log, IdSpelling, IsTarget, Sound, AllFold;
    assert EventOk(x, e);
    if Wanted(v).Some? {
      TargetFolds(v, Wanted(v).value, IdSpelling(e.id));
    }
    FoldedIsCase(Spelled(x, e.at), Goal(x, e));
  }

  function NameCell(i: nat, k: nat): Occurrence {
    InName(i, k, 1)
  }

  function ContentCell(c: nat, k: nat): Occurrence {
    InContent(c, k, 1)
  }

  lemma CellWithin(x: Archive, e: Event, o: Occurrence)
    requires Covers(e, o) && InRange(x, e.at) && o.len == 1
    ensures InRange(x, o) && 0 <= o.pos - e.at.pos < e.at.len == |Spelled(x, e.at)|
    ensures Spelled(x, o) == [Spelled(x, e.at)[o.pos - e.at.pos]]
  {
  }

  lemma SameRange(x: Archive, x': Archive, o: Occurrence)
    requires SameShape(x, x')
    ensures InRange(x, o) <==> InRange(x', o)
  {
  }

  /** A byte is the one it was, but for its case. */
  lemma CellIsCase(x: Archive, x': Archive, o: Occurrence)
    requires Sound(x) && Unified(x, x') && InRange(x, o) && o.len == 1
    ensures SameButCase(Spelled(x, o), Spelled(x', o))
  {
    hide Log, Sound, Goal;
    if !Outside(Log(x), o) {
      var e :| e in Log(x) && Covers(e, o);
      GoalFolds(x, e);
      SameRange(x, x', e.at);
      assert Spelled(x', e.at) == Goal(x, e);
      hide Spelled, Covers, Outside, InRange, Settled, SameShape;
      CellWithin(x, e, o);
      CellWithin(x', e, o);
    }
  }

  predicate OnlyCase(x: Archive, x': Archive) {
    && SameShape(x, x')
    && (forall i :: 0 <= i < |x.names| ==> SameButCase(x.names[i], x'.names[i]))
    && (forall c :: 0 <= c < |x.contents| ==> SameButCase(x.contents[c].bytes, x'.contents[c].bytes))
  }

  /** Making the spellings agree changes no length, and nothing but the case of letters. */
  lemma OnlyCaseChanges(x: Archive, x': Archive)
    requires Sound(x) && Unified(x, x')
    ensures OnlyCase(x, x')
  {
    hide Sound, Settled;
    forall i | 0 <= i < |x.names|
      ensures SameButCase(x.names[i], x'.names[i])
    {
      forall k | 0 <= k < |x.names[i]|
        ensures LowerByte(x.names[i][k]) == LowerByte(x'.names[i][k])
      {
        CellIsCase(x, x', NameCell(i, k));
        assert Spelled(x, NameCell(i, k))[0] == x.names[i][k] && Spelled(x', NameCell(i, k))[0] == x'.names[i][k];
      }
    }
    forall c | 0 <= c < |x.contents|
      ensures SameButCase(x.contents[c].bytes, x'.contents[c].bytes)
    {
      forall k | 0 <= k < |x.contents[c].bytes|
        ensures LowerByte(x.contents[c].bytes[k]) == LowerByte(x'.contents[c].bytes[k])
      {
        var o := ContentCell(c, k);
        CellIsCase(x, x', o);
        assert Spelled(x, o)[0] == x.contents[c].bytes[k] && Spelled(x', o)[0] == x'.contents[c].bytes[k];
      }
    }
  }

  /** There is one way to spell an archive as it is to be. */
  lemma UnifiedIsOne(x: Archive, y: Archive, z: Archive)
    requires Sound(x) && Unified(x, y) && Unified(x, z)
    ensures z.names == y.names
    ensures forall c :: 0 <= c < |y.contents| ==> z.contents[c].bytes == y.contents[c].bytes
  {
    hide Log, Sound, Goal;
    forall o | InRange(y, o) && o.len == 1
      ensures Spelled(z, o) == Spelled(y, o)
    {
      SameRange(x, y, o);
      if Outside(Log(x), o) {
        assert Spelled(y, o) == Spelled(x, o) && Spelled(z, o) == Spelled(x, o);
      } else {
        SameCell(x, y, z, o);
      }
    }
    assert SameShape(y, z);
    hide Settled;
    CellsTellAll(y, z);
  }

  lemma SameCell(x: Archive, y: Archive, z: Archive, o: Occurrence)
    requires Sound(x) && Unified(x, y) && Unified(x, z) && o.len == 1 && !Outside(Log(x), o)
    ensures Spelled(z, o) == Spelled(y, o)
  {
    hide Log, Sound, Goal;
    var e :| e in Log(x) && Covers(e, o);
    GoalFolds(x, e);
    SameRange(x, y, e.at);
    SameRange(x, z, e.at);
    assert Spelled(y, e.at) == Goal(x, e) && Spelled(z, e.at) == Goal(x, e);
    hide Spelled, Covers, Outside, InRange, Settled, SameShape;
    CellWithin(y, e, o);
    CellWithin(z, e, o);
  }

  // ---- when there is one ----

  /** The byte that an occurrence's goal gives a byte of it. */
  ghost function GoalAt(x: Archive, e: Event, o: Occurrence): byte
    requires Covers(e, o)
  {
    ByteAt(Goal(x, e), o.pos - e.at.pos)
  }

  ghost predicate AgreeOn(x: Archive, e: Event, f: Event) {
    forall o: Occurrence :: o.len == 1 && Covers(e, o) && Covers(f, o) ==> GoalAt(x, e, o) == GoalAt(x, f, o)
  }

  /** Occurrences that share bytes are to be spelled alike there. */
  ghost predicate Agree(x: Archive) {
    forall e, f :: e in Log(x) && f in Log(x) ==> AgreeOn(x, e, f)
  }

  ghost predicate Covered(x: Archive, o: Occurrence) {
    exists e :: e in Log(x) && Covers(e, o)
  }

  /** What a byte is to be: what an occurrence it is of is to be there, else what it is. */
  ghost function CellGoal(x: Archive, o: Occurrence): byte {
    if Covered(x, o) then
      var e :| e in Log(x) && Covers(e, o);
      GoalAt(x, e, o)
    else ByteAt(Spelled(x, o), 0)
  }

  lemma CellGoalIs(x: Archive, e: Event, o: Occurrence)
    requires Agree(x) && e in Log(x) && Covers(e, o) && o.len == 1
    ensures CellGoal(x, o) == GoalAt(x, e, o)
  {
    hide Log, GoalAt;
    var f :| f in Log(x) && Covers(f, o) && CellGoal(x, o) == GoalAt(x, f, o);
    assert AgreeOn(x, e, f);
  }

  lemma UncoveredGoal(x: Archive, o: Occurrence)
    requires InRange(x, o) && o.len == 1 && !Covered(x, o)
    ensures Spelled(x, o) == [CellGoal(x, o)]
  {
    hide Log;
  }

  /** Every byte is what it is to be. */
  ghost predicate CellsDone(x: Archive, y: Archive) {
    forall o :: InRange(x, o) && o.len == 1 ==> Spelled(y, o) == [CellGoal(x, o)]
  }

  /** Where occurrences agree, an archive is unified exactly if every byte is what it is to be. */
  lemma UnifiedByCells(x: Archive, y: Archive)
    requires Sound(x) && Agree(x) && SameShape(x, y) && CellsDone(x, y)
    ensures Unified(x, y)
  {
    hide Log, Goal, Sound, SameShape, CellsDone, CellGoal, Agree, Covers, Spelled, InRange, Covered;
    forall e | e in Log(x) && e.Occ?
      ensures Spelled(y, e.at) == Goal(x, e)
    {
      GoalSpelled(x, y, e);
    }
    forall o | InRange(x, o) && Outside(Log(x), o)
      ensures Spelled(y, o) == Spelled(x, o)
    {
      OutsideIsUncovered(x, o);
      UncoveredGoal(x, o);
      CellDone(x, y, o);
    }
  }

  lemma OutsideIsUncovered(x: Archive, o: Occurrence)
    requires Outside(Log(x), o)
    ensures !Covered(x, o) && o.len == 1
  {
    hide Log, Covers;
  }

  lemma CellDone(x: Archive, y: Archive, o: Occurrence)
    requires CellsDone(x, y) && InRange(x, o) && o.len == 1
    ensures Spelled(y, o) == [CellGoal(x, o)]
  {
    hide CellGoal, Spelled, InRange;
  }

  /** The bytes of an occurrence, one by one. */
  function CellOf(at: Occurrence, k: nat): (o: Occurrence)
    ensures o.len == 1 && o.pos == at.pos + k
  {
    match at
    case InName(i, pos, _) => InName(i, pos + k, 1)
    case InContent(c, pos, _) => InContent(c, pos + k, 1)
  }

  lemma CellOfCovered(e: Event, k: nat)
    requires e.Occ? && k < e.at.len
    ensures Covers(e, CellOf(e.at, k))
  {
  }

  lemma CellOfSpelled(y: Archive, e: Event, k: nat)
    requires e.Occ? && InRange(y, e.at) && k < e.at.len
    ensures InRange(y, CellOf(e.at, k)) && Spelled(y, CellOf(e.at, k)) == [Spelled(y, e.at)[k]]
    ensures |Spelled(y, e.at)| == e.at.len
  {
    CellOfCovered(e, k);
    CellWithin(y, e, CellOf(e.at, k));
  }

  lemma SpelledLength(y: Archive, o: Occurrence)
    requires InRange(y, o)
    ensures |Spelled(y, o)| == o.len
  {
  }

  /** An occurrence is spelled as a text if each of its bytes is the text's. */
  lemma SpelledByCells(y: Archive, e: Event, t: Text)
    requires e.Occ? && InRange(y, e.at) && e.at.len == |t|
    requires forall k :: 0 <= k < |t| ==> Spelled(y, CellOf(e.at, k)) == [t[k]]
    ensures Spelled(y, e.at) == t
  {
    SpelledLength(y, e.at);
    forall k | 0 <= k < |t|
      ensures Spelled(y, e.at)[k] == t[k]
    {
      CellOfSpelled(y, e, k);
    }
    hide Spelled;
  }

  lemma GoalLength(x: Archive, e: Event)
    requires Sound(x) && e in Log(x) && e.Occ?
    ensures |Goal(x, e)| == e.at.len && InRange(x, e.at)
  {
    hide Log, Goal, Lowered, SameButCase, InRange;
    GoalFolds(x, e);
  }

  lemma GoalSpelled(x: Archive, y: Archive, e: Event)
    requires Sound(x) && Agree(x) && SameShape(x, y) && CellsDone(x, y) && e in Log(x) && e.Occ?
    ensures Spelled(y, e.at) == Goal(x, e)
  {
    hide Log, Goal, Sound, SameShape, CellsDone, CellGoal, Agree, Spelled, InRange, Covers, CellOf;
    GoalLength(x, e);
    SameRange(x, y, e.at);
    var t := Goal(x, e);
    forall k | 0 <= k < |t|
      ensures Spelled(y, CellOf(e.at, k)) == [t[k]]
    {
      GoalCell(x, y, e, k);
    }
    SpelledByCells(y, e, t);
  }

  lemma GoalCell(x: Archive, y: Archive, e: Event, k: nat)
    requires Agree(x) && CellsDone(x, y) && e in Log(x) && e.Occ? && InRange(x, e.at) && k < e.at.len == |Goal(x, e)|
    ensures Spelled(y, CellOf(e.at, k)) == [Goal(x, e)[k]]
  {
    hide Log, Goal, CellsDone, CellGoal, Agree, Spelled, InRange, Covers;
    var o := CellOf(e.at, k);
    CellOfCovered(e, k);
    CellOfSpelled(x, e, k);
    CellDone(x, y, o);
    CellGoalIs(x, e, o);
    assert o.pos - e.at.pos == k;
  }

  /** The archive with every byte as it is to be. */
  ghost function Ideal(x: Archive): Archive {
    Archive(
      seq(|x.names|, i requires 0 <= i < |x.names| =>
        seq(|x.names[i]|, k requires 0 <= k < |x.names[i]| => CellGoal(x, NameCell(i, k)))),
      seq(|x.contents|, c requires 0 <= c < |x.contents| =>
        x.contents[c].(bytes :=
          seq(|x.contents[c].bytes|, k requires 0 <= k < |x.contents[c].bytes| => CellGoal(x, ContentCell(c, k))))))
  }

  lemma IdealCells(x: Archive)
    ensures SameShape(x, Ideal(x)) && CellsDone(x, Ideal(x))
  {
    hide CellGoal;
  }

  lemma AgreeIfUnified(x: Archive, x': Archive)
    requires Sound(x) && Unified(x, x')
    ensures Agree(x)
  {
    hide Log, Goal, Sound, Covers, Unified, GoalAt;
    forall e, f, o: Occurrence | e in Log(x) && f in Log(x) && o.len == 1 && Covers(e, o) && Covers(f, o)
      ensures GoalAt(x, e, o) == GoalAt(x, f, o)
    {
      UnifiedCell(x, x', e, o);
      UnifiedCell(x, x', f, o);
    }
  }

  lemma UnifiedCell(x: Archive, x': Archive, e: Event, o: Occurrence)
    requires Sound(x) && Unified(x, x') && e in Log(x) && Covers(e, o) && o.len == 1
    ensures Spelled(x', o) == [GoalAt(x, e, o)]
  {
    hide Log, Goal, Sound, SameShape, InRange;
    GoalLength(x, e);
    SameRange(x, x', e.at);
    assert Spelled(x', e.at) == Goal(x, e);
    hide Spelled;
    CellGoalSpelled(x', e, o);
  }

  lemma CellGoalSpelled(y: Archive, e: Event, o: Occurrence)
    requires e.Occ? && Covers(e, o) && InRange(y, e.at) && o.len == 1
    ensures Spelled(y, o) == [ByteAt(Spelled(y, e.at), o.pos - e.at.pos)]
  {
    CellWithin(y, e, o);
  }

  /**
   An archive has a unified spelling if and only if occurrences that share
   bytes are to be spelled alike there.
  */
  lemma UnifiedIffAgree(x: Archive)
    requires Sound(x)
    ensures (exists x' :: Unified(x, x')) <==> Agree(x)
  {
    hide Sound, Unified, Agree, Ideal;
    if x' :| Unified(x, x') {
      AgreeIfUnified(x, x');
    }
    if Agree(x) {
      IdealCells(x);
      UnifiedByCells(x, Ideal(x));
    }
  }

  /** Which a caller can see beforehand: they do where strings are one range or have no byte in common. */
  lemma ApartAgree(x: Archive)
    requires Sound(x) && AllStringsApart(x)
    ensures Agree(x)
  {
    LogApart(x);
    hide Log, Goal, Sound;
    forall e, f, o: Occurrence | e in Log(x) && f in Log(x) && o.len == 1 && Covers(e, o) && Covers(f, o)
      ensures e == f
    {
      assert Compatible(e, f);
    }
  }

  // ---- references ----

  /**
   A reference and the part of the entry it refers to: both are spelled as the
   group is to be, or, where the group is left alone, as they were.
  */
  lemma ReferencesFollow(x: Archive, x': Archive, e: Event, f: Event)
    requires Unified(x, x') && e in Log(x) && f in Log(x) && e.Occ? && f.Occ? && e.id == f.id
    ensures Spelled(x', e.at) == Spelled(x', f.at)
         || (Spelled(x', e.at) == Spelled(x, e.at) && Spelled(x', f.at) == Spelled(x, f.at))
  {
    hide Log, ViewOf;
    assert Spelled(x', e.at) == Goal(x, e) && Spelled(x', f.at) == Goal(x, f);
  }

  // ---- doing it again ----

  lemma SameLows(x: Archive, x': Archive)
    requires OnlyCase(x, x')
    ensures Lows(x'.names) == Lows(x.names)
  {
    forall i | 0 <= i < |x.names|
      ensures Lows(x'.names)[i] == Lows(x.names)[i]
    {
      CaseIsFolded(x.names[i], x'.names[i]);
    }
  }

  /** Two strings at one place, both or neither of them values that may name an icon. */
  predicate SameKind(t: Token, u: Token) {
    t.pos == u.pos && t.len == u.len && (IconAttribute(t.attribute) <==> IconAttribute(u.attribute))
  }

  predicate SameKinds(s: seq<Token>, r: seq<Token>) {
    |s| == |r| && forall i :: 0 <= i < |s| ==> SameKind(s[i], r[i])
  }

  /** The strings of every file are where they were, and may name icons where they might. */
  predicate SameTokens(x: Archive, x': Archive) {
    && |x'.contents| == |x.contents|
    && forall c :: 0 <= c < |x.contents| ==> SameKinds(Tokens(x.contents[c]), Tokens(x'.contents[c]))
  }

  lemma KindDecides(lows: seq<Text>, file: Text, key: Text, c: nat, pos: nat, a: Text, b: Text)
    requires IconAttribute(a) <==> IconAttribute(b)
    ensures TokenEvents(lows, file, key, c, pos, a) == TokenEvents(lows, file, key, c, pos, b)
  {
    hide WholeEvents, TailEvents, MetadataEvents, IconEvents, TailEntry, FullOf, IsWord, GuiMetadata, IconAttribute;
  }

  lemma SameString(lows: seq<Text>, a: Content, b: Content, c: nat, t: Token, u: Token)
    requires SameFile(a.(strings := []), b.(strings := [])) && SameButCase(a.bytes, b.bytes) && SameKind(t, u)
    ensures StringEvents(lows, b, c, u) == StringEvents(lows, a, c, t)
  {
    hide TokenEvents, IconAttribute;
    if t.pos + t.len <= |a.bytes| {
      CaseIsFolded(a.bytes[t.pos..t.pos + t.len], b.bytes[t.pos..t.pos + t.len]);
    }
    KindDecides(lows, FileOf(lows, a), Key(a, t), c, t.pos, t.attribute, u.attribute);
  }

  lemma {:induction false} SameStrings(lows: seq<Text>, a: Content, b: Content, c: nat, s: seq<Token>, r: seq<Token>)
    requires SameFile(a, b) && SameButCase(a.bytes, b.bytes) && SameKinds(s, r)
    ensures ContentEvents(lows, b, c, r) == ContentEvents(lows, a, c, s)
  {
    hide StringEvents, SameButCase, SameKind;
    if s != [] {
      var n := |s| - 1;
      SameStrings(lows, a, b, c, s[..n], r[..n]);
      SameString(lows, a, b, c, s[n], r[n]);
    }
  }

  lemma {:induction false} SameContents(x: Archive, x': Archive, lows: seq<Text>, n: nat)
    requires OnlyCase(x, x') && SameTokens(x, x') && n <= |x.contents|
    ensures ContentsEvents(lows, x'.contents, n) == ContentsEvents(lows, x.contents, n)
  {
    hide Tokens, ContentEvents, SameButCase, SameKinds;
    if n > 0 {
      var a, b := x.contents[n - 1], x'.contents[n - 1];
      SameContents(x, x', lows, n - 1);
      SameStrings(lows, a, b, n - 1, Tokens(a), Tokens(b));
    }
  }

  predicate SameRanges(s: seq<Token>, t: seq<Token>) {
    |s| == |t| && forall i :: 0 <= i < |s| ==> s[i].pos == t[i].pos && s[i].len == t[i].len
  }

  lemma NoRanges()
    ensures SameRanges([], []) && SameKinds([], [])
  {
  }

  lemma SameRangesWith(t: Token, u: Token, s: seq<Token>, r: seq<Token>)
    requires SameRanges(s, r) && t.pos == u.pos && t.len == u.len
    ensures SameRanges([t] + s, [u] + r)
    ensures SameKinds(s, r) && (IconAttribute(t.attribute) <==> IconAttribute(u.attribute)) ==>
      SameKinds([t] + s, [u] + r)
  {
    hide IconAttribute;
  }

  // ---- which attribute a string is the value of ----

  /** What is before an attribute's name on its line. */
  function Leads(): set<Text> {
    {Lit("data \""), Lit("id=\"")}
  }

  predicate LeadAt(s: Text, p: nat, lead: Text) {
    p + |lead| <= |s| && s[p..p + |lead|] == lead
  }

  /** The leads are where they were. */
  ghost predicate LeadsKept(a: Text, b: Text) {
    forall p: nat, lead :: lead in Leads() ==> (LeadAt(a, p, lead) <==> LeadAt(b, p, lead))
  }

  lemma {:induction false} FindSame(a: Text, b: Text, lead: Text, from: nat)
    requires |a| == |b| && from <= |a| && forall p: nat :: LeadAt(a, p, lead) <==> LeadAt(b, p, lead)
    ensures FindText(a, lead, from) == FindText(b, lead, from)
    decreases |a| - from
  {
    assert LeadAt(a, from, lead) <==> LeadAt(b, from, lead);
    if from < |a| && !LeadAt(a, from, lead) {
      FindSame(a, b, lead, from + 1);
    }
  }

  lemma LineLead(s: Text, lineStart: nat, at: nat, p: nat, lead: Text)
    requires lineStart <= at <= |s|
    ensures LeadAt(s[lineStart..at], p, lead) <==> p + |lead| <= at - lineStart && LeadAt(s, lineStart + p, lead)
  {
    if p + |lead| <= at - lineStart {
      var q := lineStart + p;
      var u, v := s[lineStart..at][p..p + |lead|], s[q..q + |lead|];
      assert |u| == |v| && forall i :: 0 <= i < |u| ==> u[i] == v[i];
    }
  }

  predicate SameValue(a: Option<Text>, b: Option<Text>) {
    (a.Some? <==> b.Some?) && (a.Some? ==> SameButCase(a.value, b.value))
  }

  lemma SameAfter(a: Text, b: Text, lead: Text)
    requires SameButCase(a, b) && lead != [] && forall p: nat :: LeadAt(a, p, lead) <==> LeadAt(b, p, lead)
    ensures SameValue(ContextAfter(a, lead), ContextAfter(b, lead))
  {
    SameLength(a, b);
    FindSame(a, b, lead, 0);
    var p := FindText(a, lead, 0);
    if p + |lead| <= |a| {
      CaseKeepsByte(a, b, QUOTE);
      KeepsFirst(a, b, QUOTE, p + |lead|);
    }
  }

  lemma SameContext(a: Text, b: Text)
    requires SameButCase(a, b) && LeadsKept(a, b)
    ensures SameButCase(Context(a), Context(b))
  {
    assert Lit("data \"") in Leads() && Lit("id=\"") in Leads();
    hide ContextAfter, Lit, LeadAt;
    SameAfter(a, b, Lit("data \""));
    SameAfter(a, b, Lit("id=\""));
  }

  /** Whether a string may name an icon, where the leads on its line are kept. */
  lemma SameAttribute(a: Text, b: Text, lineStart: nat, at: nat)
    requires SameButCase(a, b) && LeadsKept(a, b) && lineStart <= at <= |a|
    ensures IconAttribute(Context(a[lineStart..at])) <==> IconAttribute(Context(b[lineStart..at]))
  {
    var la, lb := a[lineStart..at], b[lineStart..at];
    forall p: nat, lead | lead in Leads()
      ensures LeadAt(la, p, lead) <==> LeadAt(lb, p, lead)
    {
      LineLead(a, lineStart, at, p, lead);
      LineLead(b, lineStart, at, p, lead);
      assert LeadAt(a, lineStart + p, lead) <==> LeadAt(b, lineStart + p, lead);
    }
    assert SameButCase(la, lb);
    hide LeadAt, Leads, Context;
    SameContext(la, lb);
    hide LeadsKept;
    SameIcon(Context(la), Context(lb));
  }

  lemma SameIcon(a: Text, b: Text)
    requires SameButCase(a, b)
    ensures IconAttribute(a) <==> IconAttribute(b)
  {
    SameAsBoth(a, b, Lit("Icon"));
    SameAsBoth(a, b, Lit("MapKey"));
  }

  lemma SameAsBoth(a: Text, b: Text, c: Text)
    requires SameButCase(a, b)
    ensures SameButCase(a, c) <==> SameButCase(b, c)
  {
    if SameButCase(a, c) {
      assert forall i :: 0 <= i < |a| ==> LowerByte(b[i]) == LowerByte(a[i]);
    }
    if SameButCase(b, c) {
      assert forall i :: 0 <= i < |a| ==> LowerByte(a[i]) == LowerByte(b[i]);
    }
  }

  lemma SameLength(a: Text, b: Text)
    requires SameButCase(a, b)
    ensures |a| == |b|
  {
  }

  lemma SameMarks(a: Text, b: Text, at: nat)
    requires SameButCase(a, b) && at < |a|
    ensures (a[at] == NEWLINE <==> b[at] == NEWLINE) && (IsQuote(a[at]) ==> b[at] == a[at])
    ensures IsQuote(a[at]) <==> IsQuote(b[at])
  {
    assert LowerByte(a[at]) == LowerByte(b[at]);
  }

  lemma SameQuoteEnd(a: Text, b: Text, at: nat)
    requires SameButCase(a, b) && at < |a| && IsQuote(a[at])
    ensures QuoteEnd(a, at, at + 1) == QuoteEnd(b, at, at + 1)
    ensures var end := QuoteEnd(a, at, at + 1);
      end < |a| ==> (a[end] == a[at] <==> b[end] == b[at])
  {
    CaseKeepsByte(a, b, NEWLINE);
    CaseKeepsByte(a, b, QUOTE);
    CaseKeepsByte(a, b, APOSTROPHE);
    hide QuoteEnd, SameButCase;
    QuoteEndIgnoresCase(a, b, at, at + 1);
  }

  /** Where a text's strings are does not depend on case, nor their attributes where the leads are kept. */
  lemma {:induction false} PlacesIgnoreCase(a: Text, b: Text, at: nat, lineStart: nat)
    requires SameButCase(a, b) && lineStart <= at <= |a|
    ensures SameRanges(TextTokens(a, at, lineStart), TextTokens(b, at, lineStart))
    ensures LeadsKept(a, b) ==> SameKinds(TextTokens(a, at, lineStart), TextTokens(b, at, lineStart))
    decreases |a| - at
  {
    hide Context, QuoteEnd, SameButCase, SameRanges, TextTokens, SameKinds, LeadsKept, IconAttribute;
    assert |a| == |b| by { SameLength(a, b); }
    if at < |a| {
      SameMarks(a, b, at);
      TextStep(a, at, lineStart);
      TextStep(b, at, lineStart);
    }
    if at == |a| {
      TextEnd(a, lineStart);
      TextEnd(b, lineStart);
      NoRanges();
    } else if a[at] == NEWLINE {
      PlacesIgnoreCase(a, b, at + 1, at + 1);
    } else if !IsQuote(a[at]) {
      PlacesIgnoreCase(a, b, at + 1, lineStart);
    } else {
      SameQuoteEnd(a, b, at);
      var end := QuoteEnd(a, at, at + 1);
      if end == |a| || a[end] != a[at] {
        PlacesIgnoreCase(a, b, at + 1, lineStart);
      } else {
        PlacesIgnoreCase(a, b, end + 1, lineStart);
        var t := Token(at + 1, end - at - 1, Context(a[lineStart..at]));
        var u := Token(at + 1, end - at - 1, Context(b[lineStart..at]));
        if LeadsKept(a, b) {
          SameAttribute(a, b, lineStart, at);
        }
        SameRangesWith(t, u, TextTokens(a, end + 1, lineStart), TextTokens(b, end + 1, lineStart));
      }
    }
  }

  lemma {:induction false} QuoteEndIgnoresCase(a: Text, b: Text, at: nat, end: nat)
    requires SamePlaces(a, b, NEWLINE) && SamePlaces(a, b, QUOTE) && SamePlaces(a, b, APOSTROPHE)
    requires at < end <= |a| && IsQuote(a[at])
    ensures QuoteEnd(a, at, end) == QuoteEnd(b, at, end)
    ensures forall i :: 0 <= i < |a| ==> (a[i] == a[at] <==> b[i] == b[at])
    decreases |a| - end
  {
    if end < |a| && a[end] != a[at] && a[end] != NEWLINE && end - at <= 256 {
      QuoteEndIgnoresCase(a, b, at, end + 1);
    }
  }

  /** What the fixer finds does not depend on case. */
  lemma LogIgnoresCase(x: Archive, x': Archive)
    requires OnlyCase(x, x') && SameTokens(x, x')
    ensures Log(x') == Log(x)
  {
    hide EntriesEvents, ContentsEvents, SameTokens;
    SameLows(x, x');
    SameContents(x, x', Lows(x.names), |x.contents|);
  }

  /** The lead is there, whatever its case. */
  predicate LeadHere(s: Text, p: nat, lead: Text) {
    p + |lead| <= |s| && SameButCase(s[p..p + |lead|], lead)
  }

  /** No reference in a text has a byte of a lead, whatever its case. */
  ghost predicate LeadsClear(x: Archive) {
    forall c, p: nat, lead, e ::
      0 <= c < |x.contents| && !x.contents[c].lsf && lead in Leads() && LeadHere(x.contents[c].bytes, p, lead)
      && e in Log(x) && e.Occ? && e.at.InContent? && e.at.content == c ==>
        Clear(e.at.pos, e.at.len, p, |lead|)
  }

  lemma LeadKept(x: Archive, x': Archive, c: nat, p: nat, lead: Text)
    requires OnlyCase(x, x') && Unified(x, x') && LeadsClear(x) && c < |x.contents| && !x.contents[c].lsf &&
      lead in Leads()
    ensures LeadAt(x.contents[c].bytes, p, lead) <==> LeadAt(x'.contents[c].bytes, p, lead)
  {
    hide Log, Goal, Leads;
    var a, b := x.contents[c].bytes, x'.contents[c].bytes;
    if LeadAt(a, p, lead) || LeadAt(b, p, lead) {
      LeadIsHere(a, b, p, lead);
      forall i | p <= i < p + |lead|
        ensures a[i] == b[i]
      {
        var o := ContentCell(c, i);
        assert Outside(Log(x), o) by {
          hide SameButCase, LeadHere;
        }
        assert Spelled(x', o) == Spelled(x, o);
        assert Spelled(x, o)[0] == a[i] && Spelled(x', o)[0] == b[i];
      }
      assert a[p..p + |lead|] == b[p..p + |lead|];
    }
  }

  lemma LeadIsHere(a: Text, b: Text, p: nat, lead: Text)
    requires SameButCase(a, b) && (LeadAt(a, p, lead) || LeadAt(b, p, lead))
    ensures LeadHere(a, p, lead)
  {
    if LeadAt(b, p, lead) {
      forall i | 0 <= i < |lead|
        ensures LowerByte(a[p..p + |lead|][i]) == LowerByte(lead[i])
      {
        assert LowerByte(a[p + i]) == LowerByte(b[p + i]) && b[p + i] == b[p..p + |lead|][i];
      }
    }
  }

  /** Where no reference lies over a lead, unifying leaves every string the kind it was. */
  lemma KindsStay(x: Archive, x': Archive)
    requires OnlyCase(x, x') && Unified(x, x') && LeadsClear(x)
    ensures SameTokens(x, x')
  {
    hide Log, Goal, TextTokens, SameButCase, LeadsClear, Unified, LeadAt, Leads;
    forall c | 0 <= c < |x.contents|
      ensures SameKinds(Tokens(x.contents[c]), Tokens(x'.contents[c]))
    {
      var a, b := x.contents[c].bytes, x'.contents[c].bytes;
      if !x.contents[c].lsf {
        forall p: nat, lead | lead in Leads()
          ensures LeadAt(a, p, lead) <==> LeadAt(b, p, lead)
        {
          LeadKept(x, x', c, p, lead);
        }
        PlacesIgnoreCase(a, b, 0, 0);
      }
    }
  }

  /** A group that was to be spelled one way is, everywhere: nothing is left to do. */
  lemma DoneView(v: View, v': View, t: Text)
    requires IsTarget(v, t) && v'.directory == v.directory
    requires v'.all <= {t} && v'.pins <= {t} && (v.pins == {} ==> v'.pins == {})
    ensures Wanted(v') == None || Wanted(v') == Some(t)
  {
    if Wanted(v').Some? {
      var u := Wanted(v').value;
      assert IsTarget(v', u) && !Differ(v'.all);
      assert v'.pins == {u} && u in {u};
    }
  }

  /** Being of one group is an equivalence. */
  lemma SameIsTransitive(lows: seq<Text>, log: seq<Event>, a: Id, b: Id, c: Id)
    requires Same(lows, log, a, b)
    ensures Same(lows, log, c, a) <==> Same(lows, log, c, b)
    ensures Same(lows, log, b, a) && (a.Dir? <==> b.Dir?)
  {
    if a != b {
      var key :| Join(key) in log && a in IconStems(lows, key) && b in IconStems(lows, key);
      hide IconStems, IdSpelling;
      StemsSpell(lows, key, a);
      StemsSpell(lows, key, b);
      if c != a && Same(lows, log, c, a) {
        var k :| Join(k) in log && c in IconStems(lows, k) && a in IconStems(lows, k);
        StemsSpell(lows, k, a);
      }
      if c != b && Same(lows, log, c, b) {
        var k :| Join(k) in log && c in IconStems(lows, k) && b in IconStems(lows, k);
        StemsSpell(lows, k, b);
      }
    }
  }

  lemma SameView(x: Archive, lows: seq<Text>, log: seq<Event>, a: Id, b: Id)
    requires Same(lows, log, a, b)
    ensures ViewOf(x, lows, log, a) == ViewOf(x, lows, log, b)
  {
    hide Same, Spelled, PinText;
    SameIsTransitive(lows, log, a, b, a);
    forall c
      ensures Same(lows, log, c, a) <==> Same(lows, log, c, b)
    {
      SameIsTransitive(lows, log, a, b, c);
    }
    assert Spellings(x, lows, log, a) == Spellings(x, lows, log, b);
    assert ArchiveSpellings(x, lows, log, a) == ArchiveSpellings(x, lows, log, b);
    assert Pins(x, lows, log, a) == Pins(x, lows, log, b);
  }

  /** In a group with a target, every occurrence is spelled as that, pins of the archive's own among them. */
  lemma DoneGroup(x: Archive, x': Archive, id: Id, t: Text)
    requires Sound(x) && Unified(x, x') && Wanted(ViewOf(x, Lows(x.names), Log(x), id)) == Some(t)
    ensures var v' := ViewOf(x', Lows(x.names), Log(x), id);
      var v := ViewOf(x, Lows(x.names), Log(x), id);
      v'.all <= {t} && v'.pins <= {t} && (v.pins == {} ==> v'.pins == {})
  {
    var lows, log := Lows(x.names), Log(x);
    var v := ViewOf(x, lows, log, id);
    LogBacked(x);
    hide Log, Lows, Same, Spelled, Sound, ViewOf;
    forall e | e in log && e.Occ? && Same(lows, log, e.id, id)
      ensures Spelled(x', e.at) == t && |Spelled(x, e.at)| == |Spelled(x', e.at)|
    {
      GoalFolds(x, e);
      SameView(x, lows, log, e.id, id);
      assert Spelled(x', e.at) == Goal(x, e);
    }
    assert IsTarget(v, t);
    forall e | e in log && (e.Own? || e.Fixed?) && Same(lows, log, e.id, id) && PinText(x', e) != []
      ensures PinText(x', e) == t && v.pins != {}
    {
      PinAfter(x, x', lows, log, e, id, t);
    }
    ViewParts(x', lows, log, id);
  }

  lemma ViewParts(x: Archive, lows: seq<Text>, log: seq<Event>, id: Id)
    ensures var v := ViewOf(x, lows, log, id);
      v.all == Spellings(x, lows, log, id) && v.pins == Pins(x, lows, log, id)
  {
  }

  lemma PinAfter(x: Archive, x': Archive, lows: seq<Text>, log: seq<Event>, e: Event, id: Id, t: Text)
    requires e in log && (e.Own? || e.Fixed?) && Same(lows, log, e.id, id) && PinText(x', e) != [] && Backed(log, e)
    requires IsTarget(ViewOf(x, lows, log, id), t)
    requires forall e :: e in log && e.Occ? && Same(lows, log, e.id, id) ==>
      Spelled(x', e.at) == t && |Spelled(x, e.at)| == |Spelled(x', e.at)|
    ensures PinText(x', e) == t && ViewOf(x, lows, log, id).pins != {}
  {
    hide Same, Spelled;
    var v := ViewOf(x, lows, log, id);
    if e.Own? {
      var f := Occ(e.id, e.at);
      assert f in log && Spelled(x', f.at) == t && |Spelled(x, f.at)| == |t|;
    }
    assert PinText(x, e) != [] && PinText(x, e) in v.pins;
  }

  lemma UntouchedView(x: Archive, x': Archive, id: Id)
    requires Sound(x) && Unified(x, x') && Wanted(ViewOf(x, Lows(x.names), Log(x), id)) == None
    ensures ViewOf(x', Lows(x.names), Log(x), id) == ViewOf(x, Lows(x.names), Log(x), id)
  {
    var lows, log := Lows(x.names), Log(x);
    LogBacked(x);
    hide Log, Lows, Same, Spelled, Sound, Wanted;
    forall e | e in log && e.Occ? && Same(lows, log, e.id, id)
      ensures Spelled(x', e.at) == Spelled(x, e.at)
    {
      SameView(x, lows, log, e.id, id);
      assert Spelled(x', e.at) == Goal(x, e);
    }
    forall e | e in log && (e.Own? || e.Fixed?) && Same(lows, log, e.id, id)
      ensures PinText(x', e) == PinText(x, e)
    {
      if e.Own? {
        var f := Occ(e.id, e.at);
        assert f in log;
      }
    }
    assert Spellings(x', lows, log, id) == Spellings(x, lows, log, id);
    assert ArchiveSpellings(x', lows, log, id) == ArchiveSpellings(x, lows, log, id);
    assert Pins(x', lows, log, id) == Pins(x, lows, log, id);
  }

  lemma GoalReached(x: Archive, x': Archive, e: Event)
    requires Sound(x) && Unified(x, x') && Log(x') == Log(x) && e in Log(x) && e.Occ?
    ensures Goal(x', e) == Spelled(x', e.at)
  {
    OnlyCaseChanges(x, x');
    SameLows(x, x');
    var lows, log := Lows(x.names), Log(x);
    var v, v' := ViewOf(x, lows, log, e.id), ViewOf(x', lows, log, e.id);
    assert Spelled(x', e.at) == Goal(x, e);
    assert v'.directory == v.directory;
    hide Log, Lows, Spelled, Sound, ViewOf, Unified, OnlyCase, IsTarget;
    if Wanted(v).Some? {
      DoneGroup(x, x', e.id, Wanted(v).value);
      DoneView(v, v', Wanted(v).value);
    } else {
      UntouchedView(x, x', e.id);
    }
  }

  /** Running the fixer on what it made changes nothing, where strings may name icons as they might before. */
  lemma UnifyingTwice(x: Archive, x': Archive, x'': Archive)
    requires Sound(x) && SameTokens(x, x') && Unified(x, x') && Unified(x', x'')
    ensures x''.names == x'.names
    ensures forall c :: 0 <= c < |x'.contents| ==> x''.contents[c].bytes == x'.contents[c].bytes
  {
    OnlyCaseChanges(x, x');
    LogIgnoresCase(x, x');
    hide Log, Sound, Goal, OnlyCase;
    forall o | InRange(x', o) && o.len == 1
      ensures Spelled(x'', o) == Spelled(x', o)
    {
      UntouchedCell(x, x', x'', o);
    }
    CellsTellAll(x', x'');
  }

  /** What the fixer made is unified as it is, so running it again succeeds. */
  lemma UnifiedStays(x: Archive, x': Archive)
    requires Sound(x) && SameTokens(x, x') && Unified(x, x')
    ensures Unified(x', x')
  {
    OnlyCaseChanges(x, x');
    LogIgnoresCase(x, x');
    hide Log, Sound, Goal, OnlyCase, Spelled, SameTokens;
    forall e | e in Log(x') && e.Occ?
      ensures Spelled(x', e.at) == Goal(x', e)
    {
      GoalReached(x, x', e);
    }
    assert SameShape(x', x');
  }

  /** Which a caller can see beforehand: both hold where no reference of the archive lies over a lead. */
  lemma ClearStays(x: Archive, x': Archive)
    requires Sound(x) && LeadsClear(x) && Unified(x, x')
    ensures SameTokens(x, x') && Unified(x', x')
  {
    hide Sound, LeadsClear, Unified, SameTokens, OnlyCase;
    OnlyCaseChanges(x, x');
    KindsStay(x, x');
    UnifiedStays(x, x');
  }

  lemma CellsTellAll(x: Archive, x': Archive)
    requires SameShape(x, x')
    requires forall o :: InRange(x, o) && o.len == 1 ==> Spelled(x', o) == Spelled(x, o)
    ensures x'.names == x.names
    ensures forall c :: 0 <= c < |x.contents| ==> x'.contents[c].bytes == x.contents[c].bytes
  {
    forall i | 0 <= i < |x.names|
      ensures x'.names[i] == x.names[i]
    {
      forall k | 0 <= k < |x.names[i]|
        ensures x'.names[i][k] == x.names[i][k]
      {
        var o := NameCell(i, k);
        assert Spelled(x', o)[0] == x'.names[i][k] && Spelled(x, o)[0] == x.names[i][k];
      }
    }
    forall c, k | 0 <= c < |x.contents| && 0 <= k < |x.contents[c].bytes|
      ensures x'.contents[c].bytes[k] == x.contents[c].bytes[k]
    {
      var o := ContentCell(c, k);
      assert Spelled(x', o)[0] == x'.contents[c].bytes[k] && Spelled(x, o)[0] == x.contents[c].bytes[k];
    }
  }

  lemma UntouchedCell(x: Archive, x': Archive, x'': Archive, o: Occurrence)
    requires Sound(x) && Unified(x, x') && Unified(x', x'') && Log(x') == Log(x)
    requires InRange(x', o) && o.len == 1
    ensures Spelled(x'', o) == Spelled(x', o)
  {
    hide Log, Sound, Goal;
    if !Outside(Log(x'), o) {
      var e :| e in Log(x') && Covers(e, o);
      GoalReached(x, x', e);
      assert Spelled(x'', e.at) == Goal(x', e);
      GoalFolds(x, e);
      SameRange(x, x', e.at);
      SameRange(x', x'', e.at);
      hide Spelled, Covers, Outside, InRange, Settled, SameShape;
      CellWithin(x', e, o);
      CellWithin(x'', e, o);
    }
  }
}
