/**
 What a part is to be spelled as, told from the log apart from the functions
 that decide it (src/pak_fix.cpp): by its group's pins, by the archive's names,
 or by all its spellings; and which parts are one group.
*/
module Targets {
  import opened BitStrings
  import opened Components
  import opened References
  import opened Resolution
  import opened Scanning
  import opened Spelling
  import opened Unification
  import opened Wrappers

  /** Parts that are spelled together: one and the same, or two textures' stems of an icon that a file names. */
  ghost predicate Together(x: Archive, a: Id, b: Id) {
    a == b || exists key :: Join(key) in Log(x) && StemOfIcon(x, key, a) && StemOfIcon(x, key, b)
  }

  ghost predicate StemOfIcon(x: Archive, key: Text, id: Id) {
    exists i: nat, b: nat, e: nat :: i < |x.names| && IconNamed(Lowered(x.names[i]), key)
      && id.Stem? && Component(Lowered(x.names[i]), b, e, id)
  }

  lemma StemOfIconIff(x: Archive, key: Text, id: Id)
    ensures id in IconStems(Lows(x.names), key) <==> StemOfIcon(x, key, id)
  {
    var lows := Lows(x.names);
    FoldedNames(x.names);
    forall i: nat | i < |lows|
      ensures i in IconsOf(lows, key, |lows|) <==> IconNamed(lows[i], key)
      ensures id == StemId(lows[i]) <==> id.Stem? && exists b: nat, e: nat :: Component(lows[i], b, e, id)
    {
      InIconsOf(lows, key, |lows|, i);
      IconIff(lows[i], key);
      StemIdIs(lows[i], Occ(id, InName(0, 0, 0)));
    }
    hide IconsOf, IconNamed, Component, StemId, Lowered, IsIcon, IconKey;
  }

  lemma TogetherIff(x: Archive, a: Id, b: Id)
    ensures Same(Lows(x.names), Log(x), a, b) <==> Together(x, a, b)
  {
    hide IconStems, StemOfIcon, Log, Lows;
    forall key, id
      ensures id in IconStems(Lows(x.names), key) <==> StemOfIcon(x, key, id)
    {
      StemOfIconIff(x, key, id);
    }
  }

  /** A pin of a part's group. */
  ghost predicate PinOf(x: Archive, id: Id, f: Event) {
    f in Log(x) && (f.Own? || f.Fixed?) && Together(x, f.id, id) && PinnedText(x, f) != []
  }

  /** What a pin says: the text itself, or what is at its range. */
  function PinnedText(x: Archive, f: Event): Text {
    if f.Fixed? then f.text else if f.Own? then Spelled(x, f.at) else []
  }

  ghost predicate SpellingOf(x: Archive, id: Id, f: Event) {
    f in Log(x) && f.Occ? && Together(x, f.id, id)
  }

  /** What a group's pins and occurrences give it. */
  lemma GroupHas(x: Archive, id: Id, g: Event)
    ensures var v := ViewOf(x, Lows(x.names), Log(x), id);
      && v.directory == id.Dir?
      && (PinOf(x, id, g) ==> PinnedText(x, g) in v.pins)
      && (SpellingOf(x, id, g) ==> Spelled(x, g.at) in v.all && (g.at.InName? ==> Spelled(x, g.at) in v.archive))
  {
    hide Log, Lows, Together, Same, Spelled;
    if g.Occ? || g.Own? || g.Fixed? {
      TogetherIff(x, g.id, id);
    }
  }

  lemma PinFrom(x: Archive, id: Id, t: Text) returns (g: Event)
    requires t in Pins(x, Lows(x.names), Log(x), id)
    ensures PinOf(x, id, g) && PinnedText(x, g) == t
  {
    hide Log, Lows, Together, Same, Spelled;
    g :| g in Log(x) && (g.Own? || g.Fixed?) && Same(Lows(x.names), Log(x), g.id, id) && PinText(x, g) == t && t != [];
    TogetherIff(x, g.id, id);
  }

  lemma SpellingFrom(x: Archive, id: Id, t: Text) returns (g: Event)
    requires t in Spellings(x, Lows(x.names), Log(x), id)
    ensures SpellingOf(x, id, g) && Spelled(x, g.at) == t
  {
    hide Log, Lows, Together, Same, Spelled;
    g :| g in Log(x) && g.Occ? && Same(Lows(x.names), Log(x), g.id, id) && Spelled(x, g.at) == t;
    TogetherIff(x, g.id, id);
  }

  lemma NameFrom(x: Archive, id: Id, t: Text) returns (g: Event)
    requires t in ArchiveSpellings(x, Lows(x.names), Log(x), id)
    ensures SpellingOf(x, id, g) && g.at.InName? && Spelled(x, g.at) == t
  {
    hide Log, Lows, Together, Same, Spelled;
    g :| g in Log(x) && g.Occ? && g.at.InName? && Same(Lows(x.names), Log(x), g.id, id) && Spelled(x, g.at) == t;
    TogetherIff(x, g.id, id);
  }

  lemma NothingWanted(v: View)
    requires forall t :: !IsTarget(v, t)
    ensures Wanted(v) == None
  {
  }

  lemma PinTarget(v: View, p: Text)
    requires p in v.pins
    ensures (forall q :: q in v.pins ==> q == p) ==> Wanted(v) == Some(p)
    ensures (exists q :: q in v.pins && q != p) ==> Wanted(v) == None
  {
    hide Wanted, Blends;
    if forall q :: q in v.pins ==> q == p {
      assert v.pins == {p};
      WantedIs(v, p);
    } else {
      NothingWanted(v);
    }
  }

  lemma NameTarget(v: View, p: Text, own: Text)
    requires v.pins == {} && v.directory && p in v.archive && p in v.all && own in v.all
    ensures (forall q :: q in v.archive ==> q == p) ==> Wanted(v) == Some(p) || (Wanted(v) == None && own == p)
    ensures (exists q :: q in v.archive && q != p) ==> Wanted(v) == None
  {
    hide Wanted, Blends;
    if forall q :: q in v.archive ==> q == p {
      assert v.archive == {p};
      if own != p {
        assert Differ(v.all);
      }
      if Differ(v.all) {
        WantedIs(v, p);
      } else {
        NothingWanted(v);
      }
    } else {
      NothingWanted(v);
    }
  }

  ghost function Blended(all: set<Text>, s: Text): Text {
    seq(|s|, k requires 0 <= k < |s| => if AgreeAt(all, k) then s[k] else LowerByte(s[k]))
  }

  lemma BlendTarget(v: View, s: Text, low: Text)
    requires v.pins == {} && !v.directory && s in v.all && AllFold(v.all, low) && SLASH !in low
    ensures (if Wanted(v).Some? then Wanted(v).value else s) == Blended(v.all, s)
  {
    var t := Blended(v.all, s);
    forall u | u in v.all
      ensures SameButCase(s, u)
    {
      FoldedIsCase(s, u);
    }
    forall u, k | u in v.all && 0 <= k < |t|
      ensures t[k] == if AgreeAt(v.all, k) then ByteAt(u, k) else LowerByte(ByteAt(u, k))
    {
      assert LowerByte(s[k]) == LowerByte(u[k]);
      assert AgreeAt(v.all, k) ==> ByteAt(s, k) == ByteAt(u, k);
    }
    assert Blends(v.all, t);
    hide Blends, Wanted, SameButCase;
    if Differ(v.all) {
      WantedIs(v, t);
    } else {
      NothingWanted(v);
      forall k
        ensures AgreeAt(v.all, k)
      {
      }
      assert t == s;
    }
  }

  lemma NoPins(x: Archive, id: Id)
    requires forall g :: !PinOf(x, id, g)
    ensures ViewOf(x, Lows(x.names), Log(x), id).pins == {}
  {
    hide Log, Lows, PinOf, Spellings, ArchiveSpellings, Pins;
    if t :| t in Pins(x, Lows(x.names), Log(x), id) {
      var g := PinFrom(x, id, t);
      assert false;
    }
  }

  /** A pinned group is spelled as its pins say, if they agree. */
  lemma PinDecides(x: Archive, e: Event, f: Event)
    requires e.Occ? && PinOf(x, e.id, f) && forall g :: PinOf(x, e.id, g) ==> PinnedText(x, g) == PinnedText(x, f)
    ensures Goal(x, e) == PinnedText(x, f)
  {
    hide PinOf, Spelled, Log, Lows, PinnedText, IsTarget, Wanted, Pins, Spellings, ArchiveSpellings;
    var v := ViewOf(x, Lows(x.names), Log(x), e.id);
    GroupHas(x, e.id, f);
    forall q | q in v.pins
      ensures q == PinnedText(x, f)
    {
      var g := PinFrom(x, e.id, q);
    }
    PinTarget(v, PinnedText(x, f));
  }

  /** It is left alone if they do not. */
  lemma PinsDisagree(x: Archive, e: Event, f: Event, g: Event)
    requires e.Occ? && PinOf(x, e.id, f) && PinOf(x, e.id, g) && PinnedText(x, f) != PinnedText(x, g)
    ensures Goal(x, e) == Spelled(x, e.at)
  {
    hide PinOf, Spelled, Log, Lows, PinnedText, IsTarget, Wanted, Pins, Spellings, ArchiveSpellings;
    GroupHas(x, e.id, f);
    GroupHas(x, e.id, g);
    PinTarget(ViewOf(x, Lows(x.names), Log(x), e.id), PinnedText(x, f));
  }

  /** A directory without pins is spelled as all names spell it. */
  lemma NamesAgree(x: Archive, e: Event, f: Event)
    requires e in Log(x) && e.Occ? && e.id.Dir? && (forall g :: !PinOf(x, e.id, g))
    requires SpellingOf(x, e.id, f) && f.at.InName?
    requires forall g :: SpellingOf(x, e.id, g) && g.at.InName? ==> Spelled(x, g.at) == Spelled(x, f.at)
    ensures Goal(x, e) == Spelled(x, f.at)
  {
    assert SpellingOf(x, e.id, e);
    hide PinOf, SpellingOf, Spelled, Log, Lows, PinnedText, IsTarget, Wanted, Pins, Spellings, ArchiveSpellings;
    var v := ViewOf(x, Lows(x.names), Log(x), e.id);
    NoPins(x, e.id);
    GroupHas(x, e.id, e);
    GroupHas(x, e.id, f);
    forall q | q in v.archive
      ensures q == Spelled(x, f.at)
    {
      var g := NameFrom(x, e.id, q);
    }
    NameTarget(v, Spelled(x, f.at), Spelled(x, e.at));
  }

  /** It is left alone if two names differ. */
  lemma NamesDisagree(x: Archive, e: Event, f: Event, g: Event)
    requires e in Log(x) && e.Occ? && e.id.Dir? && (forall h :: !PinOf(x, e.id, h))
    requires SpellingOf(x, e.id, f) && f.at.InName? && SpellingOf(x, e.id, g) && g.at.InName?
    requires Spelled(x, f.at) != Spelled(x, g.at)
    ensures Goal(x, e) == Spelled(x, e.at)
  {
    assert SpellingOf(x, e.id, e);
    hide PinOf, SpellingOf, Spelled, Log, Lows, PinnedText, IsTarget, Wanted, Pins, Spellings, ArchiveSpellings;
    NoPins(x, e.id);
    GroupHas(x, e.id, e);
    GroupHas(x, e.id, f);
    GroupHas(x, e.id, g);
    NameTarget(ViewOf(x, Lows(x.names), Log(x), e.id), Spelled(x, f.at), Spelled(x, e.at));
  }

  /** Anything else without pins keeps each byte that all its spellings share. */
  lemma SharedBytesStay(x: Archive, e: Event, k: nat)
    requires Sound(x) && e in Log(x) && e.Occ? && !e.id.Dir? && (forall g :: !PinOf(x, e.id, g)) && k < e.at.len
    requires |Spelled(x, e.at)| == e.at.len
    requires forall g :: SpellingOf(x, e.id, g) ==> ByteAt(Spelled(x, g.at), k) == Spelled(x, e.at)[k]
    ensures |Goal(x, e)| == e.at.len && Goal(x, e)[k] == Spelled(x, e.at)[k]
  {
    hide PinOf, SpellingOf, Spelled, Log, Lows, PinnedText, Sound, Goal, Pins, Spellings, ArchiveSpellings;
    GoalIsBlend(x, e);
    var v := ViewOf(x, Lows(x.names), Log(x), e.id);
    forall u | u in v.all
      ensures ByteAt(u, k) == Spelled(x, e.at)[k]
    {
      var g := SpellingFrom(x, e.id, u);
    }
    assert AgreeAt(v.all, k);
  }

  /** It has the others in lower case. */
  lemma OtherBytesAreLower(x: Archive, e: Event, k: nat, g: Event)
    requires Sound(x) && e in Log(x) && e.Occ? && !e.id.Dir? && (forall g :: !PinOf(x, e.id, g)) && k < e.at.len
    requires |Spelled(x, e.at)| == e.at.len
    requires SpellingOf(x, e.id, g) && ByteAt(Spelled(x, g.at), k) != Spelled(x, e.at)[k]
    ensures |Goal(x, e)| == e.at.len && Goal(x, e)[k] == LowerByte(Spelled(x, e.at)[k])
  {
    assert SpellingOf(x, e.id, e);
    hide PinOf, SpellingOf, Spelled, Log, Lows, PinnedText, Sound, Goal, Pins, Spellings, ArchiveSpellings;
    GoalIsBlend(x, e);
    GroupHas(x, e.id, e);
    GroupHas(x, e.id, g);
    hide AgreeAt;
    NotShared(ViewOf(x, Lows(x.names), Log(x), e.id).all, Spelled(x, e.at), Spelled(x, g.at), k);
  }

  lemma NotShared(all: set<Text>, s: Text, u: Text, k: nat)
    requires s in all && u in all && ByteAt(s, k) != ByteAt(u, k)
    ensures !AgreeAt(all, k)
  {
  }

  lemma GoalIsBlend(x: Archive, e: Event)
    requires Sound(x) && e in Log(x) && e.Occ? && !e.id.Dir? && (forall g :: !PinOf(x, e.id, g))
    ensures Goal(x, e) == Blended(ViewOf(x, Lows(x.names), Log(x), e.id).all, Spelled(x, e.at))
    ensures |Goal(x, e)| == |Spelled(x, e.at)| == e.at.len
  {
    assert SpellingOf(x, e.id, e);
    LogOk(x);
    assert EventOk(x, e);
    assert SLASH !in IdSpelling(e.id);
    GoalFolds(x, e);
    ViewFolds(x, e.id);
    hide PinOf, SpellingOf, Spelled, Log, PinnedText, Sound, IdSpelling, Lows, EventOk, IsTarget, Wanted, AllFold;
    hide Pins, Spellings, ArchiveSpellings;
    NoPins(x, e.id);
    GroupHas(x, e.id, e);
    BlendTarget(ViewOf(x, Lows(x.names), Log(x), e.id), Spelled(x, e.at), IdSpelling(e.id));
  }
}
