/**
 An archive whose unified spelling is not left as it is by another run
 (src/pak_fix.cpp): respelling a reference makes an attribute's name of what
 was none, so that a string further on names an icon the second time.
*/
module SecondRun {
  import opened References
  import opened Scanning
  import opened Spelling
  import opened Unification
  import opened Wrappers
  import Overlap

  /** The reference "b/xID=" is quoted, and its last letters and the quote are an attribute's once it is respelled. */
  function SampleText(): Text {
    Lit("\"b/xID=\"Icon\"'Foo'")
  }

  function Sample(): Archive {
    Archive([Lit("b/xid="), Lit("p/GUI/Assets") + Lit("/Tooltips/Icons/") + Lit("foo.DDS"), Lit("a.txt")],
            [Content(2, false, SampleText(), [], false)])
  }

  function SampleLows(): (r: seq<Text>)
    ensures |r| == 3
  {
    [Lit("b/xid="), Lit("p/gui/assets") + Lit("/tooltips/icons/") + Lit("foo.dds"), Lit("a.txt")]
  }

  lemma LowsAre()
    ensures Lows(Sample().names) == SampleLows()
  {
    assert Lowered(Lit("b/xid=")) == Lit("b/xid=");
    assert Lowered(Lit("a.txt")) == Lit("a.txt");
    TextureFolds();
    hide Lowered, Lit;
  }

  lemma TextureFolds()
    ensures Lowered(Lit("p/GUI/Assets") + Lit("/Tooltips/Icons/") + Lit("foo.DDS"))
         == Lit("p/gui/assets") + Lit("/tooltips/icons/") + Lit("foo.dds")
  {
    assert Lowered(Lit("p/GUI/Assets")) == Lit("p/gui/assets");
    assert Lowered(Lit("foo.DDS")) == Lit("foo.dds");
    IconsFold();
    hide Lit;
    LoweredBoth(Lit("p/GUI/Assets"), Lit("/Tooltips/Icons/"));
    LoweredBoth(Lit("p/GUI/Assets") + Lit("/Tooltips/Icons/"), Lit("foo.DDS"));
  }

  lemma IconsFold()
    ensures Lowered(Lit("/Tooltips/Icons/")) == Lit("/tooltips/icons/")
  {
  }

  lemma LoweredBoth(a: Text, b: Text)
    ensures Lowered(a + b) == Lowered(a) + Lowered(b)
  {
  }

  // ---- the names ----

  lemma ReferenceName()
    ensures var low := SampleLows()[0];
      && Pieces(low) == [Piece(0, 1, Dir(low[..1])), Piece(2, 6, Stem(low))] && StemPiece(low) == Piece(2, 6, Stem(low))
      && !HasExt(low) && |Leaf(low)| == 4 && |low| == 6
  {
    var low := Lit("b/xid=");
    Overlap.DirStep(low, 0, 1);
    Overlap.NoDirs(low, 2);
    AfterLastUnique(low, SLASH, 2);
    AfterLastUnique(low, DOT, 0);
    assert low[..6] == low;
    hide AfterLast, DirPieces, Lit;
  }

  lemma LeafBytes()
    ensures var leaf := Lit("foo.dds");
      && leaf[..3] == Lit("foo") && leaf[4..] == Lit("dds")
      && forall k :: 0 <= k < 7 ==> leaf[k] != SLASH && (leaf[k] == DOT <==> k == 3)
  {
  }

  lemma TextureBytes()
    ensures var low := SampleLows()[1];
      && |low| == 35 && low[27] == SLASH && low[31] == DOT && low[28..31] == Lit("foo") && low[32..] == Lit("dds")
      && forall k :: 28 <= k < 35 ==> low[k] != SLASH && (low[k] == DOT <==> k == 31)
  {
    LeafBytes();
    assert Lit("/tooltips/icons/")[15] == SLASH;
    hide Lit;
    var low, leaf := SampleLows()[1], Lit("foo.dds");
    assert forall k :: 28 <= k < 35 ==> low[k] == leaf[k - 28];
    assert low[28..31] == leaf[..3] && low[32..] == leaf[4..];
  }

  lemma TextureDirectory()
    ensures var low := SampleLows()[1];
      && low[1..6] == Lit("/gui/") && low[1..12] == Lit("/gui/assets") && EndsWith(low[..28], Lit("/tooltips/icons/"))
  {
    var root := Lit("p/gui/assets");
    assert root[1..6] == Lit("/gui/");
    assert root[1..12] == Lit("/gui/assets");
    hide Lit;
    var low := SampleLows()[1];
    assert low[1..6] == root[1..6] && low[1..12] == root[1..12];
    assert low[..28][12..] == Lit("/tooltips/icons/");
  }

  lemma TextureName()
    ensures var low := SampleLows()[1];
      && StemPiece(low) == Piece(28, 31, Stem(low[..31])) && HasExt(low) && |Leaf(low)| == 7
      && AfterLast(low, SLASH) == 28 && Extension(low) == Lit("dds")
  {
    var low := SampleLows()[1];
    TextureBytes();
    hide SampleLows;
    AfterLastUnique(low, SLASH, 28);
    AfterLastUnique(low, DOT, 32);
    AfterLastUnique(low[28..], DOT, 4);
    assert low[28..][4..] == low[32..];
    assert Lowered(Lit("dds")) == Lit("dds");
    hide AfterLast, Lit, Lowered;
  }

  lemma PlainName()
    ensures var low := SampleLows()[2];
      && StemPiece(low) == Piece(0, 1, Stem(low[..1])) && |Leaf(low)| == 5 && |low| == 5 && Extension(low) != Lit("dds")
  {
    var low := Lit("a.txt");
    AfterLastUnique(low, SLASH, 0);
    AfterLastUnique(low, DOT, 2);
    assert low[0..] == low && Lowered(low[2..])[0] == 116 && Lit("dds")[0] == 100;
    hide AfterLast, Lit, Lowered;
  }

  /** A part is found where it is, or before. */
  lemma {:induction false} FoundBy(s: Text, part: Text, from: nat, p: nat)
    requires from <= p && p + |part| <= |s| && s[p..p + |part|] == part
    ensures FindText(s, part, from) <= p
    decreases p - from
  {
    if from < p {
      FoundBy(s, part, from + 1, p);
    }
  }

  /** Of the three only the texture is an icon's. */
  lemma OneIcon()
    ensures var lows := SampleLows();
      IsIcon(lows[1]) && IconKey(lows[1]) == Lit("foo") && !IsIcon(lows[0]) && !IsIcon(lows[2])
  {
    var low := SampleLows()[1];
    TextureBytes();
    TextureDirectory();
    TextureName();
    ReferenceName();
    PlainName();
    hide SampleLows, Lit, HasExt, Extension, AfterLast, EndsWith, FindText, StemPiece;
    FoundBy(low, Lit("/gui/"), 0, 1);
    FoundBy(low, Lit("/gui/assets"), 0, 1);
    assert IconDirs()[0] == Lit("/tooltips/icons/");
  }

  // ---- what the names say of stems ----

  function NameStem(i: nat): Event
    requires i < 3
  {
    Occ(StemId(SampleLows()[i]), At(StemPiece(SampleLows()[i]), i))
  }

  /** Of stems, a name with a short leaf says only where its own is. */
  predicate OwnStem(low: Text, i: nat, e: Event) {
    !e.Join? && (e.Occ? ==> e.at.InName?) && (e.id.Stem? ==> e == Occ(StemId(low), At(StemPiece(low), i)))
  }

  lemma {:induction false} PinsAreOfDirs(low: Text, pieces: seq<Piece>, k: nat, e: Event)
    requires k <= |pieces| && e in CanonicalPins(low, pieces, k)
    ensures e.Fixed? && e.id.Dir?
    decreases |pieces| - k
  {
    hide Canonical, PieceText;
    if e in CanonicalPins(low, pieces, k + 1) {
      PinsAreOfDirs(low, pieces, k + 1, e);
    }
  }

  lemma PieceSays(low: Text, i: nat, e: Event)
    requires e in PieceEvents(Pieces(low), i)
    ensures OwnStem(low, i, e)
  {
    var pieces := Pieces(low);
    var k: nat :| k < |pieces| && e == Occ(pieces[k].id, At(pieces[k], i));
    WhichPiece(low, k);
    hide Pieces, StemPiece, At;
  }

  lemma WhichPiece(low: Text, k: nat)
    requires k < |Pieces(low)|
    ensures var p := Pieces(low)[k]; p.id.Stem? ==> p == StemPiece(low) && p.id == StemId(low)
  {
    DirPiecesOk(low, 0);
    var dirs := DirPieces(low, 0);
    DirsOnly(dirs, 0, AfterLast(low, SLASH));
    hide AllOk, Ordered, Between, DirPieces, HasExt, AfterLast;
    if k < |dirs| {
      assert Pieces(low)[k] == dirs[k];
    } else if k > |dirs| {
      assert Pieces(low)[k] == ExtPiece(low);
    }
  }

  lemma DirsOnly(dirs: seq<Piece>, from: nat, to: nat)
    requires Between(dirs, from, to)
    ensures forall k :: 0 <= k < |dirs| ==> dirs[k].id.Dir?
  {
  }

  lemma EntrySays(low: Text, i: nat, e: Event)
    requires |Leaf(low)| < 8 && e in EntryEvents(low, i)
    ensures OwnStem(low, i, e)
  {
    hide Pieces, Leaf, HasExt, IsTexture, IconDirectory, LastGui, OwnStem, CanonicalPins, PieceEvents;
    if e in PieceEvents(Pieces(low), i) {
      PieceSays(low, i, e);
    } else {
      assert e in TexturePins(low) by { NoNamePins(low, i); }
      PinSays(low, i, e);
    }
  }

  lemma NoNamePins(low: Text, i: nat)
    requires |Leaf(low)| < 8
    ensures NamePins(low, i) == []
  {
    hide Leaf;
  }

  lemma StemIsPiece(low: Text)
    ensures StemPiece(low) in Pieces(low) && StemPiece(low).id == StemId(low)
  {
    hide Pieces, IdSpelling;
    StemSpelling(low);
  }

  lemma PinSays(low: Text, i: nat, e: Event)
    requires e in TexturePins(low)
    ensures OwnStem(low, i, e)
  {
    hide Pieces, StemPiece, IsTexture, IconDirectory, LastGui, CanonicalPins;
    if e != Fixed(ExtId(low), Lit("DDS")) {
      StemIsPiece(low);
      PinsAreOfDirs(low, Pieces(low), LastGui(low, Pieces(low), |Pieces(low)| - 1), e);
    }
  }

  lemma NamesSay(e: Event)
    requires e in EntriesEvents(SampleLows(), 3)
    ensures !e.Join? && (e.Occ? ==> e.at.InName?)
    ensures e.id.Stem? ==> e == NameStem(0) || e == NameStem(1) || e == NameStem(2)
  {
    var lows := SampleLows();
    ReferenceName();
    TextureName();
    PlainName();
    hide SampleLows, EntryEvents, Leaf, StemPiece, Pieces, HasExt, Extension, Lit;
    assert EntriesEvents(lows, 1) == EntriesEvents(lows, 0) + EntryEvents(lows[0], 0);
    assert EntriesEvents(lows, 2) == EntriesEvents(lows, 1) + EntryEvents(lows[1], 1);
    if e in EntryEvents(lows[0], 0) {
      EntrySays(lows[0], 0, e);
    } else if e in EntryEvents(lows[1], 1) {
      EntrySays(lows[1], 1, e);
    } else {
      EntrySays(lows[2], 2, e);
    }
  }

  lemma {:induction false} StemsSaid(lows: seq<Text>, n: nat, i: nat)
    requires i < n <= |lows|
    ensures Occ(StemId(lows[i]), At(StemPiece(lows[i]), i)) in EntriesEvents(lows, n)
  {
    hide EntryEvents, StemPiece, Pieces, StemId;
    if i < n - 1 {
      StemsSaid(lows, n - 1, i);
    } else {
      StemIsPiece(lows[i]);
      PieceIsSpelled(lows[i], i, StemPiece(lows[i]));
    }
  }

  // ---- the text's strings ----

  const EQUALS := 61
  const SPACE := 32

  /** Where the quotes and the equals sign are; there is no space and no other line. */
  predicate Shaped(t: Text) {
    && |t| == 18
    && forall k :: 0 <= k < 18 ==>
         && (t[k] == QUOTE <==> k == 0 || k == 7 || k == 12) && (t[k] == APOSTROPHE <==> k == 13 || k == 17)
         && (t[k] == EQUALS <==> k == 6) && t[k] != SPACE && t[k] != NEWLINE
  }

  lemma SampleShaped()
    ensures Shaped(SampleText())
  {
  }

  lemma ShapeKept(t: Text)
    requires SameButCase(SampleText(), t)
    ensures Shaped(t)
  {
    var s := SampleText();
    SampleShaped();
    hide SampleText;
    CaseKeepsByte(s, t, QUOTE);
    CaseKeepsByte(s, t, APOSTROPHE);
    CaseKeepsByte(s, t, EQUALS);
    CaseKeepsByte(s, t, SPACE);
    CaseKeepsByte(s, t, NEWLINE);
    hide SameButCase;
  }

  lemma {:induction false} QuoteRuns(t: Text, at: nat, end: nat, r: nat)
    requires at < end <= r <= |t| && r - at <= 256 && (r < |t| ==> t[r] == t[at])
    requires forall k :: end <= k < r ==> t[k] != t[at] && t[k] != NEWLINE
    ensures QuoteEnd(t, at, end) == r
    decreases r - end
  {
    if end < r {
      QuoteRuns(t, at, end + 1, r);
    }
  }

  lemma {:induction false} NoQuotes(t: Text, at: nat, end: nat)
    requires at <= end <= |t| && forall k :: at <= k < end ==> !IsQuote(t[k]) && t[k] != NEWLINE
    ensures TextTokens(t, at, 0) == TextTokens(t, end, 0)
    decreases end - at
  {
    hide TextTokens, QuoteEnd, Context;
    if at < end {
      TextStep(t, at, 0);
      NoQuotes(t, at + 1, end);
    }
  }

  function Attribute(t: Text): Text
    requires |t| == 18
  {
    Context(t[0..13])
  }

  /** The reference, and "Foo" with what its line has before it. */
  lemma StringsAre(t: Text)
    requires Shaped(t)
    ensures TextTokens(t, 0, 0) == [Token(1, 6, Context(t[0..0])), Token(14, 3, Attribute(t))]
  {
    QuoteRuns(t, 0, 1, 7);
    QuoteRuns(t, 12, 13, 18);
    QuoteRuns(t, 13, 14, 17);
    NoQuotes(t, 8, 12);
    TextStep(t, 0, 0);
    TextStep(t, 12, 0);
    TextStep(t, 13, 0);
    TextEnd(t, 0);
    hide TextTokens, QuoteEnd, Context, Shaped;
  }

  // ---- what they are values of ----

  lemma {:induction false} FindSkips(s: Text, part: Text, from: nat, p: nat)
    requires from <= p <= |s| && part != [] && forall k :: from <= k < p ==> !LeadAt(s, k, part)
    ensures FindText(s, part, from) == FindText(s, part, p)
    decreases p - from
  {
    if from < p {
      assert !LeadAt(s, from, part);
      FindSkips(s, part, from + 1, p);
    }
  }

  lemma LeadBytes()
    ensures Lit("data \"")[4] == SPACE && Lit("id=\"") == [105, 100, EQUALS, QUOTE] && Lit("Icon") == [73, 99, 111, 110]
  {
  }

  /** Without spaces there is no `data`. */
  lemma NoData(t: Text)
    requires Shaped(t)
    ensures ContextAfter(t[0..13], Lit("data \"")) == None
  {
    LeadBytes();
    hide Lit;
    var line, lead := t[0..13], Lit("data \"");
    forall k | 0 <= k < 13
      ensures !LeadAt(line, k, lead)
    {
      if k + 6 <= 13 {
        assert line[k..k + 6][4] == t[k + 4];
      }
    }
    FindSkips(line, lead, 0, 13);
  }

  /** The word is there if its letters are: before the equals sign. */
  lemma IdIs(t: Text)
    requires Shaped(t)
    ensures LeadAt(t[0..13], 4, Lit("id=\"")) <==> t[4] == 105 && t[5] == 100
    ensures forall k :: 0 <= k < 13 && k != 4 ==> !LeadAt(t[0..13], k, Lit("id=\""))
  {
    LeadBytes();
    hide Lit;
    var line, lead := t[0..13], Lit("id=\"");
    assert line[4..8] == [t[4], t[5], t[6], t[7]];
    forall k | 0 <= k < 13 && k != 4
      ensures !LeadAt(line, k, lead)
    {
      if k + 4 <= 13 {
        assert line[k..k + 4][2] == t[k + 2] != EQUALS;
      }
    }
  }

  lemma AttributeIs(t: Text)
    requires Shaped(t) && SameButCase(SampleText(), t)
    ensures IconAttribute(Attribute(t)) <==> t[4] == 105 && t[5] == 100
  {
    NoData(t);
    IdIs(t);
    var line, lead := t[0..13], Lit("id=\"");
    LeadBytes();
    IconThere(t);
    hide Lit, LeadAt, Shaped, SampleText, FindText;
    if t[4] == 105 && t[5] == 100 {
      FindSkips(line, lead, 0, 4);
      FindHere(line, lead, 4);
      FirstUnique(line, QUOTE, 8, 12);
      assert line[8..12] == t[8..12];
    } else {
      FindSkips(line, lead, 0, 13);
      FindNowhere(line, lead);
      assert Attribute(t) == [];
    }
  }

  lemma FindHere(s: Text, part: Text, p: nat)
    requires p <= |s| && LeadAt(s, p, part)
    ensures FindText(s, part, p) == p
  {
  }

  lemma FindNowhere(s: Text, part: Text)
    ensures FindText(s, part, |s|) == |s|
  {
  }

  lemma IconThere(t: Text)
    requires SameButCase(SampleText(), t)
    ensures |t| == 18 && SameButCase(t[8..12], Lit("Icon"))
  {
    assert SampleText()[8..12] == Lit("Icon");
    hide Lit;
    forall k | 0 <= k < 4
      ensures LowerByte(t[8..12][k]) == LowerByte(Lit("Icon")[k])
    {
      assert SampleText()[8..12][k] == SampleText()[8 + k];
    }
  }

  // ---- what they refer to ----

  function ReferenceEvents(): seq<Event> {
    [Occ(Dir(SampleLows()[0][..1]), InContent(0, 1, 1)), Occ(Stem(SampleLows()[0]), InContent(0, 3, 4))]
  }

  function IconName(): Event {
    Occ(StemId(SampleLows()[1]), InContent(0, 14, 3))
  }

  lemma OnlyFirst(lows: seq<Text>, key: Text)
    requires |lows| == 3 && lows[0] == key && lows[1] != key && lows[2] != key
    ensures FullOf(lows, key, 3) == [0]
  {
    assert FullOf(lows, key, 1) == [0];
    assert FullOf(lows, key, 2) == [0];
  }

  lemma ReferenceLinks(low: Text)
    requires |low| == 6 && Pieces(low) == [Piece(0, 1, Dir(low[..1])), Piece(2, 6, Stem(low))]
    ensures LinkEvents(Pieces(low), 0, 1, 0, 6) ==
      [Occ(Dir(low[..1]), InContent(0, 1, 1)), Occ(Stem(low), InContent(0, 3, 4))]
  {
    hide Pieces;
    var pieces := Pieces(low);
    assert pieces[..2] == pieces && pieces[..1] == [pieces[0]];
    assert LinkEvents(pieces[..0], 0, 1, 0, 6) == [];
    assert LinkEvents(pieces[..1], 0, 1, 0, 6) == [Occ(Dir(low[..1]), InContent(0, 1, 1))];
  }

  lemma ReferenceIsWord()
    ensures IsWord(SampleLows()[0])
  {
    var low := Lit("b/xid=");
    assert |low| == 6;
  }

  lemma ReferenceSays(attribute: Text)
    ensures TokenEvents(SampleLows(), SampleLows()[2], SampleLows()[0], 0, 1, attribute) == ReferenceEvents()
  {
    hide Pieces, Lit, IsWord, Extension, Leaf, HasExt, SampleLows, StemPiece, FullOf, LinkEvents, TailEntry;
    hide LooseEvents;
    var lows := SampleLows();
    ReferenceName();
    TextureBytes();
    PlainName();
    ReferenceIsWord();
    OnlyFirst(lows, lows[0]);
    ReferenceLinks(lows[0]);
  }

  lemma IconKeyIs()
    ensures var key := Lit("foo"); IsWord(key) && SLASH !in key && DOT !in key && |key| == 3
  {
    assert Lit("foo") == [102, 111, 111];
  }

  /** "Foo" is no entry's name, but an icon's if it is the value of an attribute of icons. */
  lemma IconSays(attribute: Text)
    ensures TokenEvents(SampleLows(), SampleLows()[2], Lit("foo"), 0, 14, attribute) ==
      if IconAttribute(attribute) then [Join(Lit("foo")), IconName()] else []
  {
    var lows, key := SampleLows(), Lit("foo");
    IconKeyIs();
    OneIcon();
    ReferenceName();
    TextureBytes();
    PlainName();
    hide Pieces, Lit, IsWord, Extension, Leaf, HasExt, SampleLows, StemPiece, IsIcon, IconKey, IconAttribute, StemId;
    assert FullOf(lows, key, 0) == [] && FullOf(lows, key, 1) == [];
    assert FullOf(lows, key, 2) == [] && FullOf(lows, key, 3) == [];
    assert IconsOf(lows, key, 0) == [] && IconsOf(lows, key, 1) == [];
    assert IconsOf(lows, key, 2) == [1] && IconsOf(lows, key, 3) == [1];
    hide FullOf, IconsOf;
  }

  // ---- the log, whatever the case of letters ----

  /** The archive, otherwise spelled. */
  predicate Like(z: Archive) {
    OnlyCase(Sample(), z)
  }

  lemma LikeIs(z: Archive)
    requires Like(z)
    ensures Lows(z.names) == SampleLows() && |z.contents| == 1 && !z.contents[0].lsf && z.contents[0].file == 2
    ensures SameButCase(SampleText(), z.contents[0].bytes) && Shaped(z.contents[0].bytes)
  {
    LowsAre();
    hide Lit, SampleLows, SampleText;
    SameLows(Sample(), z);
    assert Sample().contents[0].bytes == SampleText();
    hide Lows;
    ShapeKept(z.contents[0].bytes);
  }

  lemma TextKeys()
    ensures Lowered(SampleText()[1..7]) == SampleLows()[0] && Lowered(SampleText()[14..17]) == Lit("foo")
  {
    var t := SampleText();
    assert Lowered(t[1..7]) == Lit("b/xid=");
    assert Lowered(t[14..17]) == Lit("foo");
  }

  lemma KeysAre(content: Content)
    requires SameButCase(SampleText(), content.bytes) && |content.bytes| == 18
    ensures forall a :: Key(content, Token(1, 6, a)) == SampleLows()[0] && Key(content, Token(14, 3, a)) == Lit("foo")
  {
    TextKeys();
    hide SampleText, SampleLows, Lit, Lowered;
    var s, t := SampleText(), content.bytes;
    CaseIsFolded(s[1..7], t[1..7]);
    CaseIsFolded(s[14..17], t[14..17]);
  }

  /** Whether "Foo" is an icon's name depends on two letters of the reference before it. */
  predicate NamesIcon(z: Archive)
    requires |z.contents| == 1 && |z.contents[0].bytes| == 18
  {
    z.contents[0].bytes[4] == 105 && z.contents[0].bytes[5] == 100
  }

  function StringsSay(icon: bool): seq<Event> {
    ReferenceEvents() + (if icon then [Join(Lit("foo")), IconName()] else [])
  }

  lemma ContentSays(content: Content)
    requires content.file == 2 && !content.lsf && Shaped(content.bytes) && SameButCase(SampleText(), content.bytes)
    ensures ContentEvents(SampleLows(), content, 0, Tokens(content))
         == StringsSay(content.bytes[4] == 105 && content.bytes[5] == 100)
  {
    var lows, t := SampleLows(), content.bytes;
    StringsAre(t);
    KeysAre(content);
    AttributeIs(t);
    ReferenceSays(Context(t[0..0]));
    IconSays(Attribute(t));
    hide SampleLows, Lit, Lowered, TokenEvents, Key, ReferenceEvents, IconName, Context, IconAttribute, TextTokens;
    hide Attribute;
    hide Shaped, SampleText, SameButCase;
    var tokens := Tokens(content);
    assert tokens[..1] == [tokens[0]] && tokens[..0] == [];
    assert StringEvents(lows, content, 0, tokens[0]) == ReferenceEvents();
    hide StringEvents;
    assert ContentEvents(lows, content, 0, tokens[..0]) == [];
    assert ContentEvents(lows, content, 0, tokens[..1]) == ReferenceEvents();
  }

  lemma LogIs(z: Archive)
    requires Like(z)
    ensures |z.contents| == 1 && |z.contents[0].bytes| == 18
    ensures Log(z) == EntriesEvents(SampleLows(), 3) + StringsSay(NamesIcon(z))
  {
    hide SampleLows, SampleText, Lows, EntriesEvents, StringsSay, ContentEvents, SameButCase, Like;
    LikeIs(z);
    ContentSays(z.contents[0]);
    assert ContentsEvents(SampleLows(), z.contents, 0) == [];
  }

  // ---- the two groups ----

  function Reference(): Event {
    Occ(Stem(SampleLows()[0]), InContent(0, 3, 4))
  }

  lemma StemsAre()
    ensures NameStem(0) == Occ(Reference().id, InName(0, 2, 4)) && NameStem(1) == Occ(IconName().id, InName(1, 28, 3))
    ensures NameStem(2).id != Reference().id && NameStem(2).id != IconName().id && Reference().id != IconName().id
  {
    ReferenceName();
    TextureBytes();
    TextureName();
    PlainName();
    hide Lit, StemPiece, HasExt, Leaf, Extension, AfterLast, Pieces;
    assert |SampleLows()[0]| == 6;
    StemIds(SampleLows()[0]);
    StemIds(SampleLows()[1]);
    StemIds(SampleLows()[2]);
    hide SampleLows, StemId;
  }

  lemma StemIds(low: Text)
    ensures StemId(low) == StemPiece(low).id
  {
  }

  /** What there is of the two groups: a name's part each, the reference, and the icon's name if it is one. */
  predicate Says(e: Event, icon: bool) {
    if e.Join? then icon
    else
      && (e.id == Reference().id ==> e == NameStem(0) || e == Reference())
      && (e.id == IconName().id ==> e == NameStem(1) || (icon && e == IconName()))
      && (e.Occ? && e.at.InContent? && !icon ==> e.at.pos + e.at.len <= 7)
  }

  lemma LogSays(z: Archive, e: Event)
    requires Like(z) && e in Log(z)
    ensures |z.contents| == 1 && |z.contents[0].bytes| == 18 && Says(e, NamesIcon(z))
  {
    LogIs(z);
    hide Like, Log, EntriesEvents, SampleLows, Says, StringsSay, NamesIcon;
    if e in EntriesEvents(SampleLows(), 3) {
      NameSays(e, NamesIcon(z));
    } else {
      StringSays(e, NamesIcon(z));
    }
  }

  lemma NameSays(e: Event, icon: bool)
    requires e in EntriesEvents(SampleLows(), 3)
    ensures Says(e, icon)
  {
    StemsAre();
    hide EntriesEvents, SampleLows, StemEnd, NameStem;
    NamesSay(e);
  }

  lemma StringSays(e: Event, icon: bool)
    requires e in StringsSay(icon)
    ensures Says(e, icon)
  {
    StemsAre();
    hide SampleLows, StemEnd, NameStem;
    assert e == ReferenceEvents()[0] || e == Reference() || (icon && (e == Join(Lit("foo")) || e == IconName()));
  }

  lemma LogHas(z: Archive)
    requires Like(z)
    ensures NameStem(0) in Log(z) && NameStem(1) in Log(z) && Reference() in Log(z)
    ensures |z.contents| == 1 && |z.contents[0].bytes| == 18 && (NamesIcon(z) ==> IconName() in Log(z))
  {
    hide Like, Log, EntriesEvents, SampleLows, StemId, StemPiece;
    LogIs(z);
    StemsSaid(SampleLows(), 3, 0);
    StemsSaid(SampleLows(), 3, 1);
    var said := StringsSay(NamesIcon(z));
    assert said[1] == Reference();
    if NamesIcon(z) {
      assert said[3] == IconName();
    }
  }

  /** The one icon's stem is in a group of its own, and so is everything else. */
  lemma SameIsEqual(z: Archive, a: Id, b: Id)
    requires Like(z) && Same(Lows(z.names), Log(z), a, b)
    ensures a == b
  {
    LikeIs(z);
    hide Log, Lows, IconStems, Like, SampleLows;
    if a != b {
      var key :| Join(key) in Log(z) && a in IconStems(Lows(z.names), key) && b in IconStems(Lows(z.names), key);
      OneStem(key, a);
      OneStem(key, b);
    }
  }

  lemma OneStem(key: Text, a: Id)
    requires a in IconStems(SampleLows(), key)
    ensures a == StemId(SampleLows()[1])
  {
    OneIcon();
    hide SampleLows, IsIcon, IconKey, StemId;
    var lows := SampleLows();
    var i :| i in IconsOf(lows, key, |lows|) && i < |lows| && a == StemId(lows[i]);
    InIconsOf(lows, key, |lows|, i);
  }

  lemma InReferenceGroup(z: Archive, f: Event)
    requires Like(z) && f in Log(z) && !f.Join? && Same(Lows(z.names), Log(z), f.id, Reference().id)
    ensures f == NameStem(0) || f == Reference()
  {
    hide Log, Lows, Same, Like, NameStem, NamesIcon, SampleLows, StemEnd;
    SameIsEqual(z, f.id, Reference().id);
    LogSays(z, f);
  }

  lemma InIconGroup(z: Archive, f: Event)
    requires Like(z) && f in Log(z) && !f.Join? && Same(Lows(z.names), Log(z), f.id, IconName().id)
    ensures |z.contents| == 1 && |z.contents[0].bytes| == 18
    ensures f == NameStem(1) || (NamesIcon(z) && f == IconName())
  {
    hide Log, Lows, Same, Like, NameStem, NamesIcon, SampleLows, StemEnd;
    SameIsEqual(z, f.id, IconName().id);
    LogSays(z, f);
  }

  lemma ReferenceGroup(z: Archive)
    requires Like(z)
    ensures OnlyThese(z, NameStem(0), Reference())
  {
    hide Log, Lows, Same, Like, NameStem, SampleLows, NamesIcon;
    StemsAre();
    LogHas(z);
    forall f | f in Log(z) && !f.Join? && Same(Lows(z.names), Log(z), f.id, NameStem(0).id)
      ensures f.Occ? && (f.at == NameStem(0).at || f.at == Reference().at)
    {
      InReferenceGroup(z, f);
    }
  }

  lemma IconGroup(z: Archive)
    requires Like(z)
    ensures |z.contents| == 1 && |z.contents[0].bytes| == 18
    ensures NamesIcon(z) ==> OnlyThese(z, NameStem(1), IconName())
    ensures !NamesIcon(z) ==> Goal(z, NameStem(1)) == Spelled(z, InName(1, 28, 3))
  {
    hide Log, Lows, Same, Like, NameStem, SampleLows, NamesIcon, Goal, Spelled, StemEnd;
    StemsAre();
    LogHas(z);
    forall f | f in Log(z) && !f.Join? && Same(Lows(z.names), Log(z), f.id, NameStem(1).id)
      ensures f.Occ? && (f.at == NameStem(1).at || (NamesIcon(z) && f.at == IconName().at))
    {
      InIconGroup(z, f);
    }
    if !NamesIcon(z) {
      OneSpellingStays(z, NameStem(1));
    }
  }

  // ---- the two runs ----

  lemma SampleSpells()
    ensures var x := Sample();
      && Like(x) && !NamesIcon(x)
      && Spelled(x, InName(0, 2, 4)) == Lit("xid=") && Spelled(x, InContent(0, 3, 4)) == Lit("xID=")
      && Spelled(x, InName(1, 28, 3)) == Lit("foo")
  {
    var x := Sample();
    assert x.names[0][2..6] == Lit("xid=");
    assert x.contents[0].bytes[3..7] == Lit("xID=");
    assert Lit("foo.DDS")[..3] == Lit("foo");
    hide Lit;
    assert x.names[1][28..31] == Lit("foo.DDS")[..3];
  }

  lemma SampleIsSound()
    ensures Sound(Sample()) && AllStringsApart(Sample())
  {
    assert NoBackslash(Lit("b/xid=")) && NoBackslash(Lit("a.txt"));
    assert NoBackslash(Lit("p/GUI/Assets")) && NoBackslash(Lit("/Tooltips/Icons/")) && NoBackslash(Lit("foo.DDS"));
    hide Lit;
  }

  lemma Words()
    ensures |Lit("xid=")| == 4 && Lit("xid=")[1] == 105 && Lit("xid=")[2] == 100
    ensures Lit("xid=") != Lit("xID=") && SameButCase(Lit("xid="), Lit("xID="))
    ensures forall k :: 0 <= k < 4 ==> LowerByte(Lit("xid=")[k]) == Lit("xid=")[k]
    ensures Lit("foo") == [102, 111, 111] && Lit("Foo") == [70, 111, 111]
  {
    assert Lit("xid=")[1] != Lit("xID=")[1];
  }

  lemma ReferenceRespelled(x': Archive)
    requires Unified(Sample(), x')
    ensures Spelled(x', InContent(0, 3, 4)) == Lit("xid=")
  {
    hide Log, Lows, Same, NameStem, Goal, Sample, Lit, OnlyThese, Spelled, Like, SampleLows, StemEnd;
    var x := Sample();
    SampleSpells();
    ReferenceGroup(x);
    StemsAre();
    Words();
    LogHas(x);
    LowerDecides(x, NameStem(0), Reference());
  }

  lemma TextureStays(x': Archive)
    requires Unified(Sample(), x')
    ensures Spelled(x', InName(1, 28, 3)) == Lit("foo")
  {
    var x := Sample();
    SampleSpells();
    IconGroup(x);
    StemsAre();
    LogHas(x);
    hide Log, Lows, NameStem, Reference, IconName, Goal, Sample, Lit, Spelled, Like, NamesIcon;
  }

  lemma LetterStays(x': Archive, k: nat)
    requires Unified(Sample(), x') && Like(x') && 14 <= k < 17
    ensures |x'.contents| == 1 && |x'.contents[0].bytes| == 18 && |Sample().contents[0].bytes| == 18
    ensures x'.contents[0].bytes[k] == Sample().contents[0].bytes[k]
  {
    hide Log, Sample, Goal, Lows, SampleLows, SampleText, Lit;
    SampleSpells();
    LikeIs(Sample());
    LikeIs(x');
    Untouched(k);
    var x, o := Sample(), ContentCell(0, k);
    hide Like;
    assert InRange(x, o);
    assert Spelled(x', o) == Spelled(x, o);
    assert Spelled(x, o)[0] == x.contents[0].bytes[k] && Spelled(x', o)[0] == x'.contents[0].bytes[k];
  }

  lemma WordStays(x': Archive)
    requires Unified(Sample(), x') && Like(x')
    ensures |x'.contents| == 1 && |x'.contents[0].bytes| == 18 && Spelled(x', InContent(0, 14, 3)) == Lit("Foo")
  {
    SampleWord();
    hide Sample, Lit, Unified, Like;
    LetterStays(x', 14);
    LetterStays(x', 15);
    LetterStays(x', 16);
  }

  lemma SampleWord()
    ensures var b := Sample().contents[0].bytes; |b| == 18 && [b[14], b[15], b[16]] == Lit("Foo")
  {
  }

  /** The first run gives the reference the letters of an attribute's name, and leaves "Foo". */
  lemma FirstRun(x': Archive)
    requires Unified(Sample(), x')
    ensures Like(x') && |x'.contents| == 1 && |x'.contents[0].bytes| == 18 && NamesIcon(x')
    ensures Spelled(x', InContent(0, 14, 3)) == Lit("Foo") && Spelled(x', InName(1, 28, 3)) == Lit("foo")
  {
    SampleIsSound();
    Words();
    hide Sample, Lit, Sound, Unified;
    OnlyCaseChanges(Sample(), x');
    WordStays(x');
    ReferenceRespelled(x');
    TextureStays(x');
    assert x'.contents[0].bytes[3..7][1] == x'.contents[0].bytes[4];
    assert x'.contents[0].bytes[3..7][2] == x'.contents[0].bytes[5];
  }

  lemma Untouched(k: nat)
    requires 14 <= k < 17
    ensures Outside(Log(Sample()), ContentCell(0, k))
  {
    var x := Sample();
    SampleSpells();
    hide Log, Sample, Like, Lit, NamesIcon, Reference, IconName, NameStem;
    forall e | e in Log(x)
      ensures !Covers(e, ContentCell(0, k))
    {
      LogSays(x, e);
    }
  }

  /** What the second run makes of a text like that: the icon's name, spelled as its texture. */
  lemma SecondGoal(x': Archive)
    requires Unified(Sample(), x')
    ensures IconName() in Log(x') && Spelled(x', IconName().at) == Lit("Foo") && Goal(x', IconName()) == Lit("foo")
  {
    FirstRun(x');
    hide Log, Lows, Sample, Lit, Goal, Like, Unified, NamesIcon;
    IconGroup(x');
    IconFollows(x');
  }

  lemma IconFollows(x': Archive)
    requires OnlyThese(x', NameStem(1), IconName())
    requires Spelled(x', InContent(0, 14, 3)) == Lit("Foo") && Spelled(x', InName(1, 28, 3)) == Lit("foo")
    ensures IconName() in Log(x') && Spelled(x', IconName().at) == Lit("Foo") && Goal(x', IconName()) == Lit("foo")
  {
    hide Log, Lows, Lit, Goal, Same, Spelled, SampleLows, StemPiece;
    assert IconName() in Log(x');
    StemsAre();
    Words();
    hide OnlyThese, NameStem, StemEnd;
    LowerDecides(x', NameStem(1), IconName());
  }

  /**
   Every unified spelling of the archive is one that another run changes: it has
   its own, in which "Foo" is spelled as the texture that it has come to name.
  */
  lemma SecondRunDiffers(x': Archive)
    requires Unified(Sample(), x')
    ensures !SameTokens(Sample(), x') && !Unified(x', x')
    ensures exists x'' :: Unified(x', x'')
    ensures Spelled(x', IconName().at) == Lit("Foo")
    ensures forall x'' :: Unified(x', x'') ==> Spelled(x'', IconName().at) == Lit("foo")
  {
    SampleIsSound();
    SecondGoal(x');
    Words();
    StillSound(x');
    hide Sample, Sound, Log, Goal, Lit, SameTokens, IconName;
    ApartAgree(x');
    UnifiedIffAgree(x');
    if SameTokens(Sample(), x') {
      UnifiedStays(Sample(), x');
    }
  }

  lemma StillSound(x': Archive)
    requires Unified(Sample(), x')
    ensures Sound(x') && AllStringsApart(x')
  {
    hide Unified, Lit, Shaped, NamesIcon, SampleText, SampleLows, Lows;
    var x := Sample();
    SampleIsSound();
    FirstRun(x');
    LikeIs(x');
    assert |x.names| == 3;
    hide Sample;
    forall i | 0 <= i < |x'.names|
      ensures NoBackslash(x'.names[i])
    {
      CaseKeepsByte(x.names[i], x'.names[i], BACKSLASH);
    }
  }

  /** And it has one. */
  lemma SampleUnifies()
    ensures Sound(Sample()) && exists x' :: Unified(Sample(), x')
  {
    SampleIsSound();
    hide Sample, Sound, Unified;
    ApartAgree(Sample());
    UnifiedIffAgree(Sample());
  }
}
