/**
 What the case fixer finds in a whole archive (src/pak_fix.cpp): the strings of
 every file, what they refer to, and that all of it hangs together. Every
 occurrence spells its id, and occurrences do not overlap.
*/
module Scanning {
  import opened BitStrings
  import opened References
  import opened Spelling
  import opened Wrappers

  const NEWLINE: byte := 10
  const QUOTE: byte := 34
  const APOSTROPHE: byte := 39

  /**
   A scanned file: which entry it is, and its text or, of an LSF file, its
   values and where the strings are in them.
  */
  datatype Content = Content(file: nat, lsf: bool, bytes: Text, strings: seq<Token>, changed: bool)

  datatype Archive = Archive(names: seq<Text>, contents: seq<Content>)

  // ---- the strings of a text ----

  /** Where a quoted string may end: its quote, the line's end, or 256 bytes on. */
  function QuoteEnd(text: Text, at: nat, end: nat): (r: nat)
    requires at < end <= |text|
    ensures end <= r <= |text|
    decreases |text| - end
  {
    if end < |text| && text[end] != text[at] && text[end] != NEWLINE && end - at <= 256
    then QuoteEnd(text, at, end + 1)
    else end
  }

  predicate IsQuote(c: byte) {
    c == QUOTE || c == APOSTROPHE
  }

  function ContextAfter(line: Text, lead: Text): Option<Text>
    requires lead != []
  {
    var p := FindText(line, lead, 0);
    if p + |lead| > |line| then None
    else
      var to := FirstFrom(line, QUOTE, p + |lead|);
      if to < |line| then Some(line[p + |lead|..to]) else None
  }

  /** The attribute or stats field a line's string belongs to. */
  function Context(line: Text): Text {
    var data := ContextAfter(line, Lit("data \""));
    if data.Some? then data.value
    else
      var id := ContextAfter(line, Lit("id=\""));
      if id.Some? then id.value else []
  }

  function TextTokens(text: Text, at: nat, lineStart: nat): seq<Token>
    requires lineStart <= at <= |text|
    decreases |text| - at
  {
    if at == |text| then []
    else if text[at] == NEWLINE then TextTokens(text, at + 1, at + 1)
    else if !IsQuote(text[at]) then TextTokens(text, at + 1, lineStart)
    else
      var end := QuoteEnd(text, at, at + 1);
      if end == |text| || text[end] != text[at] then TextTokens(text, at + 1, lineStart)
      else [Token(at + 1, end - at - 1, Context(text[lineStart..at]))] + TextTokens(text, end + 1, lineStart)
  }

  lemma TextStep(text: Text, at: nat, lineStart: nat)
    requires lineStart <= at < |text|
    ensures TextTokens(text, at, lineStart) ==
      if text[at] == NEWLINE then TextTokens(text, at + 1, at + 1)
      else if !IsQuote(text[at]) then TextTokens(text, at + 1, lineStart)
      else
        var end := QuoteEnd(text, at, at + 1);
        if end == |text| || text[end] != text[at] then TextTokens(text, at + 1, lineStart)
        else [Token(at + 1, end - at - 1, Context(text[lineStart..at]))] + TextTokens(text, end + 1, lineStart)
  {
  }

  lemma TextEnd(text: Text, lineStart: nat)
    requires lineStart <= |text|
    ensures TextTokens(text, |text|, lineStart) == []
  {
  }

  function Tokens(content: Content): seq<Token> {
    if content.lsf then content.strings else TextTokens(content.bytes, 0, 0)
  }

  // ---- the whole archive ----

  function Lows(names: seq<Text>): (r: seq<Text>)
    ensures |r| == |names| && forall i :: 0 <= i < |names| ==> r[i] == Lowered(names[i])
  {
    seq(|names|, i requires 0 <= i < |names| => Lowered(names[i]))
  }

  function FileOf(lows: seq<Text>, content: Content): Text {
    if content.file < |lows| then lows[content.file] else []
  }

  function Key(content: Content, t: Token): Text {
    if t.pos + t.len <= |content.bytes| then Lowered(content.bytes[t.pos..t.pos + t.len]) else []
  }

  function StringEvents(lows: seq<Text>, content: Content, c: nat, t: Token): seq<Event> {
    TokenEvents(lows, FileOf(lows, content), Key(content, t), c, t.pos, t.attribute)
  }

  function ContentEvents(lows: seq<Text>, content: Content, c: nat, tokens: seq<Token>): seq<Event> {
    if tokens == [] then []
    else
      var n := |tokens| - 1;
      ContentEvents(lows, content, c, tokens[..n]) + StringEvents(lows, content, c, tokens[n])
  }

  function ContentsEvents(lows: seq<Text>, contents: seq<Content>, n: nat): seq<Event>
    requires n <= |contents|
  {
    if n == 0 then []
    else
      var last := ContentEvents(lows, contents[n - 1], n - 1, Tokens(contents[n - 1]));
      ContentsEvents(lows, contents, n - 1) + last
  }

  /** Everything the fixer finds, in the order it finds it. */
  function Log(x: Archive): seq<Event> {
    var lows := Lows(x.names);
    EntriesEvents(lows, |lows|) + ContentsEvents(lows, x.contents, |x.contents|)
  }

  // ---- where an occurrence is, and what it spells ----

  predicate InRange(x: Archive, o: Occurrence) {
    match o
    case InName(i, pos, len) => i < |x.names| && pos + len <= |x.names[i]|
    case InContent(c, pos, len) => c < |x.contents| && pos + len <= |x.contents[c].bytes|
  }

  function Spelled(x: Archive, o: Occurrence): Text {
    if !InRange(x, o) then []
    else if o.InName? then x.names[o.index][o.pos..o.pos + o.len]
    else x.contents[o.content].bytes[o.pos..o.pos + o.len]
  }

  predicate Clear(pos: nat, len: nat, pos': nat, len': nat) {
    pos + len <= pos' || pos' + len' <= pos
  }

  /** Occurrences with no byte in common. */
  predicate Apart(o: Occurrence, p: Occurrence) {
    match o
    case InName(i, pos, len) => !p.InName? || p.index != i || Clear(pos, len, p.pos, p.len)
    case InContent(c, pos, len) => !p.InContent? || p.content != c || Clear(pos, len, p.pos, p.len)
  }

  predicate Compatible(e: Event, f: Event) {
    e.Occ? && f.Occ? ==> (e == f || Apart(e.at, f.at))
  }

  predicate AllCompatible(log: seq<Event>) {
    forall e, f :: e in log && f in log ==> Compatible(e, f)
  }

  /** What an event says is so: its range spells its id, once folded. */
  predicate EventOk(x: Archive, e: Event) {
    match e
    case Occ(id, at) => InRange(x, at) && Lowered(Spelled(x, at)) == IdSpelling(id) && SLASH !in IdSpelling(id)
    case Own(id, at) => InRange(x, at) && Lowered(Spelled(x, at)) == IdSpelling(id)
    case Fixed(id, text) => Lowered(text) == IdSpelling(id)
    case Join(_) => true
  }

  predicate StringsFit(bytes: Text, strings: seq<Token>) {
    forall i :: 0 <= i < |strings| ==> strings[i].pos + strings[i].len <= |bytes|
  }

  predicate StringsApart(strings: seq<Token>) {
    forall i, j :: 0 <= i < j < |strings| ==>
      || (strings[i].pos == strings[j].pos && strings[i].len == strings[j].len)
      || Clear(strings[i].pos, strings[i].len, strings[j].pos, strings[j].len)
  }

  /** Names have no backslash, and every file is an entry whose strings lie within it. */
  predicate Sound(x: Archive) {
    && (forall i :: 0 <= i < |x.names| ==> NoBackslash(x.names[i]))
    && (forall c :: 0 <= c < |x.contents| ==> ContentSound(x, x.contents[c]))
  }

  predicate ContentSound(x: Archive, content: Content) {
    content.file < |x.names| && (content.lsf ==> StringsFit(content.bytes, content.strings))
  }

  /** Two strings of an LSF file are one range or have no byte in common. */
  predicate AllStringsApart(x: Archive) {
    forall c :: 0 <= c < |x.contents| && x.contents[c].lsf ==> StringsApart(x.contents[c].strings)
  }

  // ---- entries ----

  predicate NameEventOk(name: Text, i: nat, e: Event) {
    match e
    case Occ(id, at) =>
      && at.InName? && at.index == i && at.pos + at.len <= |name|
      && Lowered(name)[at.pos..at.pos + at.len] == IdSpelling(id) && SLASH !in IdSpelling(id)
    case Own(id, at) =>
      && at.InName? && at.index == i && at.pos + at.len <= |name|
      && Lowered(name)[at.pos..at.pos + at.len] == IdSpelling(id)
    case Fixed(id, text) => Lowered(text) == IdSpelling(id)
    case Join(_) => false
  }

  lemma PieceEventOk(name: Text, i: nat, p: Piece)
    requires PieceOk(Lowered(name), p)
    ensures NameEventOk(name, i, Occ(p.id, At(p, i))) && NameEventOk(name, i, Own(p.id, At(p, i)))
    ensures p.begin <= p.end
  {
  }

  lemma PieceEventsOk(name: Text, i: nat)
    ensures forall e :: e in PieceEvents(Pieces(Lowered(name)), i) ==> e.Occ? && NameEventOk(name, i, e)
    ensures AllCompatible(PieceEvents(Pieces(Lowered(name)), i))
  {
    var pieces := Pieces(Lowered(name));
    PiecesOk(Lowered(name));
    hide Pieces, NameEventOk, PieceOk, IdSpelling;
    forall k | 0 <= k < |pieces|
      ensures NameEventOk(name, i, Occ(pieces[k].id, At(pieces[k], i))) && pieces[k].begin <= pieces[k].end
    {
      PieceEventOk(name, i, pieces[k]);
    }
    hide Lowered;
    var events := PieceEvents(pieces, i);
    forall e, f | e in events && f in events
      ensures Compatible(e, f)
    {
      var j: nat :| j < |pieces| && e == Occ(pieces[j].id, At(pieces[j], i));
      var k: nat :| k < |pieces| && f == Occ(pieces[k].id, At(pieces[k], i));
      PiecesApart(pieces, i, j, k);
    }
  }

  lemma PiecesApart(pieces: seq<Piece>, i: nat, j: nat, k: nat)
    requires Ordered(pieces) && j < |pieces| && k < |pieces|
    requires pieces[j].begin <= pieces[j].end && pieces[k].begin <= pieces[k].end
    ensures j == k || Apart(At(pieces[j], i), At(pieces[k], i))
  {
  }

  predicate FoldsTo(a: Text, b: Text) {
    Lowered(a) == b
  }

  lemma FoldedSlice(low: Text, i: nat)
    requires i <= |low| && Lowered(low) == low
    ensures Lowered(low[i..]) == low[i..]
  {
    LoweredSlice(low, i, |low|);
    assert low[i..] == low[i..|low|];
  }

  lemma LeafDot(low: Text)
    requires HasExt(low)
    ensures Leaf(low)[AfterLast(Leaf(low), DOT)..] == low[AfterLast(low, DOT)..] && AfterLast(Leaf(low), DOT) > 1
  {
    var a, d := AfterLast(low, SLASH), AfterLast(low, DOT);
    assert d > a + 1;
    hide AfterLast;
    AfterLastUnique(Leaf(low), DOT, d - a);
    assert low[a..][d - a..] == low[d..];
  }

  /** A texture's extension spells "dds". */
  lemma TextureExt(low: Text)
    requires HasExt(low) && Extension(low) == Lit("dds") && Lowered(low) == low
    ensures IdSpelling(ExtId(low)) == Lit("dds")
  {
    LeafDot(low);
    hide HasExt, Leaf, AfterLast;
    FoldedSlice(low, AfterLast(low, DOT));
  }

  lemma FoldedLiterals()
    ensures FoldsTo(Lit("DDS"), Lit("dds")) && FoldsTo(Lit("GUI"), Lit("gui")) && FoldsTo(Lit("Assets"), Lit("assets"))
  {
  }

  lemma FoldedAssets()
    ensures FoldsTo(Lit("AssetsLowRes"), Lit("assetslowres")) && FoldsTo(Lit("Tooltips"), Lit("tooltips"))
  {
  }

  lemma FoldedIcons()
    ensures FoldsTo(Lit("Icons"), Lit("icons")) && FoldsTo(Lit("ItemIcons"), Lit("itemicons"))
    ensures FoldsTo(Lit("items_png"), Lit("items_png"))
  {
  }

  lemma FoldedController()
    ensures FoldsTo(Lit("ControllerUIIcons"), Lit("controlleruiicons"))
  {
  }

  lemma FoldedSkills()
    ensures FoldsTo(Lit("skills_png"), Lit("skills_png"))
  {
  }

  lemma CanonicalFolds()
    ensures forall k :: k in Canonical() ==> FoldsTo(Canonical()[k], k)
  {
    FoldedLiterals();
    FoldedAssets();
    FoldedIcons();
    FoldedController();
    FoldedSkills();
    hide FoldsTo, Lit;
  }

  lemma {:induction false} CanonicalPinsOk(name: Text, i: nat, pieces: seq<Piece>, k: nat)
    requires AllOk(Lowered(name), pieces) && k <= |pieces|
    ensures forall e :: e in CanonicalPins(Lowered(name), pieces, k) ==> e.Fixed? && NameEventOk(name, i, e)
    decreases |pieces| - k
  {
    CanonicalFolds();
    hide Canonical, IdSpelling;
    if k < |pieces| && pieces[k].id.Dir? {
      CanonicalPinsOk(name, i, pieces, k + 1);
      assert PieceOk(Lowered(name), pieces[k]);
    }
  }

  lemma GuiIsBeforeEnd(low: Text)
    ensures |Pieces(low)| > 0
  {
  }

  lemma StemPinOk(name: Text, i: nat)
    ensures NameEventOk(name, i, Own(StemId(Lowered(name)), At(StemPiece(Lowered(name)), i)))
  {
    hide NameEventOk, IdSpelling, HasExt;
    StemOk(Lowered(name));
    PieceEventOk(name, i, StemPiece(Lowered(name)));
  }

  lemma ExtPinOk(name: Text, i: nat)
    requires HasExt(Lowered(name))
    ensures NameEventOk(name, i, Own(ExtId(Lowered(name)), At(ExtPiece(Lowered(name)), i)))
  {
    hide NameEventOk, IdSpelling;
    ExtOk(Lowered(name));
    PieceEventOk(name, i, ExtPiece(Lowered(name)));
  }

  lemma NamePinsOk(name: Text, i: nat)
    ensures forall e :: e in NamePins(Lowered(name), i) ==> e.Own? && NameEventOk(name, i, e)
  {
    var low := Lowered(name);
    hide FixedNames, NameEventOk, IdSpelling, StemPiece, ExtPiece, At, StemId, ExtId, HasExt;
    StemPinOk(name, i);
    if HasExt(low) {
      ExtPinOk(name, i);
    }
  }

  lemma TexturePinsOk(name: Text, i: nat)
    ensures forall e :: e in TexturePins(Lowered(name)) ==> e.Fixed? && NameEventOk(name, i, e)
  {
    var low := Lowered(name);
    hide IconDirectory, NameEventOk, Pieces, LastGui, CanonicalPins, IdSpelling, Lit, HasExt, Extension, Contains;
    if IsTexture(low) {
      LoweredTwice(name);
      TextureExt(low);
      FoldedLiterals();
      FixedOk(name, i, ExtId(low), Lit("DDS"));
      PiecesOk(low);
      var pieces := Pieces(low);
      assert |pieces| > 0 by { GuiIsBeforeEnd(low); }
      CanonicalPinsOk(name, i, pieces, LastGui(low, pieces, |pieces| - 1));
    }
  }

  lemma FixedOk(name: Text, i: nat, id: Id, text: Text)
    requires Lowered(text) == IdSpelling(id)
    ensures NameEventOk(name, i, Fixed(id, text))
  {
  }

  lemma EntryEventsOk(name: Text, i: nat)
    ensures forall e :: e in EntryEvents(Lowered(name), i) ==> NameEventOk(name, i, e)
    ensures AllCompatible(EntryEvents(Lowered(name), i))
  {
    hide NameEventOk, PieceEvents, NamePins, TexturePins, Apart;
    PieceEventsOk(name, i);
    NamePinsOk(name, i);
    TexturePinsOk(name, i);
  }

  /** An event of one of the first `n` names, about that name. */
  ghost predicate OfEntry(names: seq<Text>, n: nat, e: Event) {
    exists i: nat :: i < n && i < |names| && NameEventOk(names[i], i, e)
  }

  lemma OtherEntries(name: Text, i: nat, e: Event, names: seq<Text>, n: nat, f: Event)
    requires NameEventOk(name, i, e) && OfEntry(names, n, f) && n <= i
    ensures Compatible(e, f) && Compatible(f, e)
  {
  }

  lemma {:induction false} EntriesEventsOk(names: seq<Text>, n: nat)
    requires n <= |names|
    ensures forall e :: e in EntriesEvents(Lows(names), n) ==> OfEntry(names, n, e)
    ensures AllCompatible(EntriesEvents(Lows(names), n))
  {
    hide NameEventOk, EntryEvents, Compatible;
    if n > 0 {
      EntriesEventsOk(names, n - 1);
      EntryEventsOk(names[n - 1], n - 1);
      var before := EntriesEvents(Lows(names), n - 1);
      var here := EntryEvents(Lowered(names[n - 1]), n - 1);
      forall e, f | e in here && f in before
        ensures Compatible(e, f) && Compatible(f, e)
      {
        OtherEntries(names[n - 1], n - 1, e, names, n - 1, f);
      }
      assert forall e :: e in before ==> OfEntry(names, n, e);
      JoinCompatible(before, here);
    }
  }

  lemma JoinCompatible(a: seq<Event>, b: seq<Event>)
    requires AllCompatible(a) && AllCompatible(b)
    requires forall e, f :: e in b && f in a ==> Compatible(e, f) && Compatible(f, e)
    ensures AllCompatible(a + b)
  {
    hide Compatible;
  }

  // ---- strings ----

  /** An event of a string at `[pos, pos + len)` of a file's bytes: within it, and spelling its id. */
  predicate StringEventOk(bytes: Text, c: nat, pos: nat, len: nat, e: Event) {
    match e
    case Occ(id, at) =>
      && at.InContent? && at.content == c
      && pos <= at.pos && at.pos + at.len <= pos + len <= |bytes|
      && Lowered(bytes)[at.pos..at.pos + at.len] == IdSpelling(id) && SLASH !in IdSpelling(id)
    case Join(_) => true
    case _ => false
  }

  lemma LinkedPiece(low: Text, p: Piece, bytes: Text, c: nat, pos: nat, begin: nat, end: nat)
    requires PieceOk(low, p) && begin <= p.begin && p.end <= end <= |low| && pos + (end - begin) <= |bytes|
    requires Lowered(bytes)[pos..pos + (end - begin)] == low[begin..end]
    ensures StringEventOk(bytes, c, pos, end - begin, Occ(p.id, InContent(c, pos + (p.begin - begin), p.end - p.begin)))
  {
    hide IdSpelling;
    var word := Lowered(bytes)[pos..pos + (end - begin)];
    assert word[p.begin - begin..p.end - begin] == Lowered(bytes)[pos + (p.begin - begin)..pos + (p.end - begin)];
    assert low[begin..end][p.begin - begin..p.end - begin] == low[p.begin..p.end];
  }

  /** The parts of a string spell what the parts of the entry do, and lie where they do. */
  lemma {:induction false} LinkEventsOk(low: Text, pieces: seq<Piece>, bytes: Text, c: nat, pos: nat, begin: nat,
                                        end: nat)
    requires AllOk(low, pieces) && begin <= end <= |low| && pos + (end - begin) <= |bytes|
    requires Lowered(bytes)[pos..pos + (end - begin)] == low[begin..end]
    ensures forall e :: e in LinkEvents(pieces, c, pos, begin, end) ==>
      e.Occ? && StringEventOk(bytes, c, pos, end - begin, e)
  {
    hide StringEventOk, PieceOk;
    if pieces != [] {
      var p := pieces[|pieces| - 1];
      LinkEventsOk(low, pieces[..|pieces| - 1], bytes, c, pos, begin, end);
      assert PieceOk(low, p);
      if begin <= p.begin <= p.end <= end {
        LinkedPiece(low, p, bytes, c, pos, begin, end);
      }
    }
  }

  /** An event of a link comes from a part. */
  lemma {:induction false} LinkFrom(pieces: seq<Piece>, c: nat, pos: nat, begin: nat, end: nat, e: Event)
      returns (k: nat)
    requires e in LinkEvents(pieces, c, pos, begin, end)
    ensures k < |pieces| && begin <= pieces[k].begin <= pieces[k].end <= end
    ensures var p := pieces[k];
      e == Occ(p.id, InContent(c, pos + (p.begin - begin), p.end - p.begin))
  {
    var last := |pieces| - 1;
    if e in LinkEvents(pieces[..last], c, pos, begin, end) {
      k := LinkFrom(pieces[..last], c, pos, begin, end, e);
    } else {
      k := last;
    }
  }

  lemma LinkCompatible(pieces: seq<Piece>, c: nat, pos: nat, begin: nat, end: nat)
    requires Ordered(pieces)
    ensures AllCompatible(LinkEvents(pieces, c, pos, begin, end))
  {
    var events := LinkEvents(pieces, c, pos, begin, end);
    hide LinkEvents;
    forall e, f | e in events && f in events
      ensures Compatible(e, f)
    {
      var j := LinkFrom(pieces, c, pos, begin, end, e);
      var k := LinkFrom(pieces, c, pos, begin, end, f);
    }
  }

  ghost predicate AllOf(bytes: Text, c: nat, pos: nat, len: nat, events: seq<Event>) {
    forall e :: e in events ==> StringEventOk(bytes, c, pos, len, e)
  }

  lemma UniqueIn(s: seq<nat>)
    ensures Unique(s).Some? ==> Unique(s).value in s
  {
  }

  /** Linking a string to an entry's name, where their folded texts agree. */
  lemma LinkAll(low: Text, bytes: Text, c: nat, pos: nat, begin: nat, end: nat)
    requires begin <= end <= |low| && pos + (end - begin) <= |bytes|
    requires Lowered(bytes)[pos..pos + (end - begin)] == low[begin..end]
    ensures AllOf(bytes, c, pos, end - begin, LinkEvents(Pieces(low), c, pos, begin, end))
    ensures AllCompatible(LinkEvents(Pieces(low), c, pos, begin, end))
  {
    hide LinkEvents, Pieces, StringEventOk, Compatible, AllCompatible, PieceOk, Lowered, Ordered, AllOk;
    PiecesOk(low);
    LinkEventsOk(low, Pieces(low), bytes, c, pos, begin, end);
    LinkCompatible(Pieces(low), c, pos, begin, end);
  }

  lemma FullEntry(lows: seq<Text>, key: Text)
    requires Unique(FullOf(lows, key, |lows|)).Some?
    ensures var i := Unique(FullOf(lows, key, |lows|)).value; i < |lows| && lows[i] == key
  {
    hide FullOf, Unique;
    UniqueIn(FullOf(lows, key, |lows|));
    InFullOf(lows, key, |lows|, Unique(FullOf(lows, key, |lows|)).value);
  }

  lemma WholeEventsOk(lows: seq<Text>, bytes: Text, key: Text, c: nat, pos: nat)
    requires pos + |key| <= |bytes| && Lowered(bytes)[pos..pos + |key|] == key
    requires Unique(FullOf(lows, key, |lows|)).Some?
    ensures var events := WholeEvents(lows, Unique(FullOf(lows, key, |lows|)).value, c, pos);
      AllOf(bytes, c, pos, |key|, events) && AllCompatible(events)
  {
    hide LinkEvents, Pieces, AllOf, AllCompatible, Lowered, FullOf, Unique;
    FullEntry(lows, key);
    LinkWhole(key, bytes, c, pos);
  }

  lemma LinkWhole(low: Text, bytes: Text, c: nat, pos: nat)
    requires pos + |low| <= |bytes| && Lowered(bytes)[pos..pos + |low|] == low
    ensures AllOf(bytes, c, pos, |low|, LinkEvents(Pieces(low), c, pos, 0, |low|))
    ensures AllCompatible(LinkEvents(Pieces(low), c, pos, 0, |low|))
  {
    hide LinkEvents, Pieces, AllOf, AllCompatible, Lowered;
    assert low[0..|low|] == low;
    LinkAll(low, bytes, c, pos, 0, |low|);
  }

  lemma TailEventsOk(lows: seq<Text>, file: Text, bytes: Text, key: Text, c: nat, pos: nat)
    requires pos + |key| <= |bytes| && Lowered(bytes)[pos..pos + |key|] == key
    requires TailEntry(lows, file, key).Some?
    ensures var events := TailEvents(lows, TailEntry(lows, file, key).value, |key|, c, pos);
      AllOf(bytes, c, pos, |key|, events) && AllCompatible(events)
  {
    hide LinkEvents, Pieces, AllOf, AllCompatible, Lowered, RequiredFrom, TailOf, Unique;
    UniqueIn(TailOf(lows, key, |lows|));
    var i := TailEntry(lows, file, key).value;
    InTailOf(lows, key, |lows|, i);
    var low := lows[i];
    hide TailEntry;
    assert low[|low| - |key|..] == low[|low| - |key|..|low|];
    LinkAll(low, bytes, c, pos, |low| - |key|, |low|);
  }

  lemma StringEventGrows(bytes: Text, c: nat, pos: nat, len: nat, len': nat, e: Event)
    requires StringEventOk(bytes, c, pos, len, e) && len <= len' && pos + len' <= |bytes|
    ensures StringEventOk(bytes, c, pos, len', e)
  {
  }

  lemma TextureStem(file: Text, key: Text)
    requires |key| >= 4
    ensures var name := TextureName(file, key);
      var d := |MetadataDir(file)| + 1;
      d <= |name| - 4 && |name| - 4 - d == |key| - 4 && name[d..|name| - 4] == key[..|key| - 4]
  {
    hide MetadataDir;
  }

  lemma MetadataEventsOk(lows: seq<Text>, file: Text, bytes: Text, key: Text, c: nat, pos: nat)
    requires |key| >= 4 && pos + |key| <= |bytes| && Lowered(bytes)[pos..pos + |key|] == key
    ensures var events := MetadataEvents(lows, file, key, c, pos);
      AllOf(bytes, c, pos, |key|, events) && AllCompatible(events)
  {
    hide LinkEvents, Pieces, StringEventOk, AllCompatible, MetadataDir, TextureName, FullOf, Unique, Lowered;
    var name := TextureName(file, key);
    var u := Unique(FullOf(lows, name, |lows|));
    if u.Some? && u.value < |lows| && 4 <= |lows[u.value]| {
      UniqueIn(FullOf(lows, name, |lows|));
      InFullOf(lows, name, |lows|, u.value);
      TextureStem(file, key);
      var begin, end := |MetadataDir(file)| + 1, |name| - 4;
      assert Lowered(bytes)[pos..pos + (end - begin)] == key[..|key| - 4];
      LinkAll(name, bytes, c, pos, begin, end);
      forall e | e in LinkEvents(Pieces(name), c, pos, begin, end)
        ensures StringEventOk(bytes, c, pos, |key|, e)
      {
        StringEventGrows(bytes, c, pos, end - begin, |key|, e);
      }
    } else {
      NoEvents(bytes, c, pos, |key|);
    }
  }

  lemma TwoEvents(bytes: Text, c: nat, pos: nat, len: nat, key: Text, e: Event)
    requires StringEventOk(bytes, c, pos, len, e)
    ensures AllOf(bytes, c, pos, len, [Join(key), e]) && AllCompatible([Join(key), e])
  {
  }

  lemma IconEventsOk(lows: seq<Text>, bytes: Text, key: Text, c: nat, pos: nat)
    requires pos + |key| <= |bytes| && Lowered(bytes)[pos..pos + |key|] == key
    ensures AllOf(bytes, c, pos, |key|, IconEvents(lows, key, c, pos)) && AllCompatible(IconEvents(lows, key, c, pos))
  {
    hide IdSpelling, IconKey, AllOf, AllCompatible, IconsOf, StemId, Lowered;
    NoEvents(bytes, c, pos, |key|);
    var icons := IconsOf(lows, key, |lows|);
    if icons != [] && icons[0] < |lows| {
      var low := lows[icons[0]];
      InIconsOf(lows, key, |lows|, icons[0]);
      StemSpelling(low);
      StemOk(low);
      assert StemPiece(low).id == StemId(low);
      TwoEvents(bytes, c, pos, |key|, key, Occ(StemId(low), InContent(c, pos, |key|)));
    }
  }

  /** What a string says is of the string's own bytes. */
  lemma TokenEventsOk(lows: seq<Text>, file: Text, bytes: Text, key: Text, c: nat, pos: nat, attribute: Text)
    requires pos + |key| <= |bytes| && Lowered(bytes)[pos..pos + |key|] == key
    ensures AllOf(bytes, c, pos, |key|, TokenEvents(lows, file, key, c, pos, attribute))
    ensures AllCompatible(TokenEvents(lows, file, key, c, pos, attribute))
  {
    hide WholeEvents, TailEvents, MetadataEvents, IconEvents, TailEntry, FullOf, IsWord, GuiMetadata, IconAttribute;
    hide AllOf, AllCompatible;
    NoEvents(bytes, c, pos, |key|);
    if !IsWord(key) {
    } else if Unique(FullOf(lows, key, |lows|)).Some? {
      WholeEventsOk(lows, bytes, key, c, pos);
    } else if TailEntry(lows, file, key).Some? {
      TailEventsOk(lows, file, bytes, key, c, pos);
    } else if EndsWith(key, Lit(".png")) && GuiMetadata(file) {
      MetadataEventsOk(lows, file, bytes, key, c, pos);
    } else {
      IconEventsOk(lows, bytes, key, c, pos);
    }
  }

  lemma NoEvents(bytes: Text, c: nat, pos: nat, len: nat)
    ensures AllOf(bytes, c, pos, len, []) && AllCompatible([])
  {
  }

  /** The attribute decides only whether a string is an icon's name. */
  lemma AttributeDecidesOnlyIcons(lows: seq<Text>, file: Text, key: Text, c: nat, pos: nat, a: Text, b: Text)
    ensures var e := TokenEvents(lows, file, key, c, pos, a);
      var f := TokenEvents(lows, file, key, c, pos, b);
      e == [] || f == [] || e == f
  {
    hide WholeEvents, TailEvents, MetadataEvents, IconEvents, TailEntry, FullOf, IsWord, GuiMetadata, IconAttribute;
  }

  lemma EventsClear(bytes: Text, c: nat, t: Token, u: Token, e: Event, f: Event)
    requires StringEventOk(bytes, c, t.pos, t.len, e) && StringEventOk(bytes, c, u.pos, u.len, f)
    requires Clear(t.pos, t.len, u.pos, u.len)
    ensures Compatible(e, f) && Compatible(f, e)
  {
    hide IdSpelling, Lowered;
  }

  lemma StringsCompatible(lows: seq<Text>, content: Content, c: nat, t: Token, u: Token)
    requires t.pos + t.len <= |content.bytes| && u.pos + u.len <= |content.bytes|
    requires (t.pos == u.pos && t.len == u.len) || Clear(t.pos, t.len, u.pos, u.len)
    ensures forall e, f :: e in StringEvents(lows, content, c, t) && f in StringEvents(lows, content, c, u) ==>
      Compatible(e, f) && Compatible(f, e)
  {
    hide TokenEvents, Compatible, StringEventOk, Key, FileOf;
    StringEventsOk(lows, content, c, t);
    StringEventsOk(lows, content, c, u);
    var events, events' := StringEvents(lows, content, c, t), StringEvents(lows, content, c, u);
    if t.pos == u.pos && t.len == u.len {
      assert Key(content, t) == Key(content, u) by { SameKey(content, t, u); }
      AttributeDecidesOnlyIcons(lows, FileOf(lows, content), Key(content, t), c, t.pos, t.attribute, u.attribute);
    } else {
      hide StringEvents;
      forall e, f | e in events && f in events'
        ensures Compatible(e, f) && Compatible(f, e)
      {
        EventsClear(content.bytes, c, t, u, e, f);
      }
    }
  }

  lemma SameKey(content: Content, t: Token, u: Token)
    requires t.pos == u.pos && t.len == u.len
    ensures Key(content, t) == Key(content, u)
  {
  }

  lemma StringEventsOk(lows: seq<Text>, content: Content, c: nat, t: Token)
    requires t.pos + t.len <= |content.bytes|
    ensures AllOf(content.bytes, c, t.pos, t.len, StringEvents(lows, content, c, t))
    ensures AllCompatible(StringEvents(lows, content, c, t))
  {
    hide TokenEvents, AllOf, AllCompatible;
    LoweredSlice(content.bytes, t.pos, t.pos + t.len);
    TokenEventsOk(lows, FileOf(lows, content), content.bytes, Key(content, t), c, t.pos, t.attribute);
  }

  // ---- a file's strings ----

  /** Strings after `at`, one after the other. */
  predicate InOrder(text: Text, at: nat, tokens: seq<Token>) {
    && (forall i :: 0 <= i < |tokens| ==> at < tokens[i].pos && tokens[i].pos + tokens[i].len <= |text|)
    && (forall i, j :: 0 <= i < j < |tokens| ==> tokens[i].pos + tokens[i].len < tokens[j].pos)
  }

  lemma InOrderBefore(text: Text, at: nat, at': nat, tokens: seq<Token>)
    requires InOrder(text, at', tokens) && at <= at'
    ensures InOrder(text, at, tokens)
  {
  }

  lemma InOrderWith(text: Text, at: nat, end: nat, t: Token, rest: seq<Token>)
    requires InOrder(text, end, rest) && at < t.pos && t.pos + t.len <= end <= |text|
    ensures InOrder(text, at, [t] + rest)
  {
  }

  lemma {:induction false} TextTokensInOrder(text: Text, at: nat, lineStart: nat)
    requires lineStart <= at <= |text|
    ensures InOrder(text, at, TextTokens(text, at, lineStart))
    decreases |text| - at
  {
    hide QuoteEnd, Context, InOrder, TextTokens;
    if at < |text| {
      TextStep(text, at, lineStart);
    }
    if at == |text| {
      TextEnd(text, lineStart);
      NoneInOrder(text, at);
    } else if text[at] == NEWLINE {
      TextTokensInOrder(text, at + 1, at + 1);
      InOrderBefore(text, at, at + 1, TextTokens(text, at + 1, at + 1));
    } else {
      var end := if IsQuote(text[at]) then QuoteEnd(text, at, at + 1) else |text|;
      if end == |text| || text[end] != text[at] {
        TextTokensInOrder(text, at + 1, lineStart);
        InOrderBefore(text, at, at + 1, TextTokens(text, at + 1, lineStart));
      } else {
        TextTokensInOrder(text, end + 1, lineStart);
        var t := Token(at + 1, end - at - 1, Context(text[lineStart..at]));
        InOrderBefore(text, end, end + 1, TextTokens(text, end + 1, lineStart));
        InOrderWith(text, at, end, t, TextTokens(text, end + 1, lineStart));
      }
    }
  }

  lemma NoneInOrder(text: Text, at: nat)
    ensures InOrder(text, at, [])
  {
  }

  lemma InOrderApart(text: Text, at: nat, tokens: seq<Token>)
    requires InOrder(text, at, tokens)
    ensures StringsFit(text, tokens) && StringsApart(tokens)
  {
  }

  lemma TokensWithin(x: Archive, content: Content)
    requires ContentSound(x, content)
    ensures StringsFit(content.bytes, Tokens(content))
  {
    hide StringsFit, TextTokens;
    if !content.lsf {
      TextTokensInOrder(content.bytes, 0, 0);
      InOrderApart(content.bytes, 0, Tokens(content));
    }
  }

  lemma TokensApart(content: Content)
    requires content.lsf ==> StringsApart(content.strings)
    ensures StringsApart(Tokens(content))
  {
    hide StringsApart, TextTokens;
    if !content.lsf {
      TextTokensInOrder(content.bytes, 0, 0);
      InOrderApart(content.bytes, 0, Tokens(content));
    }
  }

  lemma {:induction false} EventOfString(lows: seq<Text>, content: Content, c: nat, tokens: seq<Token>, e: Event)
      returns (j: nat)
    requires e in ContentEvents(lows, content, c, tokens)
    ensures j < |tokens| && e in StringEvents(lows, content, c, tokens[j])
  {
    hide StringEvents;
    var n := |tokens| - 1;
    if e in ContentEvents(lows, content, c, tokens[..n]) {
      j := EventOfString(lows, content, c, tokens[..n], e);
    } else {
      j := n;
    }
  }

  lemma {:induction false} ContentEventsOk(lows: seq<Text>, content: Content, c: nat, tokens: seq<Token>)
    requires StringsFit(content.bytes, tokens)
    ensures forall e :: e in ContentEvents(lows, content, c, tokens) ==>
      StringEventOk(content.bytes, c, 0, |content.bytes|, e)
  {
    hide StringEvents, StringEventOk;
    var n := |tokens| - 1;
    if tokens != [] {
      ContentEventsOk(lows, content, c, tokens[..n]);
      StringEventsOk(lows, content, c, tokens[n]);
      forall e | e in StringEvents(lows, content, c, tokens[n])
        ensures StringEventOk(content.bytes, c, 0, |content.bytes|, e)
      {
        WithinFile(content.bytes, c, tokens[n].pos, tokens[n].len, e);
      }
    }
  }

  lemma {:induction false} ContentEventsApart(lows: seq<Text>, content: Content, c: nat, tokens: seq<Token>)
    requires StringsFit(content.bytes, tokens) && StringsApart(tokens)
    ensures AllCompatible(ContentEvents(lows, content, c, tokens))
  {
    hide StringEvents, StringEventOk, Compatible;
    var n := |tokens| - 1;
    if tokens != [] {
      var before, here := ContentEvents(lows, content, c, tokens[..n]), StringEvents(lows, content, c, tokens[n]);
      ContentEventsApart(lows, content, c, tokens[..n]);
      StringEventsOk(lows, content, c, tokens[n]);
      forall e, f | e in here && f in before
        ensures Compatible(e, f) && Compatible(f, e)
      {
        var j := EventOfString(lows, content, c, tokens[..n], f);
        assert tokens[..n][j] == tokens[j];
        StringsCompatible(lows, content, c, tokens[n], tokens[j]);
      }
      JoinCompatible(before, here);
    }
  }

  lemma WithinFile(bytes: Text, c: nat, pos: nat, len: nat, e: Event)
    requires StringEventOk(bytes, c, pos, len, e)
    ensures StringEventOk(bytes, c, 0, |bytes|, e)
  {
  }

  /** An event of one of the first `n` files, about that file. */
  ghost predicate OfContent(contents: seq<Content>, n: nat, e: Event) {
    exists c: nat :: c < n && c < |contents| && StringEventOk(contents[c].bytes, c, 0, |contents[c].bytes|, e)
  }

  lemma OtherContents(bytes: Text, c: nat, e: Event, contents: seq<Content>, n: nat, f: Event)
    requires StringEventOk(bytes, c, 0, |bytes|, e) && OfContent(contents, n, f) && n <= c
    ensures Compatible(e, f) && Compatible(f, e)
  {
  }

  lemma {:induction false} ContentsEventsOk(x: Archive, lows: seq<Text>, n: nat)
    requires Sound(x) && n <= |x.contents|
    ensures forall e :: e in ContentsEvents(lows, x.contents, n) ==> OfContent(x.contents, n, e)
  {
    hide ContentEvents, StringEventOk, Tokens;
    if n > 0 {
      var content := x.contents[n - 1];
      ContentsEventsOk(x, lows, n - 1);
      TokensWithin(x, content);
      ContentEventsOk(lows, content, n - 1, Tokens(content));
      assert forall e :: e in ContentsEvents(lows, x.contents, n - 1) ==> OfContent(x.contents, n, e);
    }
  }

  lemma {:induction false} ContentsEventsApart(x: Archive, lows: seq<Text>, n: nat)
    requires Sound(x) && AllStringsApart(x) && n <= |x.contents|
    ensures AllCompatible(ContentsEvents(lows, x.contents, n))
  {
    hide ContentEvents, StringEventOk, Compatible, Tokens;
    if n > 0 {
      var content := x.contents[n - 1];
      ContentsEventsApart(x, lows, n - 1);
      ContentsEventsOk(x, lows, n - 1);
      TokensWithin(x, content);
      TokensApart(content);
      ContentEventsOk(lows, content, n - 1, Tokens(content));
      ContentEventsApart(lows, content, n - 1, Tokens(content));
      var before, here := ContentsEvents(lows, x.contents, n - 1), ContentEvents(lows, content, n - 1, Tokens(content));
      forall e, f | e in here && f in before
        ensures Compatible(e, f) && Compatible(f, e)
      {
        OtherContents(content.bytes, n - 1, e, x.contents, n - 1, f);
      }
      JoinCompatible(before, here);
    }
  }

  // ---- the log ----

  lemma EntryEventIs(x: Archive, i: nat, e: Event)
    requires i < |x.names| && NameEventOk(x.names[i], i, e)
    ensures EventOk(x, e)
  {
    if e.Occ? || e.Own? {
      LoweredSlice(x.names[i], e.at.pos, e.at.pos + e.at.len);
    }
  }

  lemma ContentEventIs(x: Archive, c: nat, e: Event)
    requires c < |x.contents| && StringEventOk(x.contents[c].bytes, c, 0, |x.contents[c].bytes|, e)
    ensures EventOk(x, e)
  {
    if e.Occ? {
      LoweredSlice(x.contents[c].bytes, e.at.pos, e.at.pos + e.at.len);
    }
  }

  lemma NameAndContent(names: seq<Text>, contents: seq<Content>, e: Event, f: Event)
    requires OfEntry(names, |names|, e) && OfContent(contents, |contents|, f)
    ensures Compatible(e, f) && Compatible(f, e)
  {
  }

  lemma LogParts(x: Archive, e: Event)
    requires Sound(x) && e in Log(x)
    ensures OfEntry(x.names, |x.names|, e) || OfContent(x.contents, |x.contents|, e)
    ensures e in EntriesEvents(Lows(x.names), |x.names|) || OfContent(x.contents, |x.contents|, e)
  {
    var lows := Lows(x.names);
    hide EntriesEvents, ContentsEvents, NameEventOk, StringEventOk, Sound, Lows;
    EntriesEventsOk(x.names, |x.names|);
    ContentsEventsOk(x, lows, |x.contents|);
  }

  /** Every occurrence found spells its id once folded, so all spellings of a group are as long as each other. */
  lemma LogOk(x: Archive)
    requires Sound(x)
    ensures forall e :: e in Log(x) ==> EventOk(x, e)
  {
    hide Log, NameEventOk, StringEventOk, EventOk, Sound;
    forall e | e in Log(x)
      ensures EventOk(x, e)
    {
      LogParts(x, e);
      if OfEntry(x.names, |x.names|, e) {
        var i: nat :| i < |x.names| && NameEventOk(x.names[i], i, e);
        EntryEventIs(x, i, e);
      } else {
        var c: nat :| c < |x.contents| && StringEventOk(x.contents[c].bytes, c, 0, |x.contents[c].bytes|, e);
        ContentEventIs(x, c, e);
      }
    }
  }

  /** Occurrences in names have no byte in common. */
  lemma NamesApart(x: Archive, e: Event, f: Event)
    requires Sound(x) && e in Log(x) && f in Log(x) && e.Occ? && e.at.InName?
    ensures Compatible(e, f)
  {
    hide EntriesEvents, NameEventOk, Compatible, Log, Sound, Lows;
    EntriesEventsOk(x.names, |x.names|);
    LogParts(x, e);
    LogParts(x, f);
    if OfContent(x.contents, |x.contents|, e) {
      InContentOnly(x, e);
      assert false;
    }
    if f !in EntriesEvents(Lows(x.names), |x.names|) {
      NameAndContent(x.names, x.contents, e, f);
    }
  }

  lemma InContentOnly(x: Archive, e: Event)
    requires OfContent(x.contents, |x.contents|, e) && e.Occ?
    ensures e.at.InContent?
  {
  }

  /** If strings of LSF files are one range or have no byte in common, so are occurrences. */
  lemma LogApart(x: Archive)
    requires Sound(x) && AllStringsApart(x)
    ensures AllCompatible(Log(x))
  {
    var lows := Lows(x.names);
    hide EntriesEvents, ContentsEvents, NameEventOk, StringEventOk, Compatible, Sound, AllStringsApart, Lows;
    EntriesEventsOk(x.names, |x.names|);
    ContentsEventsOk(x, lows, |x.contents|);
    ContentsEventsApart(x, lows, |x.contents|);
    var a, b := EntriesEvents(lows, |lows|), ContentsEvents(lows, x.contents, |x.contents|);
    forall e, f | e in b && f in a
      ensures Compatible(e, f) && Compatible(f, e)
    {
      NameAndContent(x.names, x.contents, f, e);
    }
    JoinCompatible(a, b);
  }

  /** What is pinned is spelled somewhere; and a spelling pinned as it is, is an occurrence. */
  ghost predicate Backed(log: seq<Event>, e: Event) {
    && (e.Own? ==> Occ(e.id, e.at) in log)
    && (e.Fixed? ==> exists o :: Occ(e.id, o) in log)
  }

  lemma BackedGrows(log: seq<Event>, more: seq<Event>, e: Event)
    requires Backed(log, e)
    ensures Backed(log + more, e) && Backed(more + log, e)
  {
    if e.Fixed? {
      var o :| Occ(e.id, o) in log;
      assert Occ(e.id, o) in log + more && Occ(e.id, o) in more + log;
    }
  }

  lemma PieceIsSpelled(low: Text, i: nat, p: Piece)
    requires p in Pieces(low)
    ensures Occ(p.id, At(p, i)) in EntryEvents(low, i)
  {
    hide Pieces, NamePins, TexturePins;
    var pieces := Pieces(low);
    var k: nat :| k < |pieces| && pieces[k] == p;
    assert PieceEvents(pieces, i)[k] == Occ(p.id, At(p, i));
  }

  lemma {:induction false} CanonicalPinsFrom(low: Text, pieces: seq<Piece>, k: nat, e: Event) returns (p: Piece)
    requires k <= |pieces| && e in CanonicalPins(low, pieces, k)
    ensures p in pieces && e.Fixed? && e.id == p.id
    decreases |pieces| - k
  {
    hide Canonical, PieceText;
    if e in CanonicalPins(low, pieces, k + 1) {
      p := CanonicalPinsFrom(low, pieces, k + 1, e);
    } else {
      p := pieces[k];
    }
  }

  lemma NamePinBacked(low: Text, i: nat, e: Event)
    requires e in NamePins(low, i)
    ensures Backed(EntryEvents(low, i), e) && e.Own?
  {
    hide Pieces, FixedNames, EntryEvents, HasExt;
    StemSpelling(low);
    if e.id == StemId(low) {
      PieceIsSpelled(low, i, StemPiece(low));
    } else {
      PieceIsSpelled(low, i, ExtPiece(low));
    }
  }

  lemma EntryBacked(low: Text, i: nat, e: Event)
    requires e in EntryEvents(low, i)
    ensures Backed(EntryEvents(low, i), e) && !e.Join?
  {
    hide Pieces, NamePins, TexturePins;
    if e in TexturePins(low) {
      TexturePinBacked(low, i, e);
    } else if e in NamePins(low, i) {
      NamePinBacked(low, i, e);
    } else {
      hide EntryEvents;
      assert e.Occ?;
    }
  }

  lemma TexturePinBacked(low: Text, i: nat, e: Event)
    requires e in TexturePins(low)
    ensures Backed(EntryEvents(low, i), e) && e.Fixed?
  {
    hide Pieces, LastGui, CanonicalPins, EntryEvents, IconDirectory, HasExt;
    StemSpelling(low);
    if e == Fixed(ExtId(low), Lit("DDS")) {
      assert HasExt(low);
      PieceIsSpelled(low, i, ExtPiece(low));
    } else {
      GuiIsBeforeEnd(low);
      var p := CanonicalPinsFrom(low, Pieces(low), LastGui(low, Pieces(low), |Pieces(low)| - 1), e);
      PieceIsSpelled(low, i, p);
    }
  }

  lemma {:induction false} EntriesBacked(lows: seq<Text>, n: nat)
    requires n <= |lows|
    ensures forall e :: e in EntriesEvents(lows, n) ==> Backed(EntriesEvents(lows, n), e)
  {
    hide Backed, EntryEvents;
    if n > 0 {
      EntriesBacked(lows, n - 1);
      var before, here := EntriesEvents(lows, n - 1), EntryEvents(lows[n - 1], n - 1);
      forall e | e in before + here
        ensures Backed(before + here, e)
      {
        if e in before {
          BackedGrows(before, here, e);
        } else {
          EntryBacked(lows[n - 1], n - 1, e);
          BackedGrows(here, before, e);
        }
      }
    }
  }

  lemma LogBacked(x: Archive)
    requires Sound(x)
    ensures forall e :: e in Log(x) ==> Backed(Log(x), e)
  {
    var lows := Lows(x.names);
    hide EntriesEvents, ContentsEvents, Sound, Lows;
    EntriesBacked(lows, |lows|);
    ContentsEventsOk(x, lows, |x.contents|);
    var a, b := EntriesEvents(lows, |lows|), ContentsEvents(lows, x.contents, |x.contents|);
    forall e | e in Log(x)
      ensures Backed(Log(x), e)
    {
      if e in a {
        BackedGrows(a, b, e);
      } else {
        assert OfContent(x.contents, |x.contents|, e);
      }
    }
  }
}
