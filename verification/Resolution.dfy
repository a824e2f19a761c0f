/**
 What the case fixer logs of a whole archive, told from its bytes apart from
 the functions that find it (src/pak_fix.cpp): which strings are references,
 of which entry, and that a reference has each part of the name it refers to.
*/
module Resolution {
  import opened BitStrings
  import opened Components
  import opened References
  import opened Scanning
  import opened Spelling
  import opened Unification
  import opened Wrappers

  // ---- the entries a string may name ----

  /** The one entry of a folded name. */
  predicate Alone(lows: seq<Text>, key: Text, i: nat) {
    i < |lows| && lows[i] == key && forall j :: 0 <= j < |lows| && lows[j] == key ==> j == i
  }

  predicate PathEnds(n: Text, key: Text) {
    |key| < |n| && n[|n| - |key| - 1] == 47 && n[|n| - |key|..] == key
  }

  /** The one entry whose path ends so. */
  predicate TailAlone(lows: seq<Text>, key: Text, i: nat) {
    i < |lows| && PathEnds(lows[i], key) && forall j :: 0 <= j < |lows| && PathEnds(lows[j], key) ==> j == i
  }

  /** The first of the textures that an icon of this name has. */
  predicate FirstIcon(lows: seq<Text>, key: Text, i: nat) {
    i < |lows| && IconNamed(lows[i], key) && forall j :: 0 <= j < i ==> !IconNamed(lows[j], key)
  }

  predicate IconNamed(n: Text, key: Text) {
    && GuiTexture(n) && InIconDirectory(n)
    && exists b, e :: 0 <= b <= |n| && 0 <= e <= |n| && StemAt(n, b, e) && n[b..e] == key
  }

  lemma {:induction false} FullOfAlone(lows: seq<Text>, key: Text, n: nat, i: nat)
    requires n <= |lows| && forall j :: 0 <= j < n && lows[j] == key ==> j == i
    ensures FullOf(lows, key, n) == if i < n && lows[i] == key then [i] else []
  {
    if n > 0 {
      FullOfAlone(lows, key, n - 1, i);
    }
  }

  lemma AloneIff(lows: seq<Text>, key: Text, i: nat)
    ensures Unique(FullOf(lows, key, |lows|)) == Some(i) <==> Alone(lows, key, i)
  {
    hide FullOf;
    var s := FullOf(lows, key, |lows|);
    if |s| == 1 && s[0] == i {
      forall j: nat | j < |lows| && lows[j] == key
        ensures j == i
      {
        InFullOf(lows, key, |lows|, j);
      }
      InFullOf(lows, key, |lows|, i);
    }
    if Alone(lows, key, i) {
      FullOfAlone(lows, key, |lows|, i);
    }
  }

  lemma {:induction false} TailOfAlone(lows: seq<Text>, key: Text, n: nat, i: nat)
    requires n <= |lows| && forall j :: 0 <= j < n && PathEnds(lows[j], key) ==> j == i
    ensures TailOf(lows, key, n) == if i < n && PathEnds(lows[i], key) then [i] else []
  {
    if n > 0 {
      TailOfAlone(lows, key, n - 1, i);
    }
  }

  lemma TailAloneIff(lows: seq<Text>, key: Text, i: nat)
    ensures Unique(TailOf(lows, key, |lows|)) == Some(i) <==> TailAlone(lows, key, i)
  {
    hide TailOf;
    var s := TailOf(lows, key, |lows|);
    if |s| == 1 && s[0] == i {
      forall j: nat | j < |lows| && PathEnds(lows[j], key)
        ensures j == i
      {
        InTailOf(lows, key, |lows|, j);
      }
      InTailOf(lows, key, |lows|, i);
    }
    if TailAlone(lows, key, i) {
      TailOfAlone(lows, key, |lows|, i);
    }
  }

  lemma IconIff(n: Text, key: Text)
    requires Lowered(n) == n
    ensures IsIcon(n) && IconKey(n) == key <==> IconNamed(n, key)
  {
    TextureIff(n);
    IconDirectoryIff(n);
    StemOk(n);
    PieceFits(n, StemPiece(n));
    hide IsTexture, GuiTexture, IconDirectory, InIconDirectory, Lowered, AfterLast, StemEnd, PieceOk;
    var p := StemPiece(n);
    StemIff(n, p.begin, p.end, StemId(n));
    if b: nat, e: nat :| b <= |n| && e <= |n| && StemAt(n, b, e) && n[b..e] == key {
      StemIff(n, b, e, Stem(n[..e]));
    }
  }

  lemma {:induction false} FirstOf(lows: seq<Text>, key: Text, n: nat)
    requires n <= |lows| && forall j :: 0 <= j < |lows| ==> Lowered(lows[j]) == lows[j]
    ensures var icons := IconsOf(lows, key, n);
      && (icons != [] ==>
            icons[0] < n && IconNamed(lows[icons[0]], key)
            && forall j :: 0 <= j < icons[0] ==> !IconNamed(lows[j], key))
      && (icons == [] ==> forall j :: 0 <= j < n ==> !IconNamed(lows[j], key))
  {
    hide IsIcon, IconKey, IconNamed, Lowered;
    if n > 0 {
      FirstOf(lows, key, n - 1);
      IconIff(lows[n - 1], key);
    }
  }

  // ---- what a string says ----

  /** A range of a string that starts at `pos` and has `[begin, end)` of a name: one of the name's parts. */
  predicate LinkSaid(n: Text, begin: nat, end: nat, c: nat, pos: nat, e: Event) {
    && e.Occ? && e.at.InContent? && e.at.content == c && pos <= e.at.pos
    && begin + (e.at.pos - pos) + e.at.len <= end
    && Component(n, begin + (e.at.pos - pos), begin + (e.at.pos - pos) + e.at.len, e.id)
  }

  lemma {:induction false} LinkHas(pieces: seq<Piece>, c: nat, pos: nat, begin: nat, end: nat, k: nat)
    requires k < |pieces| && begin <= pieces[k].begin <= pieces[k].end <= end
    ensures var p := pieces[k];
      Occ(p.id, InContent(c, pos + (p.begin - begin), p.end - p.begin)) in LinkEvents(pieces, c, pos, begin, end)
  {
    var last := |pieces| - 1;
    if k < last {
      LinkHas(pieces[..last], c, pos, begin, end, k);
    }
  }

  lemma LinkIff(n: Text, begin: nat, end: nat, c: nat, pos: nat, e: Event)
    ensures e in LinkEvents(Pieces(n), c, pos, begin, end) <==> LinkSaid(n, begin, end, c, pos, e)
  {
    var pieces := Pieces(n);
    hide Pieces, Component, LinkEvents;
    if e in LinkEvents(pieces, c, pos, begin, end) {
      var k := LinkFrom(pieces, c, pos, begin, end, e);
      PiecesIff(n, pieces[k].begin, pieces[k].end, pieces[k].id);
      assert pieces[k] in pieces && pieces[k] == Piece(pieces[k].begin, pieces[k].end, pieces[k].id);
    }
    if LinkSaid(n, begin, end, c, pos, e) {
      var b := begin + (e.at.pos - pos);
      PiecesIff(n, b, b + e.at.len, e.id);
      var k: nat :| k < |pieces| && pieces[k] == Piece(b, b + e.at.len, e.id);
      LinkHas(pieces, c, pos, begin, end, k);
    }
  }

  /** In a Lua file, the rest of a path below the file's own Lua root; anything in another. */
  predicate Requires(file: Text, n: Text, len: nat) {
    Typed(file, Lit(".lua")) ==>
      exists r :: 20 <= r <= |file| && r <= |n|
        && OccursAt(file, Lit("/scriptextender/lua/"), r - 20)
        && (forall i :: 0 <= i < r - 20 ==> !OccursAt(file, Lit("/scriptextender/lua/"), i))
        && |n| == r + len && n[..r] == file[..r]
  }

  lemma LuaIs()
    ensures Lit(".lua") == [46] + Lit("lua") && 46 !in Lit("lua") && 47 !in Lit("lua")
    ensures |Lit("/scriptextender/lua/")| == 20
  {
  }

  lemma RequiresIff(file: Text, n: Text, len: nat)
    requires Lowered(file) == file
    ensures RequiredFrom(file, n, len) <==> Requires(file, n, len)
  {
    LuaIs();
    hide Lit, Extension, Typed, FindText, Lowered;
    TypedIff(file, Lit("lua"));
    var root := Lit("/scriptextender/lua/");
    FindLaw(file, root, 0);
    var at := FindText(file, root, 0);
    if RequiredFrom(file, n, len) && Typed(file, Lit(".lua")) {
      assert at < |file|;
      var r := at + 20;
      assert OccursAt(file, root, r - 20);
    }
    if r :| 20 <= r <= |file| && r <= |n| && OccursAt(file, root, r - 20)
            && (forall i :: 0 <= i < r - 20 ==> !OccursAt(file, root, i)) && |n| == r + len && n[..r] == file[..r] {
      assert at == r - 20;
    }
  }

  predicate IsPath(lows: seq<Text>, key: Text) {
    exists i :: 0 <= i < |lows| && Alone(lows, key, i)
  }

  /** The entry that the string is the tail of the path of. */
  predicate TailOfPath(lows: seq<Text>, file: Text, key: Text, i: nat) {
    47 in key && TailAlone(lows, key, i) && Requires(file, lows[i], |key|)
  }

  predicate IsTailOfPath(lows: seq<Text>, file: Text, key: Text) {
    exists i :: 0 <= i < |lows| && TailOfPath(lows, file, key, i)
  }

  /** In GUI metadata a name in ".png" below its directory, which stands for the texture beside it. */
  predicate TextureFor(lows: seq<Text>, file: Text, key: Text, i: nat) {
    && |file| >= 12 && |key| >= 4
    && Alone(lows, file[..|file| - 12] + key[..|key| - 4] + Lit(".dds"), i)
  }

  predicate InGuiMetadata(file: Text, key: Text) {
    && (EndsWith(file, Lit("/gui/metadata.lsx")) || EndsWith(file, Lit("/gui/metadata.lsf")))
    && EndsWith(key, Lit(".png"))
  }

  predicate NamesIcon(key: Text, attribute: Text) {
    && 47 !in key && 46 !in key
    && (SameButCase(attribute, Lit("Icon")) || SameButCase(attribute, Lit("MapKey")))
  }

  ghost predicate SaidByPath(lows: seq<Text>, key: Text, c: nat, pos: nat, e: Event) {
    exists i: nat :: Alone(lows, key, i) && LinkSaid(lows[i], 0, |key|, c, pos, e)
  }

  ghost predicate SaidByTail(lows: seq<Text>, file: Text, key: Text, c: nat, pos: nat, e: Event) {
    exists i: nat :: TailOfPath(lows, file, key, i) && LinkSaid(lows[i], |lows[i]| - |key|, |lows[i]|, c, pos, e)
  }

  ghost predicate SaidByTexture(lows: seq<Text>, file: Text, key: Text, c: nat, pos: nat, e: Event) {
    exists i: nat :: TextureFor(lows, file, key, i) && |lows[i]| >= 4
                     && LinkSaid(lows[i], |file| - 12, |lows[i]| - 4, c, pos, e)
  }

  ghost predicate SaidByIcon(lows: seq<Text>, key: Text, c: nat, pos: nat, e: Event) {
    exists i: nat :: FirstIcon(lows, key, i) && IconSaid(lows[i], key, c, pos, e)
  }

  /** What a string of 3 to 255 bytes, none of them a control character, says, by the first of four rules that fits. */
  ghost predicate StringSaid(lows: seq<Text>, file: Text, key: Text, c: nat, pos: nat, attribute: Text, e: Event) {
    && 3 <= |key| <= 255 && (forall k :: 0 <= k < |key| ==> key[k] >= 32)
    && if IsPath(lows, key) then SaidByPath(lows, key, c, pos, e)
       else if IsTailOfPath(lows, file, key) then SaidByTail(lows, file, key, c, pos, e)
       else if InGuiMetadata(file, key) then SaidByTexture(lows, file, key, c, pos, e)
       else NamesIcon(key, attribute) && SaidByIcon(lows, key, c, pos, e)
  }

  ghost predicate IconSaid(n: Text, key: Text, c: nat, pos: nat, e: Event) {
    || e == Join(key)
    || (e.Occ? && e.at == InContent(c, pos, |key|) && e.id.Stem? && exists b: nat, d: nat :: Component(n, b, d, e.id))
  }

  lemma PathIff(lows: seq<Text>, key: Text)
    ensures Unique(FullOf(lows, key, |lows|)).Some? <==> IsPath(lows, key)
    ensures forall i: nat :: Alone(lows, key, i) ==> Unique(FullOf(lows, key, |lows|)) == Some(i)
    ensures forall i :: Unique(FullOf(lows, key, |lows|)) == Some(i) ==> Alone(lows, key, i)
  {
    hide FullOf, Unique, Alone;
    var u := Unique(FullOf(lows, key, |lows|));
    if u.Some? {
      AloneIff(lows, key, u.value);
      InRangeIfAlone(lows, key, u.value);
    }
    forall i: nat | Alone(lows, key, i)
      ensures u == Some(i)
    {
      AloneIff(lows, key, i);
    }
  }

  lemma InRangeIfAlone(lows: seq<Text>, key: Text, i: nat)
    ensures Alone(lows, key, i) ==> i < |lows|
  {
  }

  lemma WholeIff(lows: seq<Text>, key: Text, c: nat, pos: nat, e: Event)
    requires IsPath(lows, key)
    ensures Unique(FullOf(lows, key, |lows|)).Some?
    ensures e in WholeEvents(lows, Unique(FullOf(lows, key, |lows|)).value, c, pos) <==>
            SaidByPath(lows, key, c, pos, e)
  {
    hide FullOf, Unique, LinkEvents, Pieces, LinkSaid;
    PathIff(lows, key);
    var i := Unique(FullOf(lows, key, |lows|)).value;
    LinkIff(lows[i], 0, |lows[i]|, c, pos, e);
  }

  lemma TailEntryIff(lows: seq<Text>, file: Text, key: Text, i: nat)
    requires Lowered(file) == file
    ensures TailEntry(lows, file, key) == Some(i) <==> TailOfPath(lows, file, key, i)
  {
    hide TailOf, Unique, RequiredFrom, Requires, PathEnds, Lowered;
    TailAloneIff(lows, key, i);
    if i < |lows| {
      RequiresIff(file, lows[i], |key|);
    }
  }

  lemma TailIff(lows: seq<Text>, file: Text, key: Text, c: nat, pos: nat, e: Event)
    requires Lowered(file) == file
    ensures TailEntry(lows, file, key).Some? <==> IsTailOfPath(lows, file, key)
    ensures TailEntry(lows, file, key).Some? ==>
      (e in TailEvents(lows, TailEntry(lows, file, key).value, |key|, c, pos) <==>
         SaidByTail(lows, file, key, c, pos, e))
  {
    hide TailEntry, LinkEvents, Pieces, LinkSaid, Requires, Lowered;
    forall i: nat | TailOfPath(lows, file, key, i)
      ensures TailEntry(lows, file, key) == Some(i)
    {
      TailEntryIff(lows, file, key, i);
    }
    if TailEntry(lows, file, key).Some? {
      var i := TailEntry(lows, file, key).value;
      TailEntryIff(lows, file, key, i);
      LinkIff(lows[i], |lows[i]| - |key|, |lows[i]|, c, pos, e);
    }
  }

  lemma MetadataFile(file: Text, key: Text)
    requires InGuiMetadata(file, key)
    ensures GuiMetadata(file) && |file| >= 12 && |key| >= 4
    ensures TextureName(file, key) == file[..|file| - 12] + key[..|key| - 4] + Lit(".dds")
    ensures |MetadataDir(file)| + 1 == |file| - 12
  {
    var k := |file| - 12;
    LeafOfMetadata();
    if EndsWith(file, Lit("/gui/metadata.lsx")) {
      assert file[k - 1..] == file[|file| - 17..][4..] == Lit("/gui/metadata.lsx")[4..];
    } else {
      assert file[k - 1..] == file[|file| - 17..][4..] == Lit("/gui/metadata.lsf")[4..];
    }
    hide Lit, AfterLast;
    assert file[k - 1] == file[k - 1..][0] == 47;
    forall i | k <= i < |file|
      ensures file[i] != 47
    {
      assert file[i] == file[k - 1..][i - k + 1];
    }
    AfterLastUnique(file, SLASH, k);
    assert MetadataDir(file) + [47] == file[..k];
  }

  lemma LeafOfMetadata()
    ensures |Lit("/gui/metadata.lsx")| == 17 && Lit("/gui/metadata.lsx")[4] == 47
    ensures forall i :: 5 <= i < 17 ==> Lit("/gui/metadata.lsx")[i] != 47
    ensures |Lit("/gui/metadata.lsf")| == 17 && Lit("/gui/metadata.lsf")[4] == 47
    ensures forall i :: 5 <= i < 17 ==> Lit("/gui/metadata.lsf")[i] != 47
    ensures |Lit(".png")| == 4 && |Lit(".dds")| == 4
  {
  }

  lemma TextureForIff(lows: seq<Text>, file: Text, key: Text, i: nat)
    requires InGuiMetadata(file, key)
    ensures |key| >= 4
    ensures TextureFor(lows, file, key, i) <==> Unique(FullOf(lows, TextureName(file, key), |lows|)) == Some(i)
    ensures TextureFor(lows, file, key, i) ==> i < |lows|
  {
    hide InGuiMetadata, FullOf, Unique, MetadataDir, Lit, TextureName;
    MetadataFile(file, key);
    AloneIff(lows, TextureName(file, key), i);
  }

  lemma TextureStemIff(lows: seq<Text>, file: Text, key: Text, c: nat, pos: nat, e: Event)
    requires InGuiMetadata(file, key)
    ensures |key| >= 4
    ensures e in MetadataEvents(lows, file, key, c, pos) <==> SaidByTexture(lows, file, key, c, pos, e)
  {
    hide InGuiMetadata, FullOf, Unique, LinkEvents, Pieces, LinkSaid, MetadataDir, TextureName, TextureFor;
    MetadataFile(file, key);
    var u := Unique(FullOf(lows, TextureName(file, key), |lows|));
    if u.Some? {
      TextureForIff(lows, file, key, u.value);
      if |lows[u.value]| >= 4 {
        LinkIff(lows[u.value], |file| - 12, |lows[u.value]| - 4, c, pos, e);
      }
    }
    forall i: nat | TextureFor(lows, file, key, i)
      ensures u == Some(i)
    {
      TextureForIff(lows, file, key, i);
    }
  }

  lemma FirstIconIff(lows: seq<Text>, key: Text, i: nat)
    requires forall j :: 0 <= j < |lows| ==> Lowered(lows[j]) == lows[j]
    ensures var icons := IconsOf(lows, key, |lows|);
      && (FirstIcon(lows, key, i) <==> icons != [] && icons[0] == i)
      && (icons != [] ==> icons[0] < |lows|)
  {
    hide IconNamed, IconsOf, Lowered;
    FirstOf(lows, key, |lows|);
  }

  lemma IconEventsIff(lows: seq<Text>, key: Text, c: nat, pos: nat, e: Event)
    requires forall j :: 0 <= j < |lows| ==> Lowered(lows[j]) == lows[j]
    ensures e in IconEvents(lows, key, c, pos) <==> SaidByIcon(lows, key, c, pos, e)
  {
    hide IconNamed, IconsOf, Lowered, Component, StemId, FirstIcon;
    var icons := IconsOf(lows, key, |lows|);
    FirstIconIff(lows, key, 0);
    if icons != [] {
      FirstIconIff(lows, key, icons[0]);
      StemIdIs(lows[icons[0]], e);
    }
    forall i: nat | FirstIcon(lows, key, i)
      ensures icons != [] && icons[0] == i
    {
      FirstIconIff(lows, key, i);
    }
  }

  lemma StemIdIs(n: Text, e: Event)
    ensures e.Occ? && e.id.Stem? ==> (e.id == StemId(n) <==> exists b: nat, d: nat :: Component(n, b, d, e.id))
    ensures StemId(n).Stem?
  {
    hide AfterLast, Component, StemEnd;
    var p := StemPiece(n);
    StemIff(n, p.begin, p.end, StemId(n));
    if e.Occ? && e.id.Stem? {
      forall b: nat, d: nat | Component(n, b, d, e.id)
        ensures e.id == StemId(n)
      {
        StemIff(n, b, d, e.id);
      }
    }
  }

  lemma LooseRules(file: Text, key: Text, attribute: Text)
    ensures InGuiMetadata(file, key) <==> EndsWith(key, Lit(".png")) && GuiMetadata(file)
    ensures NamesIcon(key, attribute) <==> SLASH !in key && DOT !in key && IconAttribute(attribute)
    ensures IsWord(key) <==> 3 <= |key| <= 255 && forall k :: 0 <= k < |key| ==> key[k] >= 32
  {
    hide Lit, SameButCase;
  }

  /** What is logged of a string is what it says. */
  lemma StringIff(lows: seq<Text>, file: Text, key: Text, c: nat, pos: nat, attribute: Text, e: Event)
    requires Lowered(file) == file && forall j :: 0 <= j < |lows| ==> Lowered(lows[j]) == lows[j]
    ensures e in TokenEvents(lows, file, key, c, pos, attribute) <==>
            StringSaid(lows, file, key, c, pos, attribute, e)
  {
    hide WholeEvents, TailEvents, MetadataEvents, IconEvents, TailEntry, FullOf, IsWord, GuiMetadata, IconAttribute;
    hide EndsWith, Lit, Lowered, IsPath, IsTailOfPath, InGuiMetadata, NamesIcon, SaidByPath, SaidByTail;
    hide SaidByTexture, SaidByIcon, Unique;
    LooseRules(file, key, attribute);
    PathIff(lows, key);
    TailIff(lows, file, key, c, pos, e);
    if IsPath(lows, key) {
      WholeIff(lows, key, c, pos, e);
    } else if InGuiMetadata(file, key) {
      TextureStemIff(lows, file, key, c, pos, e);
    } else {
      IconEventsIff(lows, key, c, pos, e);
    }
  }

  // ---- the whole log ----

  function KeyOf(x: Archive, c: nat, t: Token): Text
    requires c < |x.contents| && t.pos + t.len <= |x.contents[c].bytes|
  {
    Lowered(x.contents[c].bytes[t.pos..t.pos + t.len])
  }

  function FileNameOf(x: Archive, c: nat): Text
    requires c < |x.contents| && x.contents[c].file < |x.names|
  {
    Lowered(x.names[x.contents[c].file])
  }

  /** A string of a file, within it. */
  predicate StringOf(x: Archive, c: nat, t: Token) {
    && c < |x.contents| && x.contents[c].file < |x.names|
    && t in Tokens(x.contents[c]) && t.pos + t.len <= |x.contents[c].bytes|
  }

  ghost predicate TokenSaid(x: Archive, c: nat, t: Token, e: Event)
    requires StringOf(x, c, t)
  {
    StringSaid(Lows(x.names), FileNameOf(x, c), KeyOf(x, c, t), c, t.pos, t.attribute, e)
  }

  /** What the names of an archive and the strings of its files say. */
  ghost predicate Said(x: Archive, e: Event) {
    || (exists i: nat :: i < |x.names| && EntrySaid(Lowered(x.names[i]), i, e))
    || (exists c: nat, t :: StringOf(x, c, t) && TokenSaid(x, c, t, e))
  }

  lemma {:induction false} EntriesIff(lows: seq<Text>, n: nat, e: Event)
    requires n <= |lows| && forall j :: 0 <= j < |lows| ==> Lowered(lows[j]) == lows[j]
    ensures e in EntriesEvents(lows, n) <==> exists i: nat :: i < n && EntrySaid(lows[i], i, e)
  {
    hide EntryEvents, EntrySaid, Lowered;
    if n > 0 {
      EntriesIff(lows, n - 1, e);
      EntryIff(lows[n - 1], n - 1, e);
    }
  }

  lemma {:induction false} StringsIff(lows: seq<Text>, content: Content, c: nat, tokens: seq<Token>, e: Event)
    ensures e in ContentEvents(lows, content, c, tokens) <==>
      exists j :: 0 <= j < |tokens| && e in StringEvents(lows, content, c, tokens[j])
  {
    hide StringEvents;
    if tokens != [] {
      var n := |tokens| - 1;
      StringsIff(lows, content, c, tokens[..n], e);
      if e in ContentEvents(lows, content, c, tokens[..n]) {
        var j :| 0 <= j < n && e in StringEvents(lows, content, c, tokens[..n][j]);
        assert tokens[..n][j] == tokens[j];
      }
      if j :| 0 <= j < n && e in StringEvents(lows, content, c, tokens[j]) {
        assert tokens[..n][j] == tokens[j];
      }
    }
  }

  lemma {:induction false} ContentsIff(lows: seq<Text>, contents: seq<Content>, n: nat, e: Event)
    requires n <= |contents|
    ensures e in ContentsEvents(lows, contents, n) <==>
      exists c: nat, t :: c < n && t in Tokens(contents[c]) && e in StringEvents(lows, contents[c], c, t)
  {
    hide StringEvents, ContentEvents, Tokens;
    if n > 0 {
      ContentsIff(lows, contents, n - 1, e);
      StringsIff(lows, contents[n - 1], n - 1, Tokens(contents[n - 1]), e);
    }
  }

  lemma TokenIff(x: Archive, c: nat, t: Token, e: Event)
    requires StringOf(x, c, t)
    ensures e in StringEvents(Lows(x.names), x.contents[c], c, t) <==> TokenSaid(x, c, t, e)
  {
    hide TokenEvents, StringSaid, Tokens;
    FoldedNames(x.names);
    LoweredTwice(x.names[x.contents[c].file]);
    hide Lowered;
    StringIff(Lows(x.names), FileNameOf(x, c), KeyOf(x, c, t), c, t.pos, t.attribute, e);
  }

  lemma FoldedNames(names: seq<Text>)
    ensures forall j :: 0 <= j < |names| ==> Lowered(Lows(names)[j]) == Lows(names)[j]
  {
    forall j | 0 <= j < |names|
      ensures Lowered(Lows(names)[j]) == Lows(names)[j]
    {
      LoweredTwice(names[j]);
    }
  }

  lemma EveryStringIsWithin(x: Archive, c: nat, t: Token)
    requires Sound(x) && c < |x.contents| && t in Tokens(x.contents[c])
    ensures StringOf(x, c, t)
  {
    TokensWithin(x, x.contents[c]);
  }

  /** What the fixer logs of an archive is what its names and its files' strings say, and nothing else. */
  lemma LogIff(x: Archive, e: Event)
    requires Sound(x)
    ensures e in Log(x) <==> Said(x, e)
  {
    hide EntriesEvents, ContentsEvents, StringEvents, EntrySaid, TokenSaid, Tokens, Sound, Lowered;
    var lows := Lows(x.names);
    FoldedNames(x.names);
    EntriesIff(lows, |lows|, e);
    ContentsIff(lows, x.contents, |x.contents|, e);
    forall c: nat, t | c < |x.contents| && t in Tokens(x.contents[c])
      ensures StringOf(x, c, t)
      ensures e in StringEvents(lows, x.contents[c], c, t) <==> TokenSaid(x, c, t, e)
    {
      EveryStringIsWithin(x, c, t);
      TokenIff(x, c, t, e);
    }
  }

  // ---- references follow what they refer to ----

  /** A string that is the path of entry `i`, or the tail of it from `from` on, and no other's. */
  predicate Refers(x: Archive, c: nat, t: Token, i: nat, from: nat)
    requires StringOf(x, c, t)
  {
    var lows, key := Lows(x.names), KeyOf(x, c, t);
    && 3 <= |key| <= 255 && (forall k :: 0 <= k < |key| ==> key[k] >= 32)
    && if IsPath(lows, key) then Alone(lows, key, i) && from == 0
       else TailOfPath(lows, FileNameOf(x, c), key, i) && from + |key| == |lows[i]|
  }

  lemma ComponentFits(n: Text, b: nat, e: nat, id: Id)
    requires Component(n, b, e, id)
    ensures b <= e <= |n|
  {
  }

  lemma PartSaid(lows: seq<Text>, file: Text, key: Text, c: nat, pos: nat, attribute: Text, i: nat, from: nat, b: nat,
                 d: nat, id: Id)
    requires 3 <= |key| <= 255 && (forall k :: 0 <= k < |key| ==> key[k] >= 32)
    requires if IsPath(lows, key) then Alone(lows, key, i) && from == 0
             else TailOfPath(lows, file, key, i) && from + |key| == |lows[i]|
    requires i < |lows| && from <= b <= d <= |lows[i]| && Component(lows[i], b, d, id)
    ensures StringSaid(lows, file, key, c, pos, attribute, Occ(id, InContent(c, pos + (b - from), d - b)))
    ensures from + |key| == |lows[i]|
  {
    var e := Occ(id, InContent(c, pos + (b - from), d - b));
    assert LinkSaid(lows[i], from, |lows[i]|, c, pos, e);
    hide LinkSaid, Component, Requires, TailAlone;
    if IsPath(lows, key) {
      assert SaidByPath(lows, key, c, pos, e);
    } else {
      assert IsTailOfPath(lows, file, key);
      assert SaidByTail(lows, file, key, c, pos, e);
    }
  }

  /** A reference has each part, within it, of the name it refers to, where that part is in the name. */
  lemma ReferenceLogged(x: Archive, c: nat, t: Token, i: nat, from: nat, b: nat, d: nat, id: Id)
    requires Sound(x) && StringOf(x, c, t) && Refers(x, c, t, i, from)
    requires i < |x.names| && from <= b <= d && Component(Lowered(x.names[i]), b, d, id)
    ensures Occ(id, InContent(c, t.pos + (b - from), d - b)) in Log(x) && Occ(id, InName(i, b, d - b)) in Log(x)
    ensures t.pos + (d - from) <= |x.contents[c].bytes| && d <= |x.names[i]|
  {
    hide Log, Tokens, Sound, Component, StringSaid, Alone, TailOfPath, IsPath, EntrySaid;
    var lows, key := Lows(x.names), KeyOf(x, c, t);
    assert lows[i] == Lowered(x.names[i]) && |lows[i]| == |x.names[i]| && |key| == t.len;
    hide Lowered;
    ComponentFits(lows[i], b, d, id);
    var here, there := Occ(id, InContent(c, t.pos + (b - from), d - b)), Occ(id, InName(i, b, d - b));
    PartSaid(lows, FileNameOf(x, c), key, c, t.pos, t.attribute, i, from, b, d, id);
    assert TokenSaid(x, c, t, here);
    NameSaid(lows[i], i, b, d, id);
    LogIff(x, here);
    LogIff(x, there);
  }

  lemma NameSaid(n: Text, i: nat, b: nat, d: nat, id: Id)
    requires b <= d && Component(n, b, d, id)
    ensures EntrySaid(n, i, Occ(id, InName(i, b, d - b)))
  {
  }

  /** Once all is unified, an occurrence is spelled as its group is to be, or, if nothing is, as it was. */
  lemma GroupSpelled(x: Archive, x': Archive, id: Id, at: Occurrence)
    requires Unified(x, x') && Occ(id, at) in Log(x)
    ensures var w := Wanted(ViewOf(x, Lows(x.names), Log(x), id));
      Spelled(x', at) == if w.Some? then w.value else Spelled(x, at)
  {
    hide Log, ViewOf, Wanted, Spelled;
    var e := Occ(id, at);
    assert Spelled(x', e.at) == Goal(x, e);
  }

  lemma SpelledInBoth(x: Archive, x': Archive, c: nat, pos: nat, i: nat, b: nat, len: nat)
    requires SameShape(x, x') && c < |x.contents| && pos + len <= |x.contents[c].bytes|
    requires i < |x.names| && b + len <= |x.names[i]|
    ensures Spelled(x', InContent(c, pos, len)) == x'.contents[c].bytes[pos..pos + len]
    ensures Spelled(x, InContent(c, pos, len)) == x.contents[c].bytes[pos..pos + len]
    ensures Spelled(x', InName(i, b, len)) == x'.names[i][b..b + len]
    ensures Spelled(x, InName(i, b, len)) == x.names[i][b..b + len]
  {
  }

  /**
   Once all is unified, a reference and the name it refers to are spelled
   alike in each part: as the part's group is to be, or, if nothing is, as
   they were.
  */
  lemma ReferenceFollows(x: Archive, x': Archive, c: nat, t: Token, i: nat, from: nat, b: nat, d: nat, id: Id)
    requires Sound(x) && Unified(x, x') && StringOf(x, c, t) && Refers(x, c, t, i, from)
    requires i < |x.names| && from <= b <= d && Component(Lowered(x.names[i]), b, d, id)
    ensures t.pos + (d - from) <= |x.contents[c].bytes| == |x'.contents[c].bytes| && d <= |x.names[i]| == |x'.names[i]|
    ensures var w := Wanted(ViewOf(x, Lows(x.names), Log(x), id));
      var pos := t.pos + (b - from);
      && (w.Some? ==> x'.contents[c].bytes[pos..pos + (d - b)] == x'.names[i][b..d] == w.value)
      && (w.None? ==>
            && x'.contents[c].bytes[pos..pos + (d - b)] == x.contents[c].bytes[pos..pos + (d - b)]
            && x'.names[i][b..d] == x.names[i][b..d])
  {
    hide Log, Tokens, Sound, Lowered, Wanted, ViewOf, Component, Refers, Settled, Spelled;
    ReferenceLogged(x, c, t, i, from, b, d, id);
    GroupSpelled(x, x', id, InContent(c, t.pos + (b - from), d - b));
    GroupSpelled(x, x', id, InName(i, b, d - b));
    SpelledInBoth(x, x', c, t.pos + (b - from), i, b, d - b);
  }
}
