/**
 What the case fixer takes an archive's names and texts to say (src/pak_fix.cpp):
 which parts of a name are spelled together, and which ranges of which files
 spell them too. All of it is told from the folded texts alone.
*/
module References {
  import opened Spelling
  import opened Wrappers

  /**
   What a group of spellings is a spelling of: a directory, a name up to its
   extension, or a whole name's extension. The path is the folded one.
  */
  datatype Id = Dir(path: Text) | Stem(path: Text) | Ext(path: Text)

  datatype Piece = Piece(begin: nat, end: nat, id: Id)

  /** One spelling: a range of an entry's name or of a file's text. */
  datatype Occurrence =
    | InName(index: nat, pos: nat, len: nat)
    | InContent(content: nat, pos: nat, len: nat)

  /**
   What scanning finds: that a range spells an id; that an id is spelled as a
   range spells it, or as a given text; and that the stems of an icon's
   textures are one group.
  */
  datatype Event =
    | Occ(id: Id, at: Occurrence)
    | Own(id: Id, at: Occurrence)
    | Fixed(id: Id, text: Text)
    | Join(key: Text)

  /** A string of a file, and the attribute or field it is the value of. */
  datatype Token = Token(pos: nat, len: nat, attribute: Text)

  /** The spelling that an id's occurrences share once folded. */
  function IdSpelling(id: Id): Text {
    if id.Ext? then id.path[AfterLast(id.path, DOT)..] else Leaf(id.path)
  }

  // ---- the parts of a name ----

  function DirPieces(low: Text, begin: nat): seq<Piece>
    requires begin <= |low|
    decreases |low| - begin
  {
    var s := FirstFrom(low, SLASH, begin);
    if s == |low| then [] else [Piece(begin, s, Dir(low[..s]))] + DirPieces(low, s + 1)
  }

  predicate HasExt(low: Text) {
    AfterLast(low, DOT) > AfterLast(low, SLASH) + 1
  }

  function StemEnd(low: Text): (r: nat)
    ensures r <= |low|
  {
    if HasExt(low) then AfterLast(low, DOT) - 1 else |low|
  }

  function StemId(low: Text): Id {
    Stem(low[..StemEnd(low)])
  }

  function ExtId(low: Text): Id {
    Ext(low)
  }

  function StemPiece(low: Text): Piece {
    Piece(AfterLast(low, SLASH), StemEnd(low), StemId(low))
  }

  function ExtPiece(low: Text): Piece {
    Piece(AfterLast(low, DOT), |low|, ExtId(low))
  }

  function Pieces(low: Text): seq<Piece> {
    DirPieces(low, 0) + [StemPiece(low)] + (if HasExt(low) then [ExtPiece(low)] else [])
  }

  function At(p: Piece, i: nat): Occurrence {
    InName(i, p.begin, if p.begin <= p.end then p.end - p.begin else 0)
  }

  function PieceEvents(pieces: seq<Piece>, i: nat): seq<Event> {
    seq(|pieces|, k requires 0 <= k < |pieces| => Occ(pieces[k].id, At(pieces[k], i)))
  }

  // ---- spellings that are not the archive's to choose ----

  function FixedNames(): set<Text> {
    {Lit("meta.lsx"), Lit("metadata.lsx"), Lit("metadata.lsf"), Lit("config.json"),
     Lit("bootstrapserver.lua"), Lit("bootstrapclient.lua"), Lit("story_header.div")}
  }

  function Canonical(): map<Text, Text> {
    map[Lit("gui") := Lit("GUI"), Lit("assets") := Lit("Assets"), Lit("assetslowres") := Lit("AssetsLowRes"),
        Lit("tooltips") := Lit("Tooltips"), Lit("icons") := Lit("Icons"), Lit("itemicons") := Lit("ItemIcons"),
        Lit("controlleruiicons") := Lit("ControllerUIIcons"), Lit("skills_png") := Lit("skills_png"),
        Lit("items_png") := Lit("items_png")]
  }

  function IconDirs(): seq<Text> {
    [Lit("/tooltips/icons/"), Lit("/tooltips/itemicons/"), Lit("/controlleruiicons/skills_png/"),
     Lit("/controlleruiicons/items_png/")]
  }

  predicate IconDirectory(low: Text) {
    && Contains(low, Lit("/gui/assets"))
    && exists k :: 0 <= k < |IconDirs()| && EndsWith(low[..AfterLast(low, SLASH)], IconDirs()[k])
  }

  predicate IsTexture(low: Text) {
    HasExt(low) && Contains(low, Lit("/gui/")) && Extension(low) == Lit("dds")
  }

  predicate IsIcon(low: Text) {
    IsTexture(low) && IconDirectory(low)
  }

  /** A texture's name without its directory and extension: the icon's name. */
  function IconKey(low: Text): Text {
    var p := StemPiece(low);
    if p.begin <= p.end then low[p.begin..p.end] else []
  }

  function PieceText(low: Text, p: Piece): Text {
    if p.begin <= p.end <= |low| then low[p.begin..p.end] else []
  }

  /** The last of the first `n` parts, the name's last one aside, that is "gui". */
  function LastGui(low: Text, pieces: seq<Piece>, n: nat): (r: nat)
    requires n < |pieces|
    ensures r < n || r == |pieces|
  {
    if n == 0 then |pieces|
    else if PieceText(low, pieces[n - 1]) == Lit("gui") then n - 1
    else LastGui(low, pieces, n - 1)
  }

  /** The directories from part `k` on that the engine spells its own way. */
  function CanonicalPins(low: Text, pieces: seq<Piece>, k: nat): seq<Event>
    requires k <= |pieces|
    decreases |pieces| - k
  {
    if k == |pieces| || !pieces[k].id.Dir? then []
    else
      var t := PieceText(low, pieces[k]);
      (if t in Canonical() then [Fixed(pieces[k].id, Canonical()[t])] else []) + CanonicalPins(low, pieces, k + 1)
  }

  function DirectoryPins(low: Text): seq<Event> {
    var pieces := Pieces(low);
    CanonicalPins(low, pieces, LastGui(low, pieces, |pieces| - 1))
  }

  function NamePins(low: Text, i: nat): seq<Event> {
    if Leaf(low) in FixedNames() then
      [Own(StemId(low), At(StemPiece(low), i))] + (if HasExt(low) then [Own(ExtId(low), At(ExtPiece(low), i))] else [])
    else []
  }

  function TexturePins(low: Text): seq<Event> {
    if IsTexture(low) then [Fixed(ExtId(low), Lit("DDS"))] + (if IconDirectory(low) then DirectoryPins(low) else [])
    else []
  }

  function EntryEvents(low: Text, i: nat): seq<Event> {
    PieceEvents(Pieces(low), i) + NamePins(low, i) + TexturePins(low)
  }

  function EntriesEvents(lows: seq<Text>, n: nat): seq<Event>
    requires n <= |lows|
  {
    if n == 0 then [] else EntriesEvents(lows, n - 1) + EntryEvents(lows[n - 1], n - 1)
  }

  // ---- the entries a string may name ----

  /** The entries among the first `n` of a given folded name. */
  function FullOf(lows: seq<Text>, key: Text, n: nat): seq<nat>
    requires n <= |lows|
  {
    if n == 0 then []
    else FullOf(lows, key, n - 1) + (if lows[n - 1] == key then [n - 1] else [])
  }

  predicate IsTail(low: Text, key: Text) {
    |key| < |low| && low[|low| - |key| - 1] == SLASH && low[|low| - |key|..] == key
  }

  function TailOf(lows: seq<Text>, key: Text, n: nat): seq<nat>
    requires n <= |lows|
  {
    if n == 0 then []
    else TailOf(lows, key, n - 1) + (if IsTail(lows[n - 1], key) then [n - 1] else [])
  }

  function IconsOf(lows: seq<Text>, key: Text, n: nat): seq<nat>
    requires n <= |lows|
  {
    if n == 0 then []
    else IconsOf(lows, key, n - 1) + (if IsIcon(lows[n - 1]) && IconKey(lows[n - 1]) == key then [n - 1] else [])
  }

  lemma {:induction false} InFullOf(lows: seq<Text>, key: Text, n: nat, i: nat)
    requires n <= |lows|
    ensures i in FullOf(lows, key, n) <==> i < n && lows[i] == key
  {
    if n > 0 {
      InFullOf(lows, key, n - 1, i);
    }
  }

  lemma {:induction false} InTailOf(lows: seq<Text>, key: Text, n: nat, i: nat)
    requires n <= |lows|
    ensures i in TailOf(lows, key, n) <==> i < n && IsTail(lows[i], key)
  {
    hide IsTail;
    if n > 0 {
      InTailOf(lows, key, n - 1, i);
    }
  }

  lemma {:induction false} InIconsOf(lows: seq<Text>, key: Text, n: nat, i: nat)
    requires n <= |lows|
    ensures i in IconsOf(lows, key, n) <==> i < n && IsIcon(lows[i]) && IconKey(lows[i]) == key
  {
    hide IsIcon, IconKey;
    if n > 0 {
      InIconsOf(lows, key, n - 1, i);
    }
  }

  function Unique(s: seq<nat>): Option<nat> {
    if |s| == 1 then Some(s[0]) else None
  }

  // ---- what a string refers to ----

  /** A string's bytes from `pos` name `[begin, end)` of the entry of these parts. */
  function LinkEvents(pieces: seq<Piece>, c: nat, pos: nat, begin: nat, end: nat): seq<Event> {
    if pieces == [] then []
    else
      var p := pieces[|pieces| - 1];
      LinkEvents(pieces[..|pieces| - 1], c, pos, begin, end)
      + (if begin <= p.begin <= p.end <= end
         then [Occ(p.id, InContent(c, pos + (p.begin - begin), p.end - p.begin))]
         else [])
  }

  /** In Lua a path is below the mod's own Lua root. */
  predicate RequiredFrom(from: Text, low: Text, len: nat) {
    Extension(from) != Lit("lua") ||
    var root := Lit("/scriptextender/lua/");
    var at := FindText(from, root, 0);
    && at + |root| <= |from|
    && |low| == at + |root| + len
    && low[..at + |root|] == from[..at + |root|]
  }

  predicate GuiMetadata(low: Text) {
    EndsWith(low, Lit("/gui/metadata.lsx")) || EndsWith(low, Lit("/gui/metadata.lsf"))
  }

  /** The name of the texture that a key of GUI metadata stands for. */
  function MetadataDir(file: Text): Text {
    var s := AfterLast(file, SLASH);
    if s == 0 then [] else file[..s - 1]
  }

  function TextureName(file: Text, key: Text): Text
    requires |key| >= 4
  {
    MetadataDir(file) + [SLASH] + key[..|key| - 4] + Lit(".dds")
  }

  predicate IconAttribute(attribute: Text) {
    SameButCase(attribute, Lit("Icon")) || SameButCase(attribute, Lit("MapKey"))
  }

  predicate IsWord(key: Text) {
    3 <= |key| <= 255 && forall k :: 0 <= k < |key| ==> key[k] >= 32
  }

  /** The entry whose path ends in the string, where that is a reference. */
  function TailEntry(lows: seq<Text>, file: Text, key: Text): Option<nat> {
    if SLASH !in key then None
    else
      var i := Unique(TailOf(lows, key, |lows|));
      if i.Some? && i.value < |lows| && RequiredFrom(file, lows[i.value], |key|) then i else None
  }

  /** What a string of the file named `file` says, from its folded text. */
  function TokenEvents(lows: seq<Text>, file: Text, key: Text, c: nat, pos: nat, attribute: Text): seq<Event> {
    if !IsWord(key) then []
    else if Unique(FullOf(lows, key, |lows|)).Some? then
      WholeEvents(lows, Unique(FullOf(lows, key, |lows|)).value, c, pos)
    else if TailEntry(lows, file, key).Some? then
      TailEvents(lows, TailEntry(lows, file, key).value, |key|, c, pos)
    else LooseEvents(lows, file, key, c, pos, attribute)
  }

  /** What a string that is no path of the archive's says: that of a key of GUI metadata, or of an icon's name. */
  function LooseEvents(lows: seq<Text>, file: Text, key: Text, c: nat, pos: nat, attribute: Text): seq<Event> {
    if EndsWith(key, Lit(".png")) && GuiMetadata(file) then MetadataEvents(lows, file, key, c, pos)
    else if SLASH !in key && DOT !in key && IconAttribute(attribute) then IconEvents(lows, key, c, pos)
    else []
  }

  function WholeEvents(lows: seq<Text>, i: nat, c: nat, pos: nat): seq<Event> {
    if i < |lows| then LinkEvents(Pieces(lows[i]), c, pos, 0, |lows[i]|) else []
  }

  function TailEvents(lows: seq<Text>, i: nat, len: nat, c: nat, pos: nat): seq<Event> {
    if i < |lows| && len <= |lows[i]| then LinkEvents(Pieces(lows[i]), c, pos, |lows[i]| - len, |lows[i]|) else []
  }

  function MetadataEvents(lows: seq<Text>, file: Text, key: Text, c: nat, pos: nat): seq<Event>
    requires |key| >= 4
  {
    var i := Unique(FullOf(lows, TextureName(file, key), |lows|));
    if i.Some? && i.value < |lows| && 4 <= |lows[i.value]| then
      LinkEvents(Pieces(lows[i.value]), c, pos, |MetadataDir(file)| + 1, |lows[i.value]| - 4)
    else []
  }

  function IconEvents(lows: seq<Text>, key: Text, c: nat, pos: nat): seq<Event> {
    var icons := IconsOf(lows, key, |lows|);
    if icons == [] || icons[0] >= |lows| then []
    else [Join(key), Occ(StemId(lows[icons[0]]), InContent(c, pos, |key|))]
  }

  // ---- the spellings of a name's parts ----

  predicate PieceOk(low: Text, p: Piece) {
    && p.begin <= p.end <= |low| && low[p.begin..p.end] == IdSpelling(p.id) && SLASH !in IdSpelling(p.id)
  }

  lemma LeafFrom(low: Text, begin: nat, end: nat)
    requires begin <= end <= |low| && (begin > 0 ==> low[begin - 1] == SLASH)
    requires forall i :: begin <= i < end ==> low[i] != SLASH
    ensures Leaf(low[..end]) == low[begin..end] && SLASH !in low[begin..end]
  {
    AfterLastUnique(low[..end], SLASH, begin);
  }

  predicate Ordered(pieces: seq<Piece>) {
    forall j, k :: 0 <= j < k < |pieces| ==> pieces[j].end < pieces[k].begin
  }

  predicate AllOk(low: Text, pieces: seq<Piece>) {
    forall k :: 0 <= k < |pieces| ==> PieceOk(low, pieces[k])
  }

  predicate Between(pieces: seq<Piece>, from: nat, to: nat) {
    forall k :: 0 <= k < |pieces| ==> pieces[k].id.Dir? && from <= pieces[k].begin && pieces[k].end < to
  }

  lemma {:induction false} DirPiecesOk(low: Text, begin: nat)
    requires begin <= |low| && (begin > 0 ==> low[begin - 1] == SLASH)
    ensures AllOk(low, DirPieces(low, begin)) && Ordered(DirPieces(low, begin))
    ensures Between(DirPieces(low, begin), begin, AfterLast(low, SLASH))
    decreases |low| - begin
  {
    hide PieceOk, AllOk, Ordered, Between, AfterLast;
    var s := FirstFrom(low, SLASH, begin);
    if s < |low| {
      var p := Piece(begin, s, Dir(low[..s]));
      DirPieceOk(low, begin, s);
      DirPiecesOk(low, s + 1);
      FirstPiece(low, p, DirPieces(low, s + 1), AfterLast(low, SLASH));
    } else {
      NoPieces(low, begin, AfterLast(low, SLASH));
    }
  }

  lemma NoPieces(low: Text, from: nat, to: nat)
    ensures AllOk(low, []) && Ordered([]) && Between([], from, to)
  {
  }

  lemma DirPieceOk(low: Text, begin: nat, end: nat)
    requires begin <= end < |low| && (begin > 0 ==> low[begin - 1] == SLASH) && low[end] == SLASH
    requires forall i :: begin <= i < end ==> low[i] != SLASH
    ensures PieceOk(low, Piece(begin, end, Dir(low[..end]))) && end < AfterLast(low, SLASH)
  {
    hide Leaf, AfterLast;
    LeafFrom(low, begin, end);
    SlashBefore(low, end);
  }

  lemma SlashBefore(low: Text, i: nat)
    requires i < |low| && low[i] == SLASH
    ensures i < AfterLast(low, SLASH)
  {
    hide AfterLast;
  }

  lemma FirstPiece(low: Text, p: Piece, rest: seq<Piece>, to: nat)
    requires PieceOk(low, p) && p.id.Dir? && p.end < to
    requires AllOk(low, rest) && Ordered(rest) && Between(rest, p.end + 1, to)
    ensures AllOk(low, [p] + rest) && Ordered([p] + rest) && Between([p] + rest, p.begin, to)
  {
    assert p.begin <= p.end;
    hide PieceOk;
  }

  lemma StemOk(low: Text)
    ensures PieceOk(low, StemPiece(low)) && StemPiece(low).begin == AfterLast(low, SLASH)
  {
    hide Leaf, AfterLast;
    LeafFrom(low, AfterLast(low, SLASH), StemEnd(low));
    var p := StemPiece(low);
    assert p.begin <= p.end <= |low|;
    assert IdSpelling(p.id) == Leaf(low[..p.end]);
  }

  lemma ExtOk(low: Text)
    requires HasExt(low)
    ensures PieceOk(low, ExtPiece(low)) && StemPiece(low).end < ExtPiece(low).begin
  {
    var d := AfterLast(low, DOT);
    assert d > AfterLast(low, SLASH);
    assert low[d..] == low[d..|low|];
    assert SLASH !in low[d..];
    hide AfterLast;
  }

  lemma LastPiece(low: Text, pieces: seq<Piece>, p: Piece)
    requires AllOk(low, pieces) && Ordered(pieces) && PieceOk(low, p)
    requires pieces != [] ==> pieces[|pieces| - 1].end < p.begin
    ensures AllOk(low, pieces + [p]) && Ordered(pieces + [p])
  {
    forall j | 0 <= j < |pieces|
      ensures pieces[j].end < p.begin
    {
      assert PieceOk(low, pieces[|pieces| - 1]);
    }
    hide PieceOk;
  }

  lemma LastIsBetween(pieces: seq<Piece>, from: nat, to: nat)
    requires Between(pieces, from, to)
    ensures pieces != [] ==> pieces[|pieces| - 1].end < to
  {
  }

  /** Every part of a name spells its id, and no two of them share a byte or touch. */
  lemma PiecesOk(low: Text)
    ensures AllOk(low, Pieces(low)) && Ordered(Pieces(low))
  {
    hide PieceOk, AllOk, Ordered, HasExt, StemPiece, ExtPiece, DirPieces, AfterLast;
    DirPiecesOk(low, 0);
    StemOk(low);
    var dirs := DirPieces(low, 0);
    assert dirs != [] ==> dirs[|dirs| - 1].end < StemPiece(low).begin by {
      LastIsBetween(dirs, 0, AfterLast(low, SLASH));
    }
    LastPiece(low, dirs, StemPiece(low));
    if HasExt(low) {
      ExtOk(low);
      LastPiece(low, dirs + [StemPiece(low)], ExtPiece(low));
      assert Pieces(low) == dirs + [StemPiece(low)] + [ExtPiece(low)];
    } else {
      assert Pieces(low) == dirs + [StemPiece(low)];
    }
  }

  /** Parts are found for what is spelled, and an icon's key is what its stem spells. */
  lemma StemSpelling(low: Text)
    ensures IdSpelling(StemId(low)) == IconKey(low) && StemPiece(low) in Pieces(low)
    ensures HasExt(low) ==> ExtPiece(low) in Pieces(low)
    ensures StemPiece(low).begin <= StemPiece(low).end
  {
    StemOk(low);
    hide AfterLast, DirPieces, HasExt, Leaf;
    var d := |DirPieces(low, 0)|;
    assert Pieces(low)[d] == StemPiece(low);
    if HasExt(low) {
      assert Pieces(low)[d + 1] == ExtPiece(low);
    }
  }
}
