/**
 Which parts a name has and which of them are looked for by name, told from
 the name's bytes apart from the functions that take it apart
 (src/pak_fix.cpp): where its slashes and its last dot are.
*/
module Components {
  import opened BitStrings
  import opened References
  import opened Scanning
  import opened Spelling
  import opened Wrappers

  // ---- the parts ----

  /** A directory: from the name's front or a slash to the next slash. */
  predicate DirAt(n: Text, b: nat, e: nat) {
    && b <= e < |n| && n[e] == 47 && (b > 0 ==> n[b - 1] == 47)
    && forall i :: b <= i < e ==> n[i] != 47
  }

  predicate LeafAt(n: Text, b: nat) {
    b <= |n| && (b > 0 ==> n[b - 1] == 47) && forall i :: b <= i < |n| ==> n[i] != 47
  }

  /** A stem: from behind the last slash to the last dot behind its first byte, or to the end if there is none. */
  predicate StemAt(n: Text, b: nat, e: nat) {
    && LeafAt(n, b) && b <= e <= |n|
    && (e < |n| ==> b < e && n[e] == 46)
    && forall i :: 0 <= i < |n| && (e < i || (e == |n| && b < i)) ==> n[i] != 46
  }

  /** An extension: what follows the last dot, if no slash follows it and it is neither first nor behind a slash. */
  predicate ExtAt(n: Text, b: nat) {
    && 2 <= b <= |n| && n[b - 1] == 46 && n[b - 2] != 47
    && forall i :: b <= i < |n| ==> n[i] != 46 && n[i] != 47
  }

  /** The part `[b, e)` of a name and what it is a spelling of. */
  predicate Component(n: Text, b: nat, e: nat, id: Id) {
    match id
    case Dir(path) => DirAt(n, b, e) && path == n[..e]
    case Stem(path) => StemAt(n, b, e) && path == n[..e]
    case Ext(path) => ExtAt(n, b) && e == |n| && path == n
  }

  lemma {:induction false} DirPiecesIff(n: Text, from: nat, b: nat, e: nat, id: Id)
    requires from <= |n| && (from > 0 ==> n[from - 1] == 47)
    ensures Piece(b, e, id) in DirPieces(n, from) <==> id.Dir? && from <= b && Component(n, b, e, id)
    decreases |n| - from
  {
    var s := FirstFrom(n, SLASH, from);
    if s < |n| {
      DirPiecesIff(n, s + 1, b, e, id);
      hide FirstFrom;
      if id.Dir? && from <= b && Component(n, b, e, id) && b <= s {
        assert b == from && e == s;
      }
    }
  }

  lemma LeafIff(n: Text, b: nat)
    ensures LeafAt(n, b) <==> b == AfterLast(n, SLASH)
  {
    if LeafAt(n, b) {
      AfterLastUnique(n, SLASH, b);
    }
  }

  lemma StemIff(n: Text, b: nat, e: nat, id: Id)
    ensures Piece(b, e, id) == StemPiece(n) <==> id.Stem? && Component(n, b, e, id)
  {
    hide AfterLast;
    LeafIff(n, b);
    hide LeafAt;
    if b == AfterLast(n, SLASH) && b <= e < |n| && n[e] == 46 && (forall i :: e < i < |n| ==> n[i] != 46) {
      AfterLastUnique(n, DOT, e + 1);
    }
  }

  lemma ExtIff(n: Text, b: nat, e: nat, id: Id)
    ensures HasExt(n) && Piece(b, e, id) == ExtPiece(n) <==> id.Ext? && Component(n, b, e, id)
  {
    hide AfterLast;
    if 2 <= b <= |n| && n[b - 1] == 46 && forall i :: b <= i < |n| ==> n[i] != 46 {
      AfterLastUnique(n, DOT, b);
    }
    var a, d := AfterLast(n, SLASH), AfterLast(n, DOT);
    if HasExt(n) {
      assert n[d - 1] == 46 && n[d - 2] != 47;
    }
  }

  /** The parts of a name are its directories, its stem and its extension, and no others. */
  lemma PiecesIff(n: Text, b: nat, e: nat, id: Id)
    ensures Piece(b, e, id) in Pieces(n) <==> Component(n, b, e, id)
  {
    hide DirPieces, StemPiece, ExtPiece, HasExt, Component;
    DirPiecesIff(n, 0, b, e, id);
    StemIff(n, b, e, id);
    ExtIff(n, b, e, id);
  }

  // ---- names that are looked for ----

  /** A name whose last part is `leaf`. */
  predicate IsNamed(n: Text, leaf: Text) {
    n == leaf || EndsWith(n, [47] + leaf)
  }

  /** Names that the engine or the extender looks for. */
  predicate LookedFor(n: Text) {
    || IsNamed(n, Lit("meta.lsx")) || IsNamed(n, Lit("metadata.lsx")) || IsNamed(n, Lit("metadata.lsf"))
    || IsNamed(n, Lit("config.json")) || IsNamed(n, Lit("bootstrapserver.lua"))
    || IsNamed(n, Lit("bootstrapclient.lua")) || IsNamed(n, Lit("story_header.div"))
  }

  lemma NamedIff(n: Text, leaf: Text)
    requires 47 !in leaf
    ensures IsNamed(n, leaf) <==> Leaf(n) == leaf
  {
    hide AfterLast;
    if n == leaf {
      AfterLastUnique(n, SLASH, 0);
    } else if EndsWith(n, [47] + leaf) {
      var k := |n| - |leaf|;
      assert n[k - 1..] == [47] + leaf;
      assert n[k - 1] == ([47] + leaf)[0] && n[k..] == n[k - 1..][1..] == leaf;
      forall i | k <= i < |n|
        ensures n[i] != 47
      {
        assert n[i] == n[k..][i - k] && n[k..][i - k] in leaf;
      }
      AfterLastUnique(n, SLASH, k);
    }
  }

  lemma LookedForIff(n: Text)
    ensures LookedFor(n) <==> Leaf(n) in FixedNames()
  {
    NoSlashInNames();
    NoSlashInScripts();
    NoSlashInOthers();
    hide Leaf, IsNamed, Lit;
    NamedIff(n, Lit("meta.lsx"));
    NamedIff(n, Lit("metadata.lsx"));
    NamedIff(n, Lit("metadata.lsf"));
    NamedIff(n, Lit("config.json"));
    NamedIff(n, Lit("bootstrapserver.lua"));
    NamedIff(n, Lit("bootstrapclient.lua"));
    NamedIff(n, Lit("story_header.div"));
  }

  lemma NoSlashInNames()
    ensures 47 !in Lit("meta.lsx") && 47 !in Lit("metadata.lsx") && 47 !in Lit("metadata.lsf")
  {
  }

  lemma NoSlashInScripts()
    ensures 47 !in Lit("bootstrapserver.lua") && 47 !in Lit("bootstrapclient.lua")
  {
  }

  lemma NoSlashInOthers()
    ensures 47 !in Lit("config.json") && 47 !in Lit("story_header.div")
  {
  }

  // ---- types of files, and what a path holds ----

  /** A name of a type: it ends in a dot and the type, and something other than a slash is before the dot. */
  predicate Typed(n: Text, ending: Text) {
    |n| > |ending| && EndsWith(n, ending) && n[|n| - |ending| - 1] != 47
  }

  lemma TypedIff(n: Text, ext: Text)
    requires Lowered(n) == n && ext != [] && 46 !in ext && 47 !in ext
    ensures Extension(n) == ext <==> Typed(n, [46] + ext)
    ensures Typed(n, [46] + ext) ==> HasExt(n) && ExtAt(n, |n| - |ext|)
  {
    hide Extension, Typed, HasExt, ExtAt, Lowered;
    if Extension(n) == ext {
      ExtensionIsType(n, ext);
    }
    if Typed(n, [46] + ext) {
      TypeIsExtension(n, ext);
    }
  }

  lemma ExtensionIsType(n: Text, ext: Text)
    requires Lowered(n) == n && ext != [] && Extension(n) == ext
    ensures Typed(n, [46] + ext)
  {
    hide AfterLast, Lowered;
    var leaf := Leaf(n);
    var a, d := AfterLast(n, SLASH), AfterLast(leaf, DOT);
    FoldedPart(n, a);
    FoldedPart(leaf, d);
    assert leaf[d..] == n[a + d..] == ext && n[a + d - 1] == leaf[d - 1] == 46;
    assert n[a + d - 1..] == [46] + ext;
    assert n[a + d - 2] == leaf[d - 2];
  }

  lemma TypeIsExtension(n: Text, ext: Text)
    requires Lowered(n) == n && ext != [] && 46 !in ext && 47 !in ext && Typed(n, [46] + ext)
    ensures Extension(n) == ext && HasExt(n) && ExtAt(n, |n| - |ext|)
  {
    hide AfterLast, Lowered;
    var leaf, k := Leaf(n), |n| - |ext|;
    var a := AfterLast(n, SLASH);
    assert n[k - 1..] == [46] + ext && n[k..] == n[k - 1..][1..];
    forall i | k <= i < |n|
      ensures n[i] != 46 && n[i] != 47
    {
      assert n[i] == n[k..][i - k] && n[k..][i - k] in ext;
    }
    assert n[k - 1] == n[k - 1..][0] == 46 && n[k - 2] != 47;
    AfterLastUnique(n, DOT, k);
    assert a < k - 1;
    AfterLastUnique(leaf, DOT, k - a);
    assert leaf[k - a..] == n[k..];
    FoldedPart(n, k);
  }

  lemma FoldedPart(n: Text, k: nat)
    requires Lowered(n) == n && k <= |n|
    ensures Lowered(n[k..]) == n[k..]
  {
    LoweredSlice(n, k, |n|);
    assert n[k..] == n[k..|n|];
  }

  predicate OccursAt(n: Text, part: Text, i: nat) {
    i + |part| <= |n| && n[i..i + |part|] == part
  }

  lemma {:induction false} FindLaw(n: Text, part: Text, from: nat)
    requires from <= |n| && part != []
    ensures var r := FindText(n, part, from);
      && (r < |n| ==> OccursAt(n, part, r))
      && forall i: nat :: from <= i && OccursAt(n, part, i) ==> r <= i
    decreases |n| - from
  {
    if from < |n| && !OccursAt(n, part, from) {
      FindLaw(n, part, from + 1);
    }
  }

  lemma ContainsIff(n: Text, part: Text)
    requires part != []
    ensures Contains(n, part) <==> exists i :: 0 <= i < |n| && OccursAt(n, part, i)
  {
    FindLaw(n, part, 0);
  }

  // ---- textures ----

  /** A texture of the GUI. */
  predicate GuiTexture(n: Text) {
    Typed(n, Lit(".dds")) && exists i :: 0 <= i < |n| && OccursAt(n, Lit("/gui/"), i)
  }

  /** A directory whose textures are named after icons. */
  predicate InIconDirectory(n: Text) {
    && (exists i :: 0 <= i < |n| && OccursAt(n, Lit("/gui/assets"), i))
    && exists b :: 0 <= b <= |n| && LeafAt(n, b)
         && (|| EndsWith(n[..b], Lit("/tooltips/icons/")) || EndsWith(n[..b], Lit("/tooltips/itemicons/"))
             || EndsWith(n[..b], Lit("/controlleruiicons/skills_png/"))
             || EndsWith(n[..b], Lit("/controlleruiicons/items_png/")))
  }

  lemma DdsIs()
    ensures Lit(".dds") == [46] + Lit("dds") && 46 !in Lit("dds") && 47 !in Lit("dds")
  {
  }

  lemma TextureIff(n: Text)
    requires Lowered(n) == n
    ensures IsTexture(n) <==> GuiTexture(n)
  {
    hide HasExt, Extension, Typed, Contains, OccursAt, Lowered;
    DdsIs();
    hide Lit;
    TypedIff(n, Lit("dds"));
    ContainsIff(n, Lit("/gui/"));
  }

  lemma IconDirectoryIff(n: Text)
    ensures IconDirectory(n) <==> InIconDirectory(n)
  {
    hide Lit, Contains, OccursAt, EndsWith, LeafAt, AfterLast;
    ContainsIff(n, Lit("/gui/assets"));
    var a := AfterLast(n, SLASH);
    LeafIff(n, a);
    forall b: nat | LeafAt(n, b)
      ensures b == a
    {
      LeafIff(n, b);
    }
    var dirs := IconDirs();
    assert dirs[0] == Lit("/tooltips/icons/") && dirs[1] == Lit("/tooltips/itemicons/");
    assert dirs[2] == Lit("/controlleruiicons/skills_png/") && dirs[3] == Lit("/controlleruiicons/items_png/");
  }

  // ---- directories that the engine spells its own way ----

  predicate EngineSpelling(t: Text) {
    || t == Lit("GUI") || t == Lit("Assets") || t == Lit("AssetsLowRes") || t == Lit("Tooltips") || t == Lit("Icons")
    || t == Lit("ItemIcons") || t == Lit("ControllerUIIcons") || t == Lit("skills_png") || t == Lit("items_png")
  }

  predicate GuiAt(n: Text, c: nat, d: nat) {
    (DirAt(n, c, d) || StemAt(n, c, d)) && n[c..d] == Lit("gui")
  }

  /** A directory from the last directory or stem on that is "gui". */
  ghost predicate BelowGui(n: Text, b: nat, e: nat) {
    && DirAt(n, b, e)
    && (exists c: nat, d: nat :: GuiAt(n, c, d))
    && forall c: nat, d: nat :: GuiAt(n, c, d) ==> c <= b
  }

  lemma DistinctKeys()
    ensures Lit("itemicons") != Lit("items_png")
  {
    assert Lit("itemicons")[4] != Lit("items_png")[4];
  }

  /** The table of spellings is by what they fold to. */
  lemma CanonicalIff(t: Text, c: Text)
    ensures t in Canonical() && Canonical()[t] == c <==> EngineSpelling(c) && Lowered(c) == t
  {
    FoldedLiterals();
    FoldedAssets();
    FoldedIcons();
    FoldedController();
    FoldedSkills();
    DistinctKeys();
    hide Lit, Lowered;
  }

  /** A part from `k` on, with directories only from there to it, that an event pins. */
  predicate PinnedFrom(n: Text, pieces: seq<Piece>, k: nat, e: Event) {
    exists j :: k <= j < |pieces| && (forall m :: k <= m <= j ==> pieces[m].id.Dir?) && PinnedAs(n, pieces[j], e)
  }

  lemma {:induction false} PinsIff(n: Text, pieces: seq<Piece>, k: nat, e: Event)
    requires k <= |pieces|
    ensures e in CanonicalPins(n, pieces, k) <==> PinnedFrom(n, pieces, k, e)
    decreases |pieces| - k
  {
    hide PinnedAs;
    if k < |pieces| && pieces[k].id.Dir? {
      hide CanonicalPins;
      PinsIff(n, pieces, k + 1, e);
      OnePin(n, pieces, k, e);
      if PinnedFrom(n, pieces, k + 1, e) {
        var j :| k + 1 <= j < |pieces| && (forall m :: k + 1 <= m <= j ==> pieces[m].id.Dir?)
                 && PinnedAs(n, pieces[j], e);
        assert forall m :: k <= m <= j ==> pieces[m].id.Dir?;
      }
    } else if k < |pieces| {
      assert !pieces[k].id.Dir?;
    }
  }

  predicate PinnedAs(n: Text, p: Piece, e: Event) {
    e.Fixed? && e.id == p.id && EngineSpelling(e.text) && Lowered(e.text) == PieceText(n, p)
  }

  lemma OnePin(n: Text, pieces: seq<Piece>, k: nat, e: Event)
    requires k < |pieces| && pieces[k].id.Dir?
    ensures e in CanonicalPins(n, pieces, k) <==> PinnedAs(n, pieces[k], e) || e in CanonicalPins(n, pieces, k + 1)
  {
    hide EngineSpelling, Canonical, PieceText;
    if e.Fixed? {
      CanonicalIff(PieceText(n, pieces[k]), e.text);
    }
  }

  lemma {:induction false} LastGuiLaw(n: Text, pieces: seq<Piece>, k: nat)
    requires k < |pieces|
    ensures var r := LastGui(n, pieces, k);
      && (r < k ==> PieceText(n, pieces[r]) == Lit("gui"))
      && forall m :: 0 <= m < k && (r >= k || r < m) ==> PieceText(n, pieces[m]) != Lit("gui")
  {
    hide PieceText, Lit;
    if k > 0 {
      LastGuiLaw(n, pieces, k - 1);
    }
  }

  /** The parts of a name with an extension, in order: its directories, its stem and its extension. */
  lemma PartsInOrder(n: Text)
    requires HasExt(n)
    ensures var pieces := Pieces(n);
      && |pieces| >= 2 && pieces[|pieces| - 1].id.Ext? && pieces[|pieces| - 2].id.Stem?
      && (forall k :: 0 <= k < |pieces| - 2 ==> pieces[k].id.Dir?)
      && Ordered(pieces)
      && forall k :: 0 <= k < |pieces| ==>
           Component(n, pieces[k].begin, pieces[k].end, pieces[k].id) && pieces[k].begin <= pieces[k].end <= |n|
  {
    hide HasExt, Component, AfterLast, DirPieces, PieceOk;
    PiecesOk(n);
    DirPiecesOk(n, 0);
    var pieces := Pieces(n);
    forall k | 0 <= k < |pieces|
      ensures Component(n, pieces[k].begin, pieces[k].end, pieces[k].id)
      ensures pieces[k].begin <= pieces[k].end <= |n|
    {
      PiecesIff(n, pieces[k].begin, pieces[k].end, pieces[k].id);
      PieceFits(n, pieces[k]);
    }
  }

  lemma PieceFits(n: Text, p: Piece)
    requires PieceOk(n, p)
    ensures p.begin <= p.end <= |n|
  {
  }

  /** A part that is a directory or the stem is before the last, and one that is "gui" is not after the last "gui". */
  lemma PartIndex(n: Text, b: nat, e: nat, id: Id) returns (k: nat)
    requires HasExt(n) && Component(n, b, e, id) && !id.Ext?
    ensures k < |Pieces(n)| - 1 && Pieces(n)[k] == Piece(b, e, id) && (id.Dir? ==> k < |Pieces(n)| - 2)
  {
    PartsInOrder(n);
    hide HasExt, Component, Pieces, Ordered;
    PiecesIff(n, b, e, id);
    k :| k < |Pieces(n)| && Pieces(n)[k] == Piece(b, e, id);
  }

  /** The parts that are "gui" are those before the name's last part that the search finds. */
  lemma GuiParts(n: Text, c: nat, d: nat)
    requires HasExt(n)
    ensures var pieces := Pieces(n);
      GuiAt(n, c, d) <==>
        exists m :: 0 <= m < |pieces| - 1 && pieces[m].begin == c && pieces[m].end == d
                    && PieceText(n, pieces[m]) == Lit("gui")
  {
    PartsInOrder(n);
    hide HasExt, Pieces, Ordered, Lit, DirAt, StemAt;
    var pieces := Pieces(n);
    if GuiAt(n, c, d) {
      var m := PartIndex(n, c, d, if DirAt(n, c, d) then Dir(n[..d]) else Stem(n[..d]));
    }
    if m :| 0 <= m < |pieces| - 1 && pieces[m].begin == c && pieces[m].end == d
            && PieceText(n, pieces[m]) == Lit("gui") {
      assert pieces[m].id.Dir? || m == |pieces| - 2;
      assert Component(n, c, d, pieces[m].id);
    }
  }

  lemma LastGuiFound(n: Text, pieces: seq<Piece>, from: nat)
    requires HasExt(n) && pieces == Pieces(n) && from == LastGui(n, pieces, |pieces| - 1) && from < |pieces| - 1
    ensures GuiAt(n, pieces[from].begin, pieces[from].end)
  {
    hide HasExt, Pieces, Lit, GuiAt, PieceText;
    LastGuiLaw(n, pieces, |pieces| - 1);
    GuiParts(n, pieces[from].begin, pieces[from].end);
  }

  lemma LastGuiLast(n: Text, pieces: seq<Piece>, from: nat, c: nat, d: nat)
    requires HasExt(n) && pieces == Pieces(n) && |pieces| > 0 && from == LastGui(n, pieces, |pieces| - 1)
    requires GuiAt(n, c, d)
    ensures from < |pieces| - 1 && c <= pieces[from].begin
  {
    hide HasExt, Pieces, Lit, GuiAt, PieceText, LastGui, Component;
    LastGuiLaw(n, pieces, |pieces| - 1);
    GuiParts(n, c, d);
    var m: nat :| m < |pieces| - 1 && pieces[m].begin == c && PieceText(n, pieces[m]) == Lit("gui");
    PartsInOrder(n);
    InOrder(pieces, m, from);
  }

  lemma InOrder(pieces: seq<Piece>, j: nat, k: nat)
    requires Ordered(pieces) && j <= k < |pieces|
    requires pieces[k].begin <= pieces[k].end && pieces[j].begin <= pieces[j].end
    ensures pieces[j].begin <= pieces[k].begin && (j < k ==> pieces[j].begin < pieces[k].begin)
  {
  }

  lemma GuiIff(n: Text, pieces: seq<Piece>, from: nat, k: nat)
    requires HasExt(n) && pieces == Pieces(n) && k + 2 < |pieces| && from == LastGui(n, pieces, |pieces| - 1)
    ensures from <= k <==> BelowGui(n, pieces[k].begin, pieces[k].end)
  {
    PartsInOrder(n);
    assert DirAt(n, pieces[k].begin, pieces[k].end);
    hide HasExt, Pieces, LastGui, GuiAt, Component, DirAt, Ordered;
    if from < |pieces| - 1 {
      LastGuiFound(n, pieces, from);
      if from <= k {
        InOrder(pieces, from, k);
      } else {
        InOrder(pieces, k, from);
      }
    }
    forall c: nat, d: nat | GuiAt(n, c, d)
      ensures from < |pieces| - 1 && c <= pieces[from].begin
    {
      LastGuiLast(n, pieces, from, c, d);
    }
  }

  /** A directory of a name that the engine spells its own way, and that spelling. */
  ghost predicate EngineSpells(n: Text, id: Id, text: Text) {
    && id.Dir? && EngineSpelling(text)
    && exists b: nat, e: nat :: Component(n, b, e, id) && BelowGui(n, b, e) && Lowered(text) == n[b..e]
  }

  lemma PinnedIsDirectory(n: Text, pieces: seq<Piece>, from: nat, j: nat, e: Event)
    requires HasExt(n) && pieces == Pieces(n) && |pieces| > 0 && from == LastGui(n, pieces, |pieces| - 1)
    requires from <= j < |pieces| && pieces[j].id.Dir? && PinnedAs(n, pieces[j], e)
    ensures EngineSpells(n, e.id, e.text)
  {
    hide HasExt, Pieces, LastGui, Ordered, BelowGui, EngineSpelling, Component, Lowered;
    PartsInOrder(n);
    var b, d := pieces[j].begin, pieces[j].end;
    assert Component(n, b, d, e.id) && PieceText(n, pieces[j]) == n[b..d];
    GuiIff(n, pieces, from, j);
  }

  lemma DirectoryIsPinned(n: Text, pieces: seq<Piece>, from: nat, e: Event)
    requires HasExt(n) && pieces == Pieces(n) && |pieces| > 0 && from == LastGui(n, pieces, |pieces| - 1)
    requires e.Fixed? && EngineSpells(n, e.id, e.text)
    ensures PinnedFrom(n, pieces, from, e)
  {
    hide HasExt, Pieces, LastGui, Ordered, GuiAt, EngineSpelling, Component, Lowered, PinnedAs;
    PartsInOrder(n);
    var b: nat, d: nat :| Component(n, b, d, e.id) && BelowGui(n, b, d) && Lowered(e.text) == n[b..d];
    var k := PartIndex(n, b, d, e.id);
    GuiIff(n, pieces, from, k);
    PinsAt(n, pieces[k], e);
  }

  lemma PinsAt(n: Text, p: Piece, e: Event)
    requires p.begin <= p.end <= |n| && e.Fixed? && e.id == p.id && EngineSpelling(e.text)
    requires Lowered(e.text) == n[p.begin..p.end]
    ensures PinnedAs(n, p, e)
  {
  }

  lemma DirectoryPinsIff(n: Text, e: Event)
    requires HasExt(n)
    ensures e in DirectoryPins(n) <==> e.Fixed? && EngineSpells(n, e.id, e.text)
  {
    hide HasExt, Pieces, LastGui, CanonicalPins, EngineSpells, Ordered, Component;
    PartsInOrder(n);
    var pieces := Pieces(n);
    var from := LastGui(n, pieces, |pieces| - 1);
    PinsIff(n, pieces, from, e);
    if PinnedFrom(n, pieces, from, e) {
      var j: nat :| from <= j < |pieces| && (forall m :: from <= m <= j ==> pieces[m].id.Dir?)
                    && PinnedAs(n, pieces[j], e);
      PinnedIsDirectory(n, pieces, from, j, e);
    }
    hide PinnedFrom;
    if e.Fixed? && EngineSpells(n, e.id, e.text) {
      DirectoryIsPinned(n, pieces, from, e);
    }
  }

  // ---- what an entry's name says ----

  /**
   What the name of entry `i`, folded, says: that each of its parts spells what
   it is a spelling of, and which parts are to be spelled as they are, in
   capitals, or as the engine does.
  */
  ghost predicate EntrySaid(n: Text, i: nat, e: Event) {
    match e
    case Occ(id, at) => at.InName? && at.index == i && Component(n, at.pos, at.pos + at.len, id)
    case Own(id, at) =>
      at.InName? && at.index == i && !id.Dir? && LookedFor(n) && Component(n, at.pos, at.pos + at.len, id)
    case Fixed(id, text) =>
      GuiTexture(n) && ((id == Ext(n) && text == Lit("DDS")) || (InIconDirectory(n) && EngineSpells(n, id, text)))
    case Join(_) => false
  }

  lemma PieceEventsIff(n: Text, i: nat, e: Event)
    ensures e in PieceEvents(Pieces(n), i) <==>
      e.Occ? && e.at.InName? && e.at.index == i && Component(n, e.at.pos, e.at.pos + e.at.len, e.id)
  {
    PiecesOk(n);
    var pieces := Pieces(n);
    hide Pieces, Component, PieceOk, Ordered;
    if e.Occ? && e.at.InName? {
      PiecesIff(n, e.at.pos, e.at.pos + e.at.len, e.id);
      if e.at.index == i && Component(n, e.at.pos, e.at.pos + e.at.len, e.id) {
        var k: nat :| k < |pieces| && pieces[k] == Piece(e.at.pos, e.at.pos + e.at.len, e.id);
        assert PieceEvents(pieces, i)[k] == e;
      }
    }
    if e in PieceEvents(pieces, i) {
      var k: nat :| k < |pieces| && PieceEvents(pieces, i)[k] == e;
      PieceFits(n, pieces[k]);
      assert pieces[k] in pieces;
      assert Piece(e.at.pos, e.at.pos + e.at.len, e.id) == pieces[k];
    }
  }

  lemma AtIff(p: Piece, i: nat, at: Occurrence)
    requires p.begin <= p.end
    ensures at == At(p, i) <==>
      at.InName? && at.index == i && at.pos == p.begin && at.pos + at.len == p.end
  {
  }

  lemma StemOwnIff(n: Text, i: nat, e: Event)
    ensures e == Own(StemId(n), At(StemPiece(n), i)) <==>
      && e.Own? && e.at.InName? && e.at.index == i && e.id.Stem?
      && Component(n, e.at.pos, e.at.pos + e.at.len, e.id)
  {
    StemOk(n);
    hide AfterLast, Component, StemEnd, PieceOk;
    PieceFits(n, StemPiece(n));
    if e.Own? {
      AtIff(StemPiece(n), i, e.at);
      if e.at.InName? {
        StemIff(n, e.at.pos, e.at.pos + e.at.len, e.id);
      }
    }
  }

  lemma ExtOwnIff(n: Text, i: nat, e: Event)
    ensures HasExt(n) && e == Own(ExtId(n), At(ExtPiece(n), i)) <==>
      && e.Own? && e.at.InName? && e.at.index == i && e.id.Ext?
      && Component(n, e.at.pos, e.at.pos + e.at.len, e.id)
  {
    hide AfterLast, Component, HasExt;
    if e.Own? {
      AtIff(ExtPiece(n), i, e.at);
      if e.at.InName? {
        ExtIff(n, e.at.pos, e.at.pos + e.at.len, e.id);
      }
    }
  }

  lemma NamePinsIff(n: Text, i: nat, e: Event)
    ensures e in NamePins(n, i) <==>
      && e.Own? && e.at.InName? && e.at.index == i && !e.id.Dir? && LookedFor(n)
      && Component(n, e.at.pos, e.at.pos + e.at.len, e.id)
  {
    hide FixedNames, LookedFor, Leaf, HasExt, StemPiece, ExtPiece, Component, StemId, ExtId, At;
    LookedForIff(n);
    StemOwnIff(n, i, e);
    ExtOwnIff(n, i, e);
  }

  lemma TexturePinsIff(n: Text, e: Event)
    requires Lowered(n) == n
    ensures e in TexturePins(n) <==>
      && e.Fixed? && GuiTexture(n)
      && ((e.id == Ext(n) && e.text == Lit("DDS")) || (InIconDirectory(n) && EngineSpells(n, e.id, e.text)))
  {
    TextureIff(n);
    IconDirectoryIff(n);
    assert IsTexture(n) ==> HasExt(n);
    hide IsTexture, GuiTexture, IconDirectory, InIconDirectory, DirectoryPins, EngineSpells, Lit, Lowered, HasExt;
    if GuiTexture(n) {
      DirectoryPinsIff(n, e);
    }
  }

  /** What is logged of an entry is what its name says. */
  lemma EntryIff(n: Text, i: nat, e: Event)
    requires Lowered(n) == n
    ensures e in EntryEvents(n, i) <==> EntrySaid(n, i, e)
  {
    hide PieceEvents, Pieces, NamePins, TexturePins, Component, LookedFor, GuiTexture, InIconDirectory, EngineSpells;
    hide Lit, Lowered;
    PieceEventsIff(n, i, e);
    NamePinsIff(n, i, e);
    TexturePinsIff(n, e);
  }
}
