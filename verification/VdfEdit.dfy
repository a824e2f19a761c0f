/**
 Setting the game's launch options in Steam's text (set_launch_options of
 install.py): the value replaced, or a line or a block put in, and that the
 edited text is the same tree but for the options.
*/
module VdfEdit {
  import opened Vdf
  import opened VdfText
  import opened VdfTree
  import opened Wrappers

  type Lower = string -> string

  const APP_ID := "1086940"
  const OPTIONS := "LaunchOptions"

  function AppsPath(): (path: seq<string>)
    ensures |path| == 5
  {
    ["UserLocalConfigStore", "Software", "Valve", "Steam", "apps"]
  }

  // ---- finding nodes ----

  /** The first node of a key, whatever its case; the length if there is none. */
  function IndexOf(lower: Lower, nodes: seq<Node>, key: string): (r: nat)
    ensures r <= |nodes|
  {
    if nodes == [] then 0
    else if lower(nodes[0].key) == lower(key) then 0
    else 1 + IndexOf(lower, nodes[1..], key)
  }

  function TreeIndexOf(lower: Lower, trees: seq<Tree>, key: string): (r: nat)
    ensures r <= |trees|
  {
    if trees == [] then 0
    else if lower(trees[0].key) == lower(key) then 0
    else 1 + TreeIndexOf(lower, trees[1..], key)
  }

  function PathTo(lower: Lower, nodes: seq<Node>, path: seq<string>): Option<Node>
    requires path != []
    decreases |path|
  {
    var i := IndexOf(lower, nodes, path[0]);
    if i == |nodes| then None
    else if |path| == 1 then Some(nodes[i])
    else if nodes[i].Block? then PathTo(lower, nodes[i].children, path[1..])
    else None
  }

  /** The tree with what a path leads to changed. */
  function SetAt(lower: Lower, trees: seq<Tree>, path: seq<string>, change: Change): (r: seq<Tree>)
    requires path != []
    decreases |path|
  {
    var i := TreeIndexOf(lower, trees, path[0]);
    if i == |trees| then trees
    else if |path| == 1 then trees[i := change(trees[i])]
    else if trees[i].Branch? then trees[i := Branch(trees[i].key, SetAt(lower, trees[i].kids, path[1..], change))]
    else trees
  }

  method FindChild(lower: Lower, nodes: seq<Node>, key: string) returns (i: nat)
    ensures i == IndexOf(lower, nodes, key)
  {
    i := 0;
    assert nodes[0..] == nodes;
    while i < |nodes|
      invariant i <= |nodes| && IndexOf(lower, nodes, key) == i + IndexOf(lower, nodes[i..], key)
    {
      if lower(nodes[i].key) == lower(key) {
        return;
      }
      assert nodes[i..][1..] == nodes[i + 1..];
      i := i + 1;
    }
  }

  lemma {:induction false} PlainAt(nodes: seq<Node>, k: nat)
    requires k < |nodes|
    ensures Plain(nodes)[k] == PlainOne(nodes[k])
  {
    if k > 0 {
      PlainAt(nodes[1..], k - 1);
    }
  }

  lemma {:induction false} SameIndex(lower: Lower, nodes: seq<Node>, key: string)
    ensures TreeIndexOf(lower, Plain(nodes), key) == IndexOf(lower, nodes, key)
  {
    if nodes != [] {
      SameIndex(lower, nodes[1..], key);
      assert Plain(nodes)[1..] == Plain(nodes[1..]);
    }
  }

  /** What follows the first node of a list, where the path is not for it. */
  lemma SetAtRest(lower: Lower, first: Tree, rest: seq<Tree>, path: seq<string>, change: Change)
    requires path != [] && lower(first.key) != lower(path[0])
    ensures SetAt(lower, [first] + rest, path, change) == [first] + SetAt(lower, rest, path, change)
  {
    assert ([first] + rest)[1..] == rest;
  }

  lemma PathToRest(lower: Lower, first: Node, rest: seq<Node>, path: seq<string>)
    requires path != []
    ensures PathTo(lower, [first] + rest, path) ==
      if lower(first.key) != lower(path[0]) then PathTo(lower, rest, path)
      else if |path| == 1 then Some(first)
      else if first.Block? then PathTo(lower, first.children, path[1..])
      else None
  {
    assert ([first] + rest)[1..] == rest;
  }

  lemma SetAtFirst(lower: Lower, first: Tree, rest: seq<Tree>, path: seq<string>, change: Change)
    requires path != [] && lower(first.key) == lower(path[0])
    ensures SetAt(lower, [first] + rest, path, change) ==
      if |path| == 1 then [change(first)] + rest
      else if first.Branch? then [Branch(first.key, SetAt(lower, first.kids, path[1..], change))] + rest
      else [first] + rest
  {
  }

  // ---- the node a path leads to, and its mark ----

  predicate TokenIs(t: seq<Token>, n: Node) {
    Mark(n) < |t| && t[Mark(n)] == if n.Value? then Str(n.text) else Close
  }

  ghost predicate PathMarked(lower: Lower, t: seq<Token>, nodes: seq<Node>, path: seq<string>, n: Node, change: Change)
    requires path != []
  {
    && TokenIs(t, n) && Mark(n) in Marks(nodes)
    && Changed(nodes, Mark(n), change) == SetAt(lower, Plain(nodes), path, change)
  }

  /** Changing the node with the mark of what a path leads to changes what the path leads to, and only that. */
  lemma {:induction false} PathChanged(lower: Lower, t: seq<Token>, i: nat, path: seq<string>, change: Change)
    requires i <= |t| && Children(t, i).Some? && path != []
    requires PathTo(lower, Children(t, i).value.0, path).Some?
    ensures PathMarked(lower, t, Children(t, i).value.0, path, PathTo(lower, Children(t, i).value.0, path).value,
                       change)
    decreases |t| - i, 1
  {
    hide Children, Plain, PlainOne, Changed, ChangedOne, Marks, MarksOne, SetAt, PathTo;
    AnyChildren(t, i);
    if i == |t| || t[i] == Close {
      NoPath(lower, path);
      assert false;
    } else if ValueAt(t, i) {
      ValueChildren(t, i);
      var v := Value(t[i].text, t[i + 1].text, i + 1);
      var rest := Children(t, i + 2).value.0;
      PathToRest(lower, v, rest, path);
      MarksWithin(t, i + 2);
      MarksFirst(v, rest);
      MarksOfValue(v);
      PlainFirst(v, rest);
      PlainKey(v);
      if lower(v.key) != lower(path[0]) {
        PathChanged(lower, t, i + 2, path, change);
        var n := PathTo(lower, rest, path).value;
        ChangedFirst(v, rest, Mark(n), change);
        NoChangeOne(v, Mark(n), change);
        SetAtRest(lower, PlainOne(v), Plain(rest), path, change);
      } else {
        ChangedFirst(v, rest, i + 1, change);
        NoChange(rest, i + 1, change);
        SetAtFirst(lower, PlainOne(v), Plain(rest), path, change);
        ChangedItself(v, change);
      }
    } else {
      PathChangedBlock(lower, t, i, path, change);
    }
  }

  lemma NoPath(lower: Lower, path: seq<string>)
    requires path != []
    ensures PathTo(lower, [], path) == None
  {
  }

  lemma PlainKey(n: Node)
    ensures PlainOne(n).key == n.key && (n.Block? <==> PlainOne(n).Branch?)
    ensures n.Block? ==> PlainOne(n).kids == Plain(n.children)
  {
  }

  lemma ChangedItself(n: Node, change: Change)
    ensures ChangedOne(n, Mark(n), change) == change(PlainOne(n))
  {
  }

  lemma ChangedInside(b: Node, mark: nat, change: Change)
    requires b.Block? && b.close != mark
    ensures ChangedOne(b, mark, change) == Branch(b.key, Changed(b.children, mark, change))
  {
  }

  lemma {:induction false} PathChangedBlock(lower: Lower, t: seq<Token>, i: nat, path: seq<string>, change: Change)
    requires BlockAt(t, i) && Children(t, i).Some? && path != []
    requires PathTo(lower, Children(t, i).value.0, path).Some?
    ensures PathMarked(lower, t, Children(t, i).value.0, path, PathTo(lower, Children(t, i).value.0, path).value,
                       change)
    decreases |t| - i, 0
  {
    hide Children, Plain, PlainOne, Changed, ChangedOne, Marks, MarksOne, SetAt, PathTo;
    BlockChildren(t, i);
    var kids, c := Children(t, i + 2).value.0, Children(t, i + 2).value.1;
    var rest := Children(t, c + 1).value.0;
    var b := Block(t[i].text, kids, c);
    MarksFirst(b, rest);
    MarksOfBlock(b);
    MarksWithin(t, i + 2);
    MarksWithin(t, c + 1);
    PathToRest(lower, b, rest, path);
    PlainFirst(b, rest);
    PlainKey(b);
    if lower(b.key) != lower(path[0]) {
      PathChanged(lower, t, c + 1, path, change);
      var n := PathTo(lower, rest, path).value;
      ChangedFirst(b, rest, Mark(n), change);
      NoChangeOne(b, Mark(n), change);
      SetAtRest(lower, PlainOne(b), Plain(rest), path, change);
    } else if |path| == 1 {
      ChangedFirst(b, rest, c, change);
      NoChange(rest, c, change);
      SetAtFirst(lower, PlainOne(b), Plain(rest), path, change);
      ChangedItself(b, change);
    } else {
      PathChanged(lower, t, i + 2, path[1..], change);
      var n := PathTo(lower, kids, path[1..]).value;
      ChangedFirst(b, rest, Mark(n), change);
      NoChange(rest, Mark(n), change);
      SetAtFirst(lower, PlainOne(b), Plain(rest), path, change);
      ChangedInside(b, Mark(n), change);
    }
  }

  // ---- the edit ----

  /** Where the options go: over the value there is, at the end of the game's block, or in a new block of its own. */
  datatype Spot = Over(at: nat) | InApp(close: nat) | InApps(close: nat)

  /** Where the options go and what they are; none if the blocks are not there, or the options are a block. */
  function FindSpot(lower: Lower, root: seq<Node>): Option<(Spot, string)> {
    var apps := PathTo(lower, root, AppsPath());
    if apps == None || apps.value.Value? then None
    else
      var i := IndexOf(lower, apps.value.children, APP_ID);
      if i == |apps.value.children| || apps.value.children[i].Value? then Some((InApps(apps.value.close), ""))
      else
        var app := apps.value.children[i];
        var j := IndexOf(lower, app.children, OPTIONS);
        if j == |app.children| then Some((InApp(app.close), ""))
        else if app.children[j].Value? then Some((Over(app.children[j].at), app.children[j].text))
        else None
  }

  function Indent(text: string, close: nat): string
    requires close <= |text|
  {
    text[LineStart(text, close)..close]
  }

  /** The line of the options: a tab more than the brace, the key, two tabs and the value. */
  function OptionsLine(indent: string, new': string): string {
    Layout(OptionsPieces(indent, new')) + "\n"
  }

  function OptionsPieces(indent: string, new': string): (r: seq<Piece>)
    ensures |r| == 2
  {
    [Piece(indent + "\t", Str(OPTIONS)), Piece("\t\t", Str(new'))]
  }

  /** A block for the game with the options in it, each of its parts on a line of its own. */
  function AppBlock(indent: string, new': string): string {
    Layout(AppPieces(indent, new')) + "\n"
  }

  function AppPieces(indent: string, new': string): (r: seq<Piece>)
    ensures |r| == 5
  {
    [Piece(indent + "\t", Str(APP_ID)), Piece("\n" + indent + "\t", Open), Piece("\n" + indent + "\t\t", Str(OPTIONS)),
     Piece("\t\t", Str(new')), Piece("\n" + indent + "\t", Close)]
  }

  function PutBefore(text: string, close: nat, line: string): string
    requires close <= |text|
  {
    text[..LineStart(text, close)] + line + text[LineStart(text, close)..]
  }

  function SpotOk(text: string, lexemes: seq<Lexeme>, spot: Spot): bool {
    match spot
    case Over(at) => at < |lexemes| && lexemes[at].start <= lexemes[at].end <= |text|
    case InApp(close) => close < |lexemes| && lexemes[close].start <= |text|
    case InApps(close) => close < |lexemes| && lexemes[close].start <= |text|
  }

  function NewText(text: string, lexemes: seq<Lexeme>, spot: Spot, new': string): string
    requires SpotOk(text, lexemes, spot)
  {
    match spot
    case Over(at) => text[..lexemes[at].start] + ("\"" + Escape(new') + "\"") + text[lexemes[at].end..]
    case InApp(close) =>
      PutBefore(text, lexemes[close].start, OptionsLine(Indent(text, lexemes[close].start), new'))
    case InApps(close) =>
      PutBefore(text, lexemes[close].start, AppBlock(Indent(text, lexemes[close].start), new'))
  }

  // ---- what the edit is of the tree ----

  function OptionsPath(): (path: seq<string>)
    ensures |path| == 7
  {
    AppsPath() + [APP_ID, OPTIONS]
  }

  function SpotPath(spot: Spot): (path: seq<string>)
    ensures path != []
  {
    match spot
    case Over(_) => OptionsPath()
    case InApp(_) => AppsPath() + [APP_ID]
    case InApps(_) => AppsPath()
  }

  function SpotChange(spot: Spot, new': string): Change {
    match spot
    case Over(_) => SetText(new')
    case InApp(_) => Append([Leaf(OPTIONS, new')])
    case InApps(_) => Append([Branch(APP_ID, [Leaf(OPTIONS, new')])])
  }

  function SpotMark(spot: Spot): nat {
    match spot
    case Over(at) => at
    case InApp(close) => close
    case InApps(close) => close
  }

  lemma {:induction false} PathOn(lower: Lower, nodes: seq<Node>, path: seq<string>, more: seq<string>)
    requires path != [] && more != [] && PathTo(lower, nodes, path).Some? && PathTo(lower, nodes, path).value.Block?
    ensures PathTo(lower, nodes, path + more) == PathTo(lower, PathTo(lower, nodes, path).value.children, more)
    decreases |path|
  {
    var i := IndexOf(lower, nodes, path[0]);
    assert (path + more)[0] == path[0] && (path + more)[1..] == path[1..] + more;
    if |path| > 1 {
      PathOn(lower, nodes[i].children, path[1..], more);
    } else {
      assert path[1..] + more == more;
    }
  }

  /** The spot is what its path leads to. */
  lemma SpotIsThere(lower: Lower, root: seq<Node>)
    requires FindSpot(lower, root).Some?
    ensures var spot := FindSpot(lower, root).value.0;
      && PathTo(lower, root, SpotPath(spot)).Some?
      && Mark(PathTo(lower, root, SpotPath(spot)).value) == SpotMark(spot)
      && (PathTo(lower, root, SpotPath(spot)).value.Value? <==> spot.Over?)
  {
    hide PathTo, IndexOf, AppsPath;
    var apps := PathTo(lower, root, AppsPath()).value;
    var i := IndexOf(lower, apps.children, APP_ID);
    if i < |apps.children| && apps.children[i].Block? {
      OneStep(lower, apps.children, APP_ID);
      PathOn(lower, root, AppsPath(), [APP_ID]);
      var app := apps.children[i];
      var j := IndexOf(lower, app.children, OPTIONS);
      if j < |app.children| {
        OneStep(lower, app.children, OPTIONS);
        PathOn(lower, root, AppsPath() + [APP_ID], [OPTIONS]);
        assert AppsPath() + [APP_ID] + [OPTIONS] == OptionsPath();
      }
    }
  }

  lemma OneStep(lower: Lower, nodes: seq<Node>, key: string)
    ensures var i := IndexOf(lower, nodes, key);
      PathTo(lower, nodes, [key]) == if i == |nodes| then None else Some(nodes[i])
  {
  }

  // ---- the tokens of what is put in ----

  lemma OptionsAreEntries(new': string)
    ensures AreEntries([Str(OPTIONS), Str(new')], [Leaf(OPTIONS, new')])
  {
    var t := [Str(OPTIONS), Str(new')] + [Close];
    NoChildren(t, 2);
    ValueChildren(t, 0);
    PlainFirst(Value(OPTIONS, new', 1), []);
    assert [Value(OPTIONS, new', 1)] + [] == [Value(OPTIONS, new', 1)];
  }

  lemma AppIsEntry(new': string)
    ensures AreEntries([Str(APP_ID), Open, Str(OPTIONS), Str(new'), Close], [Branch(APP_ID, [Leaf(OPTIONS, new')])])
  {
    hide Children, Plain, PlainOne;
    var t := [Str(APP_ID), Open, Str(OPTIONS), Str(new'), Close] + [Close];
    NoChildren(t, 4);
    ValueChildren(t, 2);
    var v := Value(OPTIONS, new', 3);
    assert [v] + [] == [v];
    NoChildren(t, 5);
    BlockChildren(t, 0);
    var b := Block(APP_ID, [v], 4);
    assert [b] + [] == [b];
    PlainFirst(v, []);
    PlainFirst(b, []);
    PlainNothing();
    PlainKey(b);
    PlainKey(v);
    PlainLeaf(OPTIONS, new', 3);
    assert [PlainOne(v)] + [] == [PlainOne(v)] && [PlainOne(b)] + [] == [PlainOne(b)];
  }

  lemma PlainNothing()
    ensures Plain([]) == []
  {
  }

  lemma PlainLeaf(key: string, text: string, at: nat)
    ensures PlainOne(Value(key, text, at)) == Leaf(key, text)
  {
  }

  // ---- the edit is of the options alone ----

  lemma AllSpaces(indent: string, new': string)
    requires IsSpaces(indent)
    ensures forall i :: 0 <= i < 2 ==>
      OptionsPieces(indent, new')[i].space != [] && IsSpaces(OptionsPieces(indent, new')[i].space)
    ensures forall i :: 0 <= i < 5 ==>
      AppPieces(indent, new')[i].space != [] && IsSpaces(AppPieces(indent, new')[i].space)
  {
    NewlineIsSpace();
    hide IsSpace;
  }

  /** The brace the lines are put in before is alone on its line. */
  predicate SpotAlone(text: string, lexemes: seq<Lexeme>, spot: Spot)
    requires SpotOk(text, lexemes, spot)
  {
    spot.Over? || AloneOnLine(text, lexemes[SpotMark(spot)].start)
  }

  /** A text with entries put in before a brace has their tokens before the brace's. */
  lemma {:induction false} InsertedTokens(text: string, k: nat, pieces: seq<Piece>)
    requires Lex(text, 0).Some? && 0 < k < |Lex(text, 0).value| && pieces != []
    requires AloneOnLine(text, Lex(text, 0).value[k].start)
    requires forall i :: 0 <= i < |pieces| ==> pieces[i].space != [] && IsSpaces(pieces[i].space)
    ensures var t := Tokens(Lex(text, 0).value);
      var text' := PutBefore(text, Lex(text, 0).value[k].start, Layout(pieces) + "\n");
      TokensFrom(text', 0).Some? && IsInsert(t, k, TokensOf(pieces), TokensFrom(text', 0).value)
  {
    hide Lex, Step, Comes, Layout, AloneOnLine, TokensFrom, LineStart, IsSpaces, TokensOf;
    TokenPlaces(text, 0, k);
    var t := Tokens(Lex(text, 0).value);
    assert t[..k] != [];
    Inserted(text, t[..k], Lex(text, 0).value[k].start, pieces);
    IsInserted(t, k, TokensOf(pieces));
  }

  lemma IsInserted(t: seq<Token>, k: nat, more: seq<Token>)
    requires k < |t|
    ensures IsInsert(t, k, more, t[..k] + (more + t[k..]))
  {
  }

  lemma ReplacedTokens(text: string, at: nat, new': string)
    requires Lex(text, 0).Some? && at < |Lex(text, 0).value| && Lex(text, 0).value[at].token.Str?
    ensures var l := Lex(text, 0).value;
      && l[at].start < l[at].end <= |text|
      && TokensFrom(text[..l[at].start] + ("\"" + Escape(new') + "\"") + text[l[at].end..], 0)
           == Some(Tokens(l)[at := Str(new')])
  {
    hide Lex, Comes, TokensFrom, Escape;
    TokenPlaces(text, 0, at);
    var l := Lex(text, 0).value;
    var t := Tokens(l);
    StringStarts(text, l[at].start, l[at].end, l[at].token);
    Replaced(text, t[..at], l[at].start, l[at].end, new');
    assert t[..at] + ([Str(new')] + t[at + 1..]) == t[at := Str(new')];
  }

  lemma StringStarts(text: string, start: nat, end: nat, token: Token)
    requires start < |text| && Step(text, start) == Some((Some(token), end)) && token.Str?
    ensures text[start] == '\"'
  {
  }

  lemma ParseIs(text: string)
    ensures Parse(text).Some? ==>
      && Lex(text, 0) == Some(Parse(text).value.0) && Root(Tokens(Parse(text).value.0)) == Some(Parse(text).value.1)
      && TokensFrom(text, 0) == Some(Tokens(Parse(text).value.0))
    ensures TokensFrom(text, 0).Some? && Root(TokensFrom(text, 0).value).Some? ==>
      Parse(text).Some? && Root(TokensFrom(text, 0).value) == Some(Parse(text).value.1)
  {
  }

  lemma RootIs(t: seq<Token>)
    ensures Root(t).Some? ==> Children(t, 0) == Some((Root(t).value, |t|))
    ensures Children(t, 0).Some? && Children(t, 0).value.1 == |t| ==> Root(t) == Some(Children(t, 0).value.0)
  {
  }

  lemma FirstTokenIsKey(t: seq<Token>, k: nat)
    requires Root(t).Some? && k < |t| && t[k] == Close
    ensures k > 0
  {
  }

  /**
   The edited text is accepted, and is the same tree but at the spot: over the
   old options, or at the end of the game's block or of the apps.
  */
  lemma EditedTree(lower: Lower, text: string, new': string)
    requires Parse(text).Some? && FindSpot(lower, Parse(text).value.1).Some?
    ensures SpotOk(text, Parse(text).value.0, FindSpot(lower, Parse(text).value.1).value.0)
    ensures var (lexemes, root) := Parse(text).value;
      var spot := FindSpot(lower, root).value.0;
      SpotAlone(text, lexemes, spot) ==>
        && Parse(NewText(text, lexemes, spot, new')).Some?
        && Plain(Parse(NewText(text, lexemes, spot, new')).value.1)
             == SetAt(lower, Plain(root), SpotPath(spot), SpotChange(spot, new'))
  {
    var (lexemes, root) := Parse(text).value;
    var t := Tokens(lexemes);
    ParseIs(text);
    RootIs(t);
    hide Parse, Root, Children, Plain, PathTo, FindSpot, SetAt, Layout, AloneOnLine, TokensFrom, IsSpaces, SpotPath;
    hide SpotChange, Lex, AreEntries, OptionsPieces, AppPieces;
    var spot := FindSpot(lower, root).value.0;
    SpotIsThere(lower, root);
    var change := SpotChange(spot, new');
    PathChanged(lower, t, 0, SpotPath(spot), change);
    var k := SpotMark(spot);
    TokenPlaces(text, 0, k);
    if SpotAlone(text, lexemes, spot) {
      var text' := NewText(text, lexemes, spot, new');
      NewTokens(text, lexemes, root, spot, new');
      ParseIs(text');
    }
  }

  /** The edited text's tokens, and the tree they are. */
  lemma NewTokens(text: string, lexemes: seq<Lexeme>, root: seq<Node>, spot: Spot, new': string)
    requires Parse(text) == Some((lexemes, root)) && SpotOk(text, lexemes, spot) && SpotAlone(text, lexemes, spot)
    requires SpotMark(spot) in Marks(root)
    requires if spot.Over? then lexemes[SpotMark(spot)].token.Str? else lexemes[SpotMark(spot)].token == Close
    ensures var tokens := TokensFrom(NewText(text, lexemes, spot, new'), 0);
      && tokens.Some? && Root(tokens.value).Some?
      && Plain(Root(tokens.value).value) == Changed(root, SpotMark(spot), SpotChange(spot, new'))
  {
    var t := Tokens(lexemes);
    ParseIs(text);
    RootIs(t);
    hide Parse, Children, Plain, Changed, Marks, Layout, AloneOnLine, TokensFrom, IsSpaces, Lex, AreEntries, AppPieces;
    hide OptionsPieces, Escape, LineStart;
    match spot
    case Over(at) =>
      ReplacedTokens(text, at, new');
      ReplacedChildren(t, 0, at, new');
      RootIs(t[at := Str(new')]);
    case InApp(k) =>
      IndentIsSpaces(text, lexemes[k].start);
      AllSpaces(Indent(text, lexemes[k].start), new');
      FirstTokenIsKey(t, k);
      OptionsAreEntries(new');
      PiecesTokens(Indent(text, lexemes[k].start), new');
      NewEntries(text, lexemes, root, k, OptionsPieces(Indent(text, lexemes[k].start), new'), [Leaf(OPTIONS, new')]);
    case InApps(k) =>
      IndentIsSpaces(text, lexemes[k].start);
      AllSpaces(Indent(text, lexemes[k].start), new');
      FirstTokenIsKey(t, k);
      AppIsEntry(new');
      PiecesTokens(Indent(text, lexemes[k].start), new');
      NewEntries(text, lexemes, root, k, AppPieces(Indent(text, lexemes[k].start), new'),
                 [Branch(APP_ID, [Leaf(OPTIONS, new')])]);
  }

  lemma IndentIsSpaces(text: string, close: nat)
    requires AloneOnLine(text, close)
    ensures IsSpaces(Indent(text, close))
  {
  }

  lemma PiecesTokens(indent: string, new': string)
    ensures TokensOf(OptionsPieces(indent, new')) == [Str(OPTIONS), Str(new')]
    ensures TokensOf(AppPieces(indent, new')) == [Str(APP_ID), Open, Str(OPTIONS), Str(new'), Close]
  {
  }

  lemma {:induction false} NewEntries(text: string, lexemes: seq<Lexeme>, root: seq<Node>, k: nat,
                                      pieces: seq<Piece>, extra: seq<Tree>)
    requires Parse(text) == Some((lexemes, root)) && 0 < k < |lexemes| && lexemes[k].token == Close && k in Marks(root)
    requires AloneOnLine(text, lexemes[k].start) && pieces != []
    requires forall i :: 0 <= i < |pieces| ==> pieces[i].space != [] && IsSpaces(pieces[i].space)
    requires AreEntries(TokensOf(pieces), extra)
    ensures var tokens := TokensFrom(PutBefore(text, lexemes[k].start, Layout(pieces) + "\n"), 0);
      && tokens.Some? && Root(tokens.value).Some?
      && Plain(Root(tokens.value).value) == Changed(root, k, Append(extra))
  {
    var t := Tokens(lexemes);
    ParseIs(text);
    RootIs(t);
    hide Parse, Children, Plain, Changed, Marks, Layout, AloneOnLine, TokensFrom, IsSpaces, Lex, AreEntries, Append;
    TokenPlaces(text, 0, k);
    InsertedTokens(text, k, pieces);
    var t' := TokensFrom(PutBefore(text, lexemes[k].start, Layout(pieces) + "\n"), 0).value;
    InsertedChildren(t, 0, k, TokensOf(pieces), t', extra);
    RootIs(t');
  }
}
