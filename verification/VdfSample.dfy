/**
 A text whose options do not read back (install.py): the game's entry is a
 plain value, so a block is put in beside it, and the value is found again.
*/
module VdfSample {
  import opened Vdf
  import opened VdfEdit
  import opened VdfOptions
  import opened VdfText
  import opened VdfTree
  import opened Wrappers

  // ---- texts of one token a line ----

  function Lines(tokens: seq<Token>): (r: seq<Piece>)
    ensures |r| == |tokens| && forall i :: 0 <= i < |r| ==> r[i] == Piece("\n", tokens[i])
  {
    seq(|tokens|, i requires 0 <= i < |tokens| => Piece("\n", tokens[i]))
  }

  predicate FirstOnLine(text: string, l: Lexeme) {
    0 < l.start < |text| && text[l.start - 1] == '\n' && (l.token == Close ==> text[l.start] == '}')
  }

  predicate ReadsAs(text: string, lexemes: seq<Lexeme>, tokens: seq<Token>) {
    && |lexemes| == |tokens|
    && forall k :: 0 <= k < |tokens| ==> lexemes[k].token == tokens[k] && FirstOnLine(text, lexemes[k])
  }

  lemma NewlineSpaces()
    ensures IsSpaces("\n")
  {
  }

  lemma OneLine(text: string, pos: nat, token: Token, rest: string)
    requires pos <= |text| && text[pos..] == "\n" + Shown(token) + rest
    ensures var p := pos + 1 + |Shown(token)|;
      && p <= |text| && text[p..] == rest && pos + 1 < p
      && Lex(text, pos) == Prepend([Lexeme(token, pos + 1, p)], Lex(text, p))
      && FirstOnLine(text, Lexeme(token, pos + 1, p))
  {
    hide Shown, Step, IsSpaces;
    var tail := Shown(token) + rest;
    ShownIsNoSpace(token);
    NewlineSpaces();
    assert text[pos..] == "\n" + tail;
    SpaceReads(text, pos, "\n", tail);
    ShownReads(text, pos + 1, token, rest);
    DropPart(text, pos + 1, Shown(token), rest);
    var p := pos + 1 + |Shown(token)|;
    assert text[pos] == text[pos..][0];
    assert text[pos + 1] == Shown(token)[0];
    ShownClose(token);
    PrependNone(Lex(text, pos + 1));
  }

  lemma ShownClose(token: Token)
    ensures token == Close ==> Shown(token) == "}"
  {
  }

  lemma NothingRead(text: string, pos: nat)
    requires pos <= |text| && text[pos..] == Layout(Lines([]))
    ensures Lex(text, pos) == Some([]) && ReadsAs(text, [], [])
  {
    assert Lines([]) == [];
    assert pos == |text|;
  }

  lemma FirstLine(tokens: seq<Token>)
    requires tokens != []
    ensures Layout(Lines(tokens)) == "\n" + Shown(tokens[0]) + Layout(Lines(tokens[1..]))
  {
    assert Lines(tokens)[1..] == Lines(tokens[1..]);
  }

  lemma MoreRead(text: string, first: Lexeme, rest: seq<Lexeme>, tokens: seq<Token>)
    requires tokens != [] && first.token == tokens[0] && FirstOnLine(text, first) && ReadsAs(text, rest, tokens[1..])
    ensures ReadsAs(text, [first] + rest, tokens)
  {
    hide FirstOnLine;
  }

  /** Such a text is read as its tokens, each the first of its line. */
  lemma {:induction false} LinesRead(text: string, pos: nat, tokens: seq<Token>)
    requires pos <= |text| && text[pos..] == Layout(Lines(tokens))
    ensures Lex(text, pos).Some? && ReadsAs(text, Lex(text, pos).value, tokens)
    decreases |tokens|
  {
    hide Shown, FirstOnLine, Layout, Lex, Lines;
    if tokens == [] {
      NothingRead(text, pos);
    } else {
      FirstLine(tokens);
      OneLine(text, pos, tokens[0], Layout(Lines(tokens[1..])));
      var p := pos + 1 + |Shown(tokens[0])|;
      LinesRead(text, p, tokens[1..]);
      MoreRead(text, Lexeme(tokens[0], pos + 1, p), Lex(text, p).value, tokens);
    }
  }

  // ---- the text ----

  /** The blocks down to the game's entry, which is a value. */
  function SampleTokens(value: string): (r: seq<Token>)
    ensures |r| == 17
  {
    [Str("UserLocalConfigStore"), Open, Str("Software"), Open, Str("Valve"), Open, Str("Steam"), Open,
     Str("apps"), Open, Str(APP_ID), Str(value), Close, Close, Close, Close, Close]
  }

  function SampleText(value: string): string {
    Layout(Lines(SampleTokens(value)))
  }

  function Apps(value: string): Node {
    Block("apps", [Value(APP_ID, value, 11)], 12)
  }

  function SampleRoot(value: string): seq<Node> {
    var steam := Block("Steam", [Apps(value)], 13);
    [Block("UserLocalConfigStore", [Block("Software", [Block("Valve", [steam], 14)], 15)], 16)]
  }

  lemma OneBlock(t: seq<Token>, i: nat, kids: seq<Node>, close: nat)
    requires BlockAt(t, i) && Children(t, i + 2) == Some((kids, close)) && close < |t|
    requires close + 1 == |t| || t[close + 1] == Close
    ensures Children(t, i) == Some(([Block(t[i].text, kids, close)], close + 1))
  {
    hide Children;
    BlockChildren(t, i);
    NoChildren(t, close + 1);
    assert [Block(t[i].text, kids, close)] + [] == [Block(t[i].text, kids, close)];
  }

  lemma SampleTree(value: string)
    ensures Root(SampleTokens(value)) == Some(SampleRoot(value))
  {
    hide Children;
    var t := SampleTokens(value);
    NoChildren(t, 12);
    ValueChildren(t, 10);
    var v := Value(APP_ID, value, 11);
    assert [v] + [] == [v];
    OneBlock(t, 8, [v], 12);
    OneBlock(t, 6, [Apps(value)], 13);
    OneBlock(t, 4, [Block("Steam", [Apps(value)], 13)], 14);
    OneBlock(t, 2, [Block("Valve", [Block("Steam", [Apps(value)], 13)], 14)], 15);
    OneBlock(t, 0, [Block("Software", [Block("Valve", [Block("Steam", [Apps(value)], 13)], 14)], 15)], 16);
    RootIs(t);
  }

  lemma SampleParses(value: string)
    ensures Parse(SampleText(value)).Some? && Parse(SampleText(value)).value.1 == SampleRoot(value)
    ensures ReadsAs(SampleText(value), Parse(SampleText(value)).value.0, SampleTokens(value))
  {
    hide Layout, SampleTokens, FirstOnLine, Children, Root;
    var text := SampleText(value);
    assert text[0..] == text;
    LinesRead(text, 0, SampleTokens(value));
    assert Tokens(Lex(text, 0).value) == SampleTokens(value);
    SampleTree(value);
  }

  /** What a path of one key leads to where there is one node of that key. */
  lemma OnlyNode(lower: Lower, n: Node, path: seq<string>)
    requires path != [] && n.key == path[0]
    ensures PathTo(lower, [n], path) ==
      if |path| == 1 then Some(n) else if n.Block? then PathTo(lower, n.children, path[1..]) else None
  {
    hide PathTo, IndexOf;
    PathToStep(lower, [n], path);
    FirstIndex(lower, n, path[0]);
  }

  lemma FirstIndex(lower: Lower, n: Node, key: string)
    requires n.key == key
    ensures IndexOf(lower, [n], key) == 0
  {
  }

  lemma SampleApps(lower: Lower, value: string)
    ensures PathTo(lower, SampleRoot(value), AppsPath()) == Some(Apps(value))
  {
    hide PathTo;
    var path := AppsPath();
    var steam := Block("Steam", [Apps(value)], 13);
    var valve := Block("Valve", [steam], 14);
    var software := Block("Software", [valve], 15);
    assert path[1..][1..] == path[2..] && path[2..][1..] == path[3..] && path[3..][1..] == path[4..];
    OnlyNode(lower, SampleRoot(value)[0], path);
    OnlyNode(lower, software, path[1..]);
    OnlyNode(lower, valve, path[2..]);
    OnlyNode(lower, steam, path[3..]);
    OnlyNode(lower, Apps(value), path[4..]);
  }

  lemma SampleSpot(lower: Lower, value: string)
    ensures FindSpot(lower, SampleRoot(value)) == Some((InApps(12), ""))
  {
    hide PathTo, IndexOf, SampleRoot;
    SampleApps(lower, value);
    FirstIndex(lower, Value(APP_ID, value, 11), APP_ID);
  }

  /** The game's entry is the value. */
  lemma SampleApp(lower: Lower, value: string)
    ensures TreeTo(lower, Plain(SampleRoot(value)), AppPath()).Some?
    ensures TreeTo(lower, Plain(SampleRoot(value)), AppPath()).value.Leaf?
  {
    hide PathTo, IndexOf, TreeTo, Plain, PlainOne;
    var root := SampleRoot(value);
    var v := Value(APP_ID, value, 11);
    SampleApps(lower, value);
    PathOn(lower, root, AppsPath(), [APP_ID]);
    OnlyNode(lower, v, [APP_ID]);
    PlainTo(lower, root, AppPath());
    PlainLeaf(APP_ID, value, 11);
  }

  /**
   Whatever value the entry has and however keys are folded, the text is one
   whose options can be set, and what is set is never read back, unless it is
   nothing.
  */
  lemma PlainEntryHides(lower: Lower, value: string, new': string)
    requires new' != ""
    ensures Parse(SampleText(value)).Some?
    ensures var (lexemes, root) := Parse(SampleText(value)).value;
      && FindSpot(lower, root).Some?
      && var spot := FindSpot(lower, root).value.0;
         && SpotOk(SampleText(value), lexemes, spot) && SpotAlone(SampleText(value), lexemes, spot)
         && var text' := NewText(SampleText(value), lexemes, spot, new');
            && Parse(text').Some? && FindSpot(lower, Parse(text').value.1).Some?
            && FindSpot(lower, Parse(text').value.1).value.1 != new'
  {
    hide Parse, FindSpot, Plain, TreeTo, NewText, Layout, SampleText, SampleRoot, IsSpaces;
    var text := SampleText(value);
    SampleParses(value);
    SampleSpot(lower, value);
    SampleApp(lower, value);
    OptionsReadBack(lower, text, new');
    var l := Parse(text).value.0[12];
    assert l.token == Close && FirstOnLine(text, l);
    BraceAlone(text, l.start);
  }

  lemma BraceAlone(text: string, close: nat)
    requires 0 < close < |text| && text[close - 1] == '\n' && text[close] == '}'
    ensures AloneOnLine(text, close)
  {
  }
}
