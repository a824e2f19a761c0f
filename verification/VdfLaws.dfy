/**
 How Steam's text reads, where its launch options are and what is put in for
 them, told character by character and key by key (install.py).
*/
module VdfLaws {
  import opened Vdf
  import opened VdfEdit
  import opened VdfOptions
  import opened VdfText
  import opened VdfTree
  import opened Wrappers
  import Sequences

  // ---- strings ----

  /** A backslash makes 'n' a line's end, 't' a tab and any other character itself, but for a line's end. */
  lemma UnescapeLaw(c: char, s: string)
    ensures Unescape("") == "" && Unescape([c]) == [c]
    ensures c != '\\' ==> Unescape([c] + s) == [c] + Unescape(s)
    ensures Unescape(['\\', c] + s) ==
      if c == 'n' then ['\n'] + Unescape(s)
      else if c == 't' then ['\t'] + Unescape(s)
      else if c == '\n' then ['\\', '\n'] + Unescape(s)
      else [c] + Unescape(s)
  {
    assert ([c] + s)[1..] == s && (['\\', c] + s)[2..] == s && (['\\', c] + s)[1..] == [c] + s;
    if c == '\n' {
      NoEscape(c, s);
      assert ['\\', '\n'] + Unescape(s) == ['\\'] + (['\n'] + Unescape(s));
    }
    if c != '\\' {
      NoEscape(c, s);
    }
  }

  lemma NoEscape(c: char, s: string)
    requires c != '\\'
    ensures Unescape([c] + s) == [c] + Unescape(s)
  {
    assert ([c] + s)[1..] == s;
  }

  /** Backslashes and quotes are escaped, and nothing else. */
  lemma EscapeLaw(c: char, s: string)
    ensures Escape("") == ""
    ensures Escape([c] + s) == (if c == '\\' || c == '\"' then ['\\', c] else [c]) + Escape(s)
  {
    EscapeFirst([c] + s);
    assert ([c] + s)[1..] == s;
  }

  // ---- tokens ----

  /** The characters that Python's pattern takes for white space. */
  lemma SpaceLaw(c: char)
    ensures IsSpace(c) <==> c as int in {
      9, 10, 11, 12, 13, 28, 29, 30, 31, 32, 0x85, 0xa0, 0x1680, 0x2000, 0x2001, 0x2002, 0x2003, 0x2004, 0x2005,
      0x2006, 0x2007, 0x2008, 0x2009, 0x200a, 0x2028, 0x2029, 0x202f, 0x205f, 0x3000}
  {
  }

  /** What may stand between two quotes: no quote but behind a backslash, and no backslash but before something. */
  predicate IsBody(b: string) {
    || b == ""
    || (b[0] != '\"' && b[0] != '\\' && IsBody(b[1..]))
    || (b[0] == '\\' && |b| >= 2 && IsBody(b[2..]))
  }

  lemma {:induction false} QuoteFound(text: string, p: nat, b: string)
    requires p + |b| < |text| && text[p..p + |b|] == b && text[p + |b|] == '\"' && IsBody(b)
    ensures QuoteEnd(text, p) == Some(p + |b|)
    decreases |b|
  {
    if b != "" {
      var k := if b[0] == '\\' then 2 else 1;
      assert text[p] == text[p..p + |b|][0];
      assert text[p + k..p + |b|] == text[p..p + |b|][k..] == b[k..];
      QuoteFound(text, p + k, b[k..]);
    }
  }

  lemma {:induction false} QuoteIsBody(text: string, p: nat)
    requires p <= |text|
    ensures var e := QuoteEnd(text, p); e.Some? ==> IsBody(text[p..e.value])
    decreases |text| - p
  {
    var e := QuoteEnd(text, p);
    if e.Some? && e.value > p {
      var k := if text[p] == '\\' then 2 else 1;
      QuoteIsBody(text, p + k);
      assert text[p..e.value][k..] == text[p + k..e.value];
    }
  }

  function Put(first: Lexeme, rest: Option<seq<Lexeme>>): Option<seq<Lexeme>> {
    if rest == None then None else Some([first] + rest.value)
  }

  /** Reading a string: from its quote to the next that no backslash is before, or not at all if there is none. */
  lemma StringLaw(text: string, pos: nat, e: nat)
    requires pos < e < |text| && text[pos] == '\"'
    ensures text[e] == '\"' && IsBody(text[pos + 1..e]) ==>
      Lex(text, pos) == Put(Lexeme(Str(Unescape(text[pos + 1..e])), pos, e + 1), Lex(text, e + 1))
    ensures (forall i :: pos < i < |text| && text[i] == '\"' ==> !IsBody(text[pos + 1..i])) ==> Lex(text, pos) == None
  {
    hide Unescape;
    if text[e] == '\"' && IsBody(text[pos + 1..e]) {
      QuoteFound(text, pos + 1, text[pos + 1..e]);
    }
    QuoteIsBody(text, pos + 1);
  }

  /** White space, and what follows two slashes on their line, is passed over. */
  lemma PassedOver(text: string, pos: nat, e: nat)
    requires pos < |text|
    ensures IsSpace(text[pos]) ==> Lex(text, pos) == Lex(text, pos + 1)
    ensures pos + 2 <= e <= |text| && text[pos] == '/' && text[pos + 1] == '/'
            && (forall i :: pos + 2 <= i < e ==> text[i] != '\n') && (e < |text| ==> text[e] == '\n') ==>
      Lex(text, pos) == Lex(text, e)
  {
    hide Unescape, QuoteEnd;
    if IsSpace(text[pos]) {
      NothingBefore(Lex(text, SpaceEnd(text, pos)));
      if pos + 1 < |text| && IsSpace(text[pos + 1]) {
        NothingBefore(Lex(text, SpaceEnd(text, pos + 1)));
      }
    }
    if pos + 2 <= e <= |text| {
      NothingBefore(Lex(text, LineEnd(text, pos + 2)));
    }
  }

  lemma NothingBefore(rest: Option<seq<Lexeme>>)
    ensures rest.Some? ==> [] + rest.value == rest.value
  {
  }

  /** Braces are tokens of one character; anything else ends the reading. */
  lemma BraceLaw(text: string, pos: nat)
    requires pos < |text|
    ensures text[pos] == '{' ==> Lex(text, pos) == Put(Lexeme(Open, pos, pos + 1), Lex(text, pos + 1))
    ensures text[pos] == '}' ==> Lex(text, pos) == Put(Lexeme(Close, pos, pos + 1), Lex(text, pos + 1))
    ensures !IsSpace(text[pos]) && text[pos] !in "{}\"/" ==> Lex(text, pos) == None
    ensures text[pos] == '/' && (pos + 1 == |text| || text[pos + 1] != '/') ==> Lex(text, pos) == None
    ensures Lex(text, |text|) == Some([])
  {
    hide Unescape, QuoteEnd;
  }

  // ---- blocks ----

  function TreeTokens(tree: Tree): (r: seq<Token>)
    decreases tree, 0
  {
    match tree
    case Leaf(key, text) => [Str(key), Str(text)]
    case Branch(key, kids) => [Str(key), Open] + ForestTokens(kids) + [Close]
  }

  function ForestTokens(trees: seq<Tree>): (r: seq<Token>)
    decreases trees, 1
  {
    if trees == [] then [] else TreeTokens(trees[0]) + ForestTokens(trees[1..])
  }

  lemma ForestFirst(tree: Tree, rest: seq<Tree>)
    ensures ForestTokens([tree] + rest) == TreeTokens(tree) + ForestTokens(rest)
    ensures ForestTokens([]) == []
  {
    hide TreeTokens;
    assert ([tree] + rest)[1..] == rest;
  }

  lemma PlainBlock(key: string, children: seq<Node>, close: nat)
    ensures TreeTokens(PlainOne(Block(key, children, close)))
            == [Str(key), Open] + ForestTokens(Plain(children)) + [Close]
  {
    hide Plain, ForestTokens;
  }

  lemma PlainNone()
    ensures Plain([]) == []
  {
  }

  lemma {:induction false} ChildrenAre(t: seq<Token>, i: nat)
    requires i <= |t| && Children(t, i).Some?
    ensures var (nodes, end) := Children(t, i).value; ForestTokens(Plain(nodes)) == t[i..end]
    decreases |t| - i
  {
    hide Children, Plain, ForestTokens;
    AnyChildren(t, i);
    if i == |t| || t[i] == Close {
      PlainNone();
      ForestFirst(Leaf("", ""), []);
    } else if ValueAt(t, i) {
      ValueChildren(t, i);
      ChildrenAre(t, i + 2);
      var (rest, end) := Children(t, i + 2).value;
      var v := Value(t[i].text, t[i + 1].text, i + 1);
      PlainFirst(v, rest);
      ForestFirst(PlainOne(v), Plain(rest));
      assert [t[i], t[i + 1]] + t[i + 2..end] == t[i..end];
    } else {
      BlockChildren(t, i);
      var (kids, c) := Children(t, i + 2).value;
      ChildrenAre(t, i + 2);
      ChildrenAre(t, c + 1);
      var (rest, end) := Children(t, c + 1).value;
      hide PlainOne, TreeTokens;
      PlainFirst(Block(t[i].text, kids, c), rest);
      PlainBlock(t[i].text, kids, c);
      ForestFirst(PlainOne(Block(t[i].text, kids, c)), Plain(rest));
      assert [t[i], t[i + 1]] + t[i + 2..c] + [t[c]] + t[c + 1..end] == t[i..end];
    }
  }

  /** Tokens that begin with those of some entries, and end or close there. */
  predicate BeginsWith(t: seq<Token>, i: nat, trees: seq<Tree>) {
    var end := i + |ForestTokens(trees)|;
    end <= |t| && t[i..end] == ForestTokens(trees) && (end < |t| ==> t[end] == Close)
  }

  lemma FirstBegins(t: seq<Token>, i: nat, trees: seq<Tree>, m: nat)
    requires trees != [] && BeginsWith(t, i, trees) && m == i + |TreeTokens(trees[0])|
    ensures m <= |t| && t[i..m] == TreeTokens(trees[0]) && BeginsWith(t, m, trees[1..])
    ensures |ForestTokens(trees)| == |TreeTokens(trees[0])| + |ForestTokens(trees[1..])|
  {
    hide TreeTokens, ForestTokens;
    var first, rest := TreeTokens(trees[0]), ForestTokens(trees[1..]);
    ForestFirst(trees[0], trees[1..]);
    assert [trees[0]] + trees[1..] == trees;
    var all := t[i..i + |first| + |rest|];
    assert all == first + rest;
    assert t[i..m] == all[..|first|] && t[m..m + |rest|] == all[|first|..];
  }

  lemma LeafReads(t: seq<Token>, i: nat, tree: Tree)
    requires tree.Leaf? && i + 2 <= |t| && t[i..i + 2] == TreeTokens(tree)
    ensures t[i] == Str(tree.key) && t[i + 1] == Str(tree.text)
  {
    assert t[i] == t[i..i + 2][0] && t[i + 1] == t[i..i + 2][1];
  }

  lemma SliceOfSlice(t: seq<Token>, i: nat, m: nat, a: nat, b: nat)
    requires i <= m <= |t| && a <= b <= m - i
    ensures t[i..m][a..b] == t[i + a..i + b]
  {
    var x, y := t[i..m][a..b], t[i + a..i + b];
    assert |x| == |y| && forall k :: 0 <= k < |x| ==> x[k] == t[i + a + k] == y[k];
  }

  lemma NoneRead(t: seq<Token>, i: nat)
    requires BeginsWith(t, i, [])
    ensures i <= |t| && Children(t, i) == Some(([], i)) && ForestTokens([]) == []
  {
    ForestFirst(Leaf("", ""), []);
    assert i == |t| || t[i] == Close;
  }

  lemma BlockReads(t: seq<Token>, i: nat, tree: Tree, m: nat)
    requires tree.Branch? && m == i + |TreeTokens(tree)| && m <= |t| && t[i..m] == TreeTokens(tree)
    ensures BeginsWith(t, i + 2, tree.kids) && m == i + 2 + |ForestTokens(tree.kids)| + 1
    ensures t[i] == Str(tree.key) && t[i + 1] == Open && t[m - 1] == Close
  {
    var kids := ForestTokens(tree.kids);
    hide ForestTokens;
    var all := [Str(tree.key), Open] + kids + [Close];
    assert t[i..m] == all;
    assert t[i] == t[i..m][0] && t[i + 1] == t[i..m][1] && t[m - 1] == t[i..m][m - 1 - i];
    SliceOfSlice(t, i, m, 2, m - 1 - i);
    assert all[2..m - 1 - i] == kids;
  }

  lemma {:induction false} EntriesRead(t: seq<Token>, i: nat, trees: seq<Tree>)
    requires BeginsWith(t, i, trees)
    ensures i <= |t| && Children(t, i).Some?
    ensures var (nodes, end) := Children(t, i).value; Plain(nodes) == trees && end == i + |ForestTokens(trees)|
    decreases trees
  {
    hide Children, Plain, ForestTokens, BeginsWith;
    if trees == [] {
      NoneRead(t, i);
      PlainNone();
    } else {
      var first, rest := trees[0], trees[1..];
      var m := i + |TreeTokens(first)|;
      FirstBegins(t, i, trees, m);
      EntriesRead(t, m, rest);
      if first.Leaf? {
        LeafReads(t, i, first);
        ValueChildren(t, i);
        PlainFirst(Value(first.key, first.text, i + 1), Children(t, m).value.0);
      } else {
        hide TreeTokens;
        BlockReads(t, i, first, m);
        EntriesRead(t, i + 2, first.kids);
        BlockChildren(t, i);
        PlainFirst(Block(first.key, Children(t, i + 2).value.0, m - 1), Children(t, m).value.0);
      }
      assert trees == [first] + rest;
    }
  }

  /** A text is a tree if and only if its tokens are the tree's, key by key and brace by brace. */
  lemma RootIff(t: seq<Token>, trees: seq<Tree>)
    ensures Root(t).Some? && Plain(Root(t).value) == trees <==> t == ForestTokens(trees)
  {
    if Root(t).Some? {
      ChildrenAre(t, 0);
      assert t[0..|t|] == t;
    }
    if t == ForestTokens(trees) {
      assert t[0..|t|] == t;
      EntriesRead(t, 0, trees);
    }
  }

  // ---- where the options are ----

  /** The first of a block's entries that has a key, whatever its case. */
  function Named(lower: Lower, trees: seq<Tree>, key: string): Option<Tree> {
    if trees == [] then None
    else if lower(trees[0].key) == lower(key) then Some(trees[0])
    else Named(lower, trees[1..], key)
  }

  function Inside(lower: Lower, block: Option<Tree>, key: string): Option<Tree> {
    if block.Some? && block.value.Branch? then Named(lower, block.value.kids, key) else None
  }

  lemma {:induction false} NamedIs(lower: Lower, trees: seq<Tree>, key: string)
    ensures var i := TreeIndexOf(lower, trees, key);
      Named(lower, trees, key) == if i < |trees| then Some(trees[i]) else None
  {
    if trees != [] {
      NamedIs(lower, trees[1..], key);
    }
  }

  lemma {:induction false} InsideIs(lower: Lower, trees: seq<Tree>, path: seq<string>, key: string)
    requires path != []
    ensures TreeTo(lower, trees, path + [key]) == Inside(lower, TreeTo(lower, trees, path), key)
    ensures TreeTo(lower, trees, [key]) == Named(lower, trees, key)
  {
    TreeToOn(lower, trees, path, [key]);
    NamedIs(lower, trees, key);
    var x := TreeTo(lower, trees, path);
    if x.Some? && x.value.Branch? {
      NamedIs(lower, x.value.kids, key);
    }
  }

  /** The game's options are those under its number among Steam's apps: nothing if they are not told of. */
  lemma OptionsLaw(lower: Lower, trees: seq<Tree>)
    ensures var store := Named(lower, trees, "UserLocalConfigStore");
      var steam := Inside(lower, Inside(lower, Inside(lower, store, "Software"), "Valve"), "Steam");
      var apps := Inside(lower, steam, "apps");
      var app := Inside(lower, apps, "1086940");
      var options := Inside(lower, app, "LaunchOptions");
      OptionsOf(lower, trees) ==
        if apps == None || apps.value.Leaf? then None
        else if options == None then Some("")
        else if options.value.Leaf? then Some(options.value.text)
        else None
  {
    hide TreeTo, Named;
    var p1 := ["UserLocalConfigStore"];
    var p2 := p1 + ["Software"];
    var p3 := p2 + ["Valve"];
    var p4 := p3 + ["Steam"];
    InsideIs(lower, trees, p1, "UserLocalConfigStore");
    InsideIs(lower, trees, p1, "Software");
    InsideIs(lower, trees, p2, "Valve");
    InsideIs(lower, trees, p3, "Steam");
    InsideIs(lower, trees, p4, "apps");
    assert AppsPath() == p4 + ["apps"];
    InsideIs(lower, trees, AppsPath(), "1086940");
    InsideIs(lower, trees, AppPath(), "LaunchOptions");
    assert OptionsPath() == AppPath() + ["LaunchOptions"];
  }

  // ---- what is put in ----

  function Quoted(s: string): string {
    "\"" + s + "\""
  }

  /** The line of the options, one tab deeper than the brace it goes before. */
  lemma LineLaw(indent: string, new': string)
    ensures OptionsLine(indent, new') ==
      indent + "\t" + Quoted("LaunchOptions") + "\t\t" + Quoted(Escape(new')) + "\n"
  {
    hide Escape, Layout;
    EscapedKeys();
    var p := OptionsPieces(indent, new');
    LayoutTwo(p);
    hide Quoted, Shown;
    assert Shown(p[0].token) == Quoted("LaunchOptions") && Shown(p[1].token) == Quoted(Escape(new')) by {
      ShownIs(OPTIONS);
      ShownIs(new');
    }
  }

  lemma ShownIs(s: string)
    ensures Shown(Str(s)) == Quoted(Escape(s))
  {
    hide Escape;
  }

  lemma {:induction false} NothingEscaped(s: string)
    requires forall i :: 0 <= i < |s| ==> s[i] != '\\' && s[i] != '\"'
    ensures Escape(s) == s
  {
    hide Escape;
    EscapeLaw('a', "");
    if s != "" {
      NothingEscaped(s[1..]);
      EscapeLaw(s[0], s[1..]);
      assert [s[0]] + s[1..] == s;
    } else {
      assert s == "";
    }
  }

  lemma EscapedKeys()
    ensures Escape("LaunchOptions") == "LaunchOptions" && Escape("1086940") == "1086940"
  {
    hide Escape;
    NothingEscaped("LaunchOptions");
    NothingEscaped("1086940");
  }

  /** A block for the game, one tab deeper than the brace it goes before. */
  lemma BlockLaw(indent: string, new': string)
    ensures AppBlock(indent, new') ==
      (indent + "\t" + Quoted("1086940") + "\n")
      + ((indent + "\t" + "{" + "\n")
         + ((indent + "\t\t" + Quoted("LaunchOptions") + "\t\t" + Quoted(Escape(new')) + "\n")
            + (indent + "\t" + "}" + "\n")))
  {
    hide Escape, Layout;
    EscapedKeys();
    var p := AppPieces(indent, new');
    LayoutFive(p);
    ShownIs(APP_ID);
    ShownIs(OPTIONS);
    ShownIs(new');
    assert Shown(Open) == "{" && Shown(Close) == "}";
    hide Quoted, Shown;
    LinesOf(indent, "\t", "\t\t", "\n", Quoted(APP_ID), "{", Quoted(OPTIONS), Quoted(Escape(new')), "}");
  }

  /** Parts that begin their own lines, as lines. */
  lemma LinesOf(i: string, t: string, u: string, n: string, a: string, o: string, b: string, q: string, c: string)
    ensures ((i + t) + a + ((n + i + t) + o + ((n + i + u) + b + (u + q + ((n + i + t) + c))))) + n
            == (i + t + a + n) + ((i + t + o + n) + ((i + u + b + u + q + n) + (i + t + c + n)))
  {
    var l4 := i + t + c + n;
    var s4 := (n + i + t) + c;
    assert s4 + n == n + l4;
    var l3 := i + u + b + u + q + n;
    var s3 := u + q + s4;
    Ended(u + q, s4, n, n + l4);
    var s2 := (n + i + u) + b + s3;
    Ended((n + i + u) + b, s3, n, u + q + (n + l4));
    Regroup(n + i + u + b, u + q, n, l4);
    assert (n + i + u + b) + (u + q) + n == n + l3;
    Sequences.Assoc(n, l3, l4);
    var s1 := (n + i + t) + o + s2;
    Ended((n + i + t) + o, s2, n, n + (l3 + l4));
    var l2 := i + t + o + n;
    Sequences.Assoc((n + i + t) + o, n, l3 + l4);
    assert (n + i + t) + o + n == n + l2;
    Sequences.Assoc(n, l2, l3 + l4);
    Ended((i + t) + a, s1, n, n + (l2 + (l3 + l4)));
    Sequences.Assoc((i + t) + a, n, l2 + (l3 + l4));
  }

  lemma Ended(x: string, s: string, n: string, r: string)
    requires s + n == r
    ensures (x + s) + n == x + r
  {
    Sequences.Assoc(x, s, n);
  }

  lemma Regroup(x: string, y: string, n: string, l: string)
    ensures x + (y + (n + l)) == (x + y + n) + l
  {
    Sequences.Assoc(y, n, l);
    Sequences.Assoc(x, y + n, l);
    Sequences.Assoc(x, y, n);
  }

  lemma LayoutTwo(p: seq<Piece>)
    requires |p| == 2
    ensures Layout(p) == p[0].space + Shown(p[0].token) + (p[1].space + Shown(p[1].token))
  {
    hide Shown;
    assert Layout(p[1..]) == p[1].space + Shown(p[1].token) + Layout(p[1..][1..]) && p[1..][1..] == [];
  }

  lemma LayoutFive(p: seq<Piece>)
    requires |p| == 5
    ensures Layout(p) ==
      p[0].space + Shown(p[0].token) + (p[1].space + Shown(p[1].token) + (p[2].space + Shown(p[2].token)
      + (p[3].space + Shown(p[3].token) + (p[4].space + Shown(p[4].token)))))
  {
    hide Shown;
    assert Layout(p[4..]) == p[4].space + Shown(p[4].token) + Layout(p[4..][1..]) && p[4..][1..] == [];
    assert Layout(p[3..]) == p[3].space + Shown(p[3].token) + Layout(p[3..][1..]) && p[3..][1..] == p[4..];
    assert Layout(p[2..]) == p[2].space + Shown(p[2].token) + Layout(p[2..][1..]) && p[2..][1..] == p[3..];
    assert Layout(p[1..]) == p[1].space + Shown(p[1].token) + Layout(p[1..][1..]) && p[1..][1..] == p[2..];
  }

  /** What goes in goes before the line of the brace; what is replaced is replaced with its quotes. */
  lemma PlaceLaw(text: string, lexemes: seq<Lexeme>, spot: Spot, new': string, at: nat)
    requires SpotOk(text, lexemes, spot)
    requires !spot.Over? ==>
      && at <= lexemes[spot.close].start && (at > 0 ==> text[at - 1] == '\n')
      && forall i :: at <= i < lexemes[spot.close].start ==> text[i] != '\n'
    ensures NewText(text, lexemes, spot, new') ==
      match spot
      case Over(k) => text[..lexemes[k].start] + "\"" + Escape(new') + "\"" + text[lexemes[k].end..]
      case InApp(k) => text[..at] + OptionsLine(text[at..lexemes[k].start], new') + text[at..]
      case InApps(k) => text[..at] + AppBlock(text[at..lexemes[k].start], new') + text[at..]
  {
    hide OptionsLine, AppBlock, Escape;
    if !spot.Over? {
      assert LineStart(text, lexemes[spot.close].start) == at;
    }
  }
}
