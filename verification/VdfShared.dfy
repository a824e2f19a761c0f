/**
 Setting launch options where the closing brace shares its line (install.py):
 all that is before the brace on its line is taken for its indentation and is
 put in again on every new line, so the edited text is another tree. It is the
 tree with the options set exactly if the brace is alone on its line.
*/
module VdfShared {
  import opened Sequences
  import opened Vdf
  import opened VdfEdit
  import opened VdfText
  import opened VdfTree
  import opened Wrappers

  // ---- how many tokens a tree has ----

  function SizeOne(tree: Tree): (r: nat) {
    match tree
    case Leaf(_, _) => 2
    case Branch(_, kids) => 3 + Size(kids)
  }

  function Size(trees: seq<Tree>): (r: nat) {
    if trees == [] then 0 else SizeOne(trees[0]) + Size(trees[1..])
  }

  lemma SizeFirst(tree: Tree, rest: seq<Tree>)
    ensures Size([tree] + rest) == SizeOne(tree) + Size(rest)
  {
    assert ([tree] + rest)[1..] == rest;
  }

  lemma SizePlain(n: Node)
    ensures SizeOne(PlainOne(n)) == if n.Value? then 2 else 3 + Size(Plain(n.children))
  {
  }

  /** Children are as many tokens as they were read from. */
  lemma {:induction false} ChildrenSize(t: seq<Token>, i: nat)
    requires i <= |t| && Children(t, i).Some?
    ensures Size(Plain(Children(t, i).value.0)) == Children(t, i).value.1 - i
    decreases |t| - i
  {
    hide Children, Plain, PlainOne, Size, SizeOne;
    AnyChildren(t, i);
    if i == |t| || t[i] == Close {
      NoSize();
    } else if ValueAt(t, i) {
      ValueChildren(t, i);
      ChildrenSize(t, i + 2);
      var v := Value(t[i].text, t[i + 1].text, i + 1);
      PlainFirst(v, Children(t, i + 2).value.0);
      SizeFirst(PlainOne(v), Plain(Children(t, i + 2).value.0));
      SizePlain(v);
    } else {
      BlockChildren(t, i);
      var inner := Children(t, i + 2).value;
      ChildrenSize(t, i + 2);
      ChildrenSize(t, inner.1 + 1);
      var b := Block(t[i].text, inner.0, inner.1);
      PlainFirst(b, Children(t, inner.1 + 1).value.0);
      SizeFirst(PlainOne(b), Plain(Children(t, inner.1 + 1).value.0));
      SizePlain(b);
    }
  }

  lemma NoSize()
    ensures Size(Plain([])) == 0
  {
  }

  lemma RootSize(t: seq<Token>)
    requires Root(t).Some?
    ensures Size(Plain(Root(t).value)) == |t|
  {
    RootIs(t);
    hide Root, Children, Plain, Size;
    ChildrenSize(t, 0);
  }

  /** A tree with entries put in before a brace has their tokens more. */
  lemma ChangedSize(t: seq<Token>, k: nat, more: seq<Token>, extra: seq<Tree>)
    requires Root(t).Some? && k in Marks(Root(t).value) && k < |t| && t[k] == Close && AreEntries(more, extra)
    ensures Size(Changed(Root(t).value, k, Append(extra))) == |t| + |more|
  {
    RootIs(t);
    hide Root, Children, Plain, Size, Changed, Marks, AreEntries, Append;
    var t' := t[..k] + (more + t[k..]);
    IsInserted(t, k, more);
    InsertedChildren(t, 0, k, more, t', extra);
    ChildrenSize(t', 0);
  }

  // ---- the white space and the tokens before a brace ----

  lemma SkipSpace(text: string, q: nat)
    requires q < |text| && IsSpace(text[q])
    ensures TokensFrom(text, q) == TokensFrom(text, q + 1)
  {
    TokensStep(text, q);
    AfterNothing(TokensFrom(text, SpaceEnd(text, q)));
    if q + 1 < |text| && IsSpace(text[q + 1]) {
      TokensStep(text, q + 1);
    }
  }

  lemma {:induction false} SkipSpaces(text: string, q: nat, n: nat)
    requires q + n <= |text| && forall i :: q <= i < q + n ==> IsSpace(text[i])
    ensures TokensFrom(text, q) == TokensFrom(text, q + n)
    decreases n
  {
    hide TokensFrom, IsSpace;
    if n > 0 {
      SkipSpace(text, q);
      SkipSpaces(text, q + 1, n - 1);
    }
  }

  lemma SamePart(a: string, i: nat, b: string, j: nat, n: nat, from: nat, to: nat)
    requires i + n <= |a| && j + n <= |b| && a[i..i + n] == b[j..j + n] && from <= to <= n
    ensures a[i + from..i + to] == b[j + from..j + to] && (from < to ==> a[i + from] == b[j + from])
  {
    var u, v := a[i + from..i + to], b[j + from..j + to];
    forall k | 0 <= k < to - from
      ensures u[k] == v[k]
    {
      assert a[i + (from + k)] == a[i..i + n][from + k] == b[j..j + n][from + k] == b[j + (from + k)];
    }
    if from < to {
      assert a[i + from] == a[i..i + n][from] && b[j + from] == b[j..j + n][from];
    }
  }

  /** A token is told by its own characters. */
  lemma TokenIsLocal(a: string, i: nat, b: string, j: nat)
    requires i < |a| && Step(a, i).Some? && Step(a, i).value.0.Some?
    requires var n := Step(a, i).value.1 - i;
      j + n <= |b| && a[i..i + n] == b[j..j + n]
    ensures Step(b, j) == Some((Step(a, i).value.0, j + (Step(a, i).value.1 - i)))
  {
    hide IsSpace, SpaceEnd, LineEnd, QuoteEnd, Unescape;
    var n := Step(a, i).value.1 - i;
    SamePart(a, i, b, j, n, 0, n);
    if a[i] == '\"' && !IsSpace(a[i]) {
      SamePart(a, i, b, j, n, 1, n);
      QuoteIsLocal(a, i + 1, b, j + 1);
      SamePart(a, i, b, j, n, 1, n - 1);
    }
  }

  lemma {:induction false} QuoteIsLocal(a: string, i: nat, b: string, j: nat)
    requires i <= |a| && QuoteEnd(a, i).Some?
    requires var n := QuoteEnd(a, i).value + 1 - i; j + n <= |b| && a[i..i + n] == b[j..j + n]
    ensures QuoteEnd(b, j) == Some(j + (QuoteEnd(a, i).value - i))
    decreases |a| - i
  {
    var n := QuoteEnd(a, i).value + 1 - i;
    SamePart(a, i, b, j, n, 0, n);
    if a[i] == '\\' {
      SamePart(a, i, b, j, n, 2, n);
      QuoteIsLocal(a, i + 2, b, j + 2);
    } else if a[i] != '\"' {
      SamePart(a, i, b, j, n, 1, n);
      QuoteIsLocal(a, i + 1, b, j + 1);
    }
  }

  /** A comment reaches to the end of its line. */
  lemma NoComment(text: string, pos: nat, close: nat)
    requires pos < close < |text| && text[close] == '}' && forall i :: pos <= i < close ==> text[i] != '\n'
    requires Step(text, pos).Some? && Step(text, pos).value.0 == None && Step(text, pos).value.1 <= close
    ensures IsSpace(text[pos])
  {
  }

  /** What is before a brace on its line is read the same where white space follows it. */
  lemma {:induction false} LineReadsAgain(text: string, pos: nat, close: nat, tokens: seq<Token>, text': string, q: nat)
    requires pos <= close < |text| && text[close] == '}' && forall i :: pos <= i < close ==> text[i] != '\n'
    requires Comes(text, pos, close, tokens)
    requires q + (close - pos) < |text'| && text'[q..q + (close - pos)] == text[pos..close]
    requires IsSpace(text'[q + (close - pos)])
    ensures TokensFrom(text', q) == After(tokens, TokensFrom(text', q + (close - pos)))
    decreases close - pos
  {
    hide Step, TokensFrom, IsSpace;
    if pos == close {
      AfterNothing(TokensFrom(text', q));
    } else {
      var s := Step(text, pos).value;
      var more := if s.0.Some? then tokens[1..] else tokens;
      ComesWithin(text, s.1, close, more);
      var n := s.1 - pos;
      assert text'[q + n..q + (close - pos)] == text'[q..q + (close - pos)][n..] == text[s.1..close];
      LineReadsAgain(text, s.1, close, more, text', q + n);
      var rest := TokensFrom(text', q + (close - pos));
      if s.0.Some? {
        assert text'[q..q + n] == text'[q..q + (close - pos)][..n] == text[pos..s.1];
        TokenIsLocal(text, pos, text', q);
        TokensStep(text', q);
        AfterTwice([tokens[0]], more, rest);
        assert [tokens[0]] + more == tokens;
      } else {
        NoComment(text, pos, close);
        SpaceStep(text, pos);
        forall i | q <= i < q + n
          ensures IsSpace(text'[i])
        {
          assert text'[i] == text'[q..q + (close - pos)][i - q] == text[pos..close][i - q] == text[pos + (i - q)];
        }
        SkipSpaces(text', q, n);
      }
    }
  }

  lemma SpaceStep(text: string, pos: nat)
    requires pos < |text| && IsSpace(text[pos])
    ensures Step(text, pos) == Some((None, SpaceEnd(text, pos)))
  {
  }

  lemma AfterTwice(a: seq<Token>, b: seq<Token>, rest: Option<seq<Token>>)
    ensures After(a, After(b, rest)) == After(a + b, rest)
  {
    if rest.Some? {
      assert a + (b + rest.value) == a + b + rest.value;
    }
  }

  /** Without tokens, there is nothing but white space. */
  lemma {:induction false} NoTokensNoLine(text: string, pos: nat, close: nat)
    requires pos <= close < |text| && text[close] == '}' && forall i :: pos <= i < close ==> text[i] != '\n'
    requires Comes(text, pos, close, [])
    ensures forall i :: pos <= i < close ==> IsSpace(text[i])
    decreases close - pos
  {
    hide Step, IsSpace;
    if pos < close {
      var s := Step(text, pos).value;
      ComesWithin(text, s.1, close, []);
      NoComment(text, pos, close);
      SpaceStep(text, pos);
      NoTokensNoLine(text, s.1, close);
    }
  }

  // ---- the line's tokens, and those before them ----

  /** The line does not begin within a string: white space at most is read up to its beginning. */
  ghost predicate BetweenTokens(text: string, at: nat) {
    at <= |text| && exists w, before :: ReadsTo(text, w, at, before)
  }

  ghost predicate ReadsTo(text: string, w: nat, at: nat, before: seq<Token>) {
    w <= at <= |text| && Comes(text, 0, w, before) && forall i :: w <= i < at ==> IsSpace(text[i])
  }

  /** Reading on from a place that is come to. */
  lemma {:induction false} ComesPast(text: string, pos: nat, w: nat, before: seq<Token>, close: nat, all: seq<Token>)
    requires pos <= |text| && w <= close && Comes(text, pos, w, before) && Comes(text, pos, close, all)
    ensures w <= |text| && |before| <= |all| && all[..|before|] == before && Comes(text, w, close, all[|before|..])
    decreases |text| - pos
  {
    hide Step;
    ComesWithin(text, pos, w, before);
    if pos == w {
      assert all[0..] == all;
    } else {
      var s := Step(text, pos).value;
      if s.0.Some? {
        ComesPast(text, s.1, w, before[1..], close, all[1..]);
        assert all[1..][..|before| - 1] == all[1..|before|];
        assert all[1..][|before| - 1..] == all[|before|..];
      } else {
        ComesPast(text, s.1, w, before, close, all);
      }
    }
  }

  lemma FromLineStart(text: string, w: nat, at: nat, close: nat, tokens: seq<Token>)
    requires w <= at <= close < |text| && !IsSpace(text[close]) && forall i :: w <= i < at ==> IsSpace(text[i])
    requires Comes(text, w, close, tokens)
    ensures Comes(text, at, close, tokens)
  {
    if w < at {
      SpaceStep(text, w);
      var e := SpaceEnd(text, w);
      ComesWithin(text, e, close, tokens);
      if at < e {
        SpaceRun(text, at, e);
        SpaceStep(text, at);
      }
    }
  }

  /** The tokens before a brace are those before its line, and those before it on its line. */
  lemma LineTokens(text: string, w: nat, before: seq<Token>, at: nat, close: nat, all: seq<Token>)
    requires ReadsTo(text, w, at, before) && at <= close < |text| && text[close] == '}' && Comes(text, 0, close, all)
    ensures |before| <= |all| && all[..|before|] == before && Comes(text, at, close, all[|before|..])
  {
    hide Step, Comes;
    ComesPast(text, 0, w, before, close, all);
    FromLineStart(text, w, at, close, all[|before|..]);
  }

  // ---- lines that begin with what is before the brace ----

  /** A token, the white space before it, and whether what is taken for the indentation is within that. */
  datatype Indented = Indented(lead: string, deep: bool, tabs: string, token: Token)

  function Spaced(parts: seq<Indented>, indent: string): (r: seq<Piece>)
    ensures |r| == |parts|
  {
    if parts == [] then []
    else
      var p := parts[0];
      [Piece(p.lead + (if p.deep then indent else "") + p.tabs, p.token)] + Spaced(parts[1..], indent)
  }

  function Expanded(parts: seq<Indented>, line: seq<Token>): seq<Token> {
    if parts == [] then []
    else (if parts[0].deep then line else []) + [parts[0].token] + Expanded(parts[1..], line)
  }

  function Depth(parts: seq<Indented>): nat {
    if parts == [] then 0 else (if parts[0].deep then 1 else 0) + Depth(parts[1..])
  }

  lemma {:induction false} ExpandedSize(parts: seq<Indented>, line: seq<Token>)
    ensures |Expanded(parts, line)| == |parts| + Depth(parts) * |line|
  {
    if parts != [] {
      ExpandedSize(parts[1..], line);
      if parts[0].deep {
        assert (1 + Depth(parts[1..])) * |line| == |line| + Depth(parts[1..]) * |line|;
      }
    }
  }

  /** A line's text and its tokens: what is before the brace. */
  ghost predicate IsLine(text: string, at: nat, close: nat, line: seq<Token>) {
    && at <= close < |text| && text[close] == '}' && (forall i :: at <= i < close ==> text[i] != '\n')
    && Comes(text, at, close, line)
  }

  /** What is taken for the indentation, if it is there, and the line's tokens then. */
  ghost predicate IsIndent(text: string, at: nat, close: nat, line: seq<Token>, deep: bool, indent: string,
                           own: seq<Token>) {
    && IsLine(text, at, close, line)
    && indent == (if deep then text[at..close] else "") && own == (if deep then line else [])
  }

  lemma IndentReads(text: string, at: nat, close: nat, line: seq<Token>, text': string, q: nat, deep: bool,
                    indent: string, own: seq<Token>, tail: string)
    requires IsIndent(text, at, close, line, deep, indent, own)
    requires q <= |text'| && text'[q..] == indent + tail && tail != [] && IsSpace(tail[0])
    ensures var end := q + |indent|;
      end <= |text'| && text'[end..] == tail && TokensFrom(text', q) == After(own, TokensFrom(text', end))
  {
    hide TokensFrom, IsSpace, IsLine, After;
    LineWithin(text, at, close, line);
    DropPart(text', q, indent, tail);
    if deep {
      var end := q + (close - at);
      assert text'[end] == text'[end..][0];
      LineAgain(text, at, close, line, text', q);
    } else {
      AfterNothing(TokensFrom(text', q));
    }
  }

  /** One token, the white space before it and what is taken for the indentation within that. */
  lemma PartReads(text: string, at: nat, close: nat, line: seq<Token>, text': string, q: nat, p: Indented,
                  indent: string, own: seq<Token>, rest: string)
    requires IsIndent(text, at, close, line, p.deep, indent, own)
    requires IsSpaces(p.lead) && IsSpaces(p.tabs) && p.tabs != []
    requires q <= |text'| && text'[q..] == (p.lead + indent + p.tabs) + Shown(p.token) + rest
    ensures var end := q + |p.lead + indent + p.tabs| + |Shown(p.token)|;
      && end <= |text'| && text'[end..] == rest
      && TokensFrom(text', q) == After(own + [p.token], TokensFrom(text', end))
  {
    hide Shown, TokensFrom, IsSpace, After, IsSpaces, IsIndent;
    var tail := p.tabs + Shown(p.token) + rest;
    Regrouped(p.lead, indent, p.tabs, Shown(p.token), rest);
    FirstIsSpace(p.tabs, Shown(p.token) + rest);
    IndentedReads(text, at, close, line, text', q, p, indent, own, tail);
    LastReads(text', q + |p.lead| + |indent|, p, own, tail, rest);
  }

  lemma IndentedReads(text: string, at: nat, close: nat, line: seq<Token>, text': string, q: nat, p: Indented,
                      indent: string, own: seq<Token>, tail: string)
    requires IsIndent(text, at, close, line, p.deep, indent, own) && IsSpaces(p.lead)
    requires q <= |text'| && text'[q..] == p.lead + (indent + tail) && tail != [] && IsSpace(tail[0])
    ensures var end := q + |p.lead| + |indent|;
      end <= |text'| && text'[end..] == tail && TokensFrom(text', q) == After(own, TokensFrom(text', end))
  {
    hide TokensFrom, IsSpace, After, IsSpaces, IsIndent;
    DropPart(text', q, p.lead, indent + tail);
    LeadReads(text', q, p.lead);
    IndentReads(text, at, close, line, text', q + |p.lead|, p.deep, indent, own, tail);
  }

  lemma LastReads(text': string, q: nat, p: Indented, own: seq<Token>, tail: string, rest: string)
    requires q <= |text'| && text'[q..] == tail == p.tabs + Shown(p.token) + rest && IsSpaces(p.tabs) && p.tabs != []
    ensures var end := q + |p.tabs| + |Shown(p.token)|;
      && end <= |text'| && text'[end..] == rest
      && After(own, TokensFrom(text', q)) == After(own + [p.token], TokensFrom(text', end))
  {
    hide Shown, TokensFrom, IsSpace, After, IsSpaces;
    PieceReads(text', q, Piece(p.tabs, p.token), rest);
    AfterTwice(own, [p.token], TokensFrom(text', q + |p.tabs| + |Shown(p.token)|));
  }

  lemma FirstIsSpace(tabs: string, rest: string)
    requires IsSpaces(tabs) && tabs != []
    ensures IsSpace((tabs + rest)[0])
  {
    hide IsSpace;
  }

  lemma Regrouped(a: string, b: string, c: string, d: string, e: string)
    ensures (a + b + c) + d + e == a + (b + (c + d + e)) && c + d + e == c + (d + e)
  {
  }

  lemma LineWithin(text: string, at: nat, close: nat, line: seq<Token>)
    requires IsLine(text, at, close, line)
    ensures at <= close < |text|
  {
  }

  lemma LeadReads(text': string, q: nat, lead: string)
    requires q + |lead| <= |text'| && text'[q..q + |lead|] == lead && IsSpaces(lead)
    ensures TokensFrom(text', q) == TokensFrom(text', q + |lead|)
  {
    hide TokensFrom, IsSpace;
    forall i | q <= i < q + |lead|
      ensures IsSpace(text'[i])
    {
      assert text'[i] == text'[q..q + |lead|][i - q];
    }
    SkipSpaces(text', q, |lead|);
  }

  lemma LineAgain(text: string, at: nat, close: nat, line: seq<Token>, text': string, q: nat)
    requires IsLine(text, at, close, line)
    requires q + (close - at) < |text'| && text'[q..q + (close - at)] == text[at..close]
    requires IsSpace(text'[q + (close - at)])
    ensures TokensFrom(text', q) == After(line, TokensFrom(text', q + (close - at)))
  {
    hide TokensFrom, IsSpace, Comes, After;
    LineReadsAgain(text, at, close, line, text', q);
  }

  predicate PartsOk(parts: seq<Indented>) {
    forall i :: 0 <= i < |parts| ==> IsSpaces(parts[i].lead) && IsSpaces(parts[i].tabs) && parts[i].tabs != []
  }

  /** Such lines are read as their tokens, with the line's own before each that is indented. */
  lemma {:induction false} PartsRead(text: string, at: nat, close: nat, line: seq<Token>, text': string, q: nat,
                                     parts: seq<Indented>, rest: string)
    requires IsLine(text, at, close, line) && PartsOk(parts)
    requires q <= |text'| && text'[q..] == Layout(Spaced(parts, text[at..close])) + rest
    ensures var end := q + |Layout(Spaced(parts, text[at..close]))|;
      && end <= |text'| && text'[end..] == rest
      && TokensFrom(text', q) == After(Expanded(parts, line), TokensFrom(text', end))
    decreases |parts|
  {
    hide Shown, TokensFrom, IsSpaces, IsLine, After;
    LineWithin(text, at, close, line);
    var indent := text[at..close];
    if parts == [] {
      assert text'[q..] == rest;
      AfterNothing(TokensFrom(text', q));
    } else {
      var p := parts[0];
      var first := Spaced(parts, indent)[0];
      assert Spaced(parts, indent)[1..] == Spaced(parts[1..], indent);
      var more := Layout(Spaced(parts[1..], indent));
      Assoc(first.space + Shown(first.token), more, rest);
      var own := if p.deep then line else [];
      PartReads(text, at, close, line, text', q, p, if p.deep then indent else "", own, more + rest);
      PartsRead(text, at, close, line, text', q + |first.space| + |Shown(first.token)|, parts[1..], rest);
      AfterTwice(own + [p.token], Expanded(parts[1..], line), TokensFrom(text', q + |Layout(Spaced(parts, indent))|));
    }
  }

  /** A text with such lines put in: the tokens before the line, those of the new lines, and the old line's again. */
  lemma {:induction false} LinesTokens(text: string, w: nat, before: seq<Token>, at: nat, close: nat,
                                       line: seq<Token>, parts: seq<Indented>)
    requires ReadsTo(text, w, at, before) && IsLine(text, at, close, line) && at < close
    requires PartsOk(parts) && parts != [] && parts[0].lead == "" && parts[0].deep
    ensures TokensFrom(text[..at] + (Layout(Spaced(parts, text[at..close])) + "\n") + text[at..], 0)
         == After(before + Expanded(parts, line) + line, TokensFrom(text, close))
  {
    hide Step, Comes, IsSpaces, TokensFrom, Layout, Spaced, Expanded, After, IsSpace;
    var shown := Layout(Spaced(parts, text[at..close]));
    var text' := text[..at] + (shown + "\n") + text[at..];
    FirstOfLine(text, at, close, parts);
    ComesSame(text, text', 0, w, before);
    ComesSplits(text', 0, w, before);
    assert forall i :: w <= i < at ==> text'[i] == text[i];
    SkipSpaces(text', w, at - w);
    assert text'[at..] == shown + ("\n" + text[at..]);
    PartsRead(text, at, close, line, text', at, parts, "\n" + text[at..]);
    var end := at + |shown|;
    NewlineIsSpace();
    assert text'[end..][0] == '\n';
    SkipSpace(text', end);
    assert text'[end + 1..] == text'[end..][1..] == text[at..];
    TokensMove(text', end + 1, text, at);
    ComesSplits(text, at, close, line);
    AfterTwice(Expanded(parts, line), line, TokensFrom(text, close));
    AfterTwice(before, Expanded(parts, line) + line, TokensFrom(text, close));
    assert before + (Expanded(parts, line) + line) == before + Expanded(parts, line) + line;
  }

  /** The first new line begins as the old one. */
  lemma {:induction false} FirstOfLine(text: string, at: nat, close: nat, parts: seq<Indented>)
    requires at < close < |text| && parts != [] && parts[0].lead == "" && parts[0].deep
    ensures var shown := Layout(Spaced(parts, text[at..close]));
      var text' := text[..at] + (shown + "\n") + text[at..];
      at < |text'| && text'[..at + 1] == text[..at + 1]
  {
    hide Shown;
    var shown := Layout(Spaced(parts, text[at..close]));
    assert shown[0] == text[at];
  }

  // ---- the options' lines ----

  function OptionsParts(new': string): (r: seq<Indented>)
    ensures |r| == 2
  {
    [Indented("", true, "\t", Str(OPTIONS)), Indented("", false, "\t\t", Str(new'))]
  }

  function AppParts(new': string): (r: seq<Indented>)
    ensures |r| == 5
  {
    [Indented("", true, "\t", Str(APP_ID)), Indented("\n", true, "\t", Open),
     Indented("\n", true, "\t\t", Str(OPTIONS)),
     Indented("", false, "\t\t", Str(new')), Indented("\n", true, "\t", Close)]
  }

  lemma SpacedFirst(p: Indented, rest: seq<Indented>, indent: string)
    ensures Spaced([p] + rest, indent) ==
      [Piece(p.lead + (if p.deep then indent else "") + p.tabs, p.token)] + Spaced(rest, indent)
  {
    assert ([p] + rest)[1..] == rest;
  }

  lemma SpacedOptions(indent: string, new': string)
    ensures Spaced(OptionsParts(new'), indent) == OptionsPieces(indent, new') && PartsOk(OptionsParts(new'))
  {
    var parts := OptionsParts(new');
    NewlineIsSpace();
    hide IsSpace, Spaced;
    NothingSpaced(indent);
    SpacedFirst(parts[1], [], indent);
    SpacedFirst(parts[0], [parts[1]], indent);
    assert "" + indent + "\t" == indent + "\t" && "" + "" + "\t\t" == "\t\t";
    assert [parts[0]] + [parts[1]] == parts && [parts[1]] + [] == [parts[1]];
  }

  lemma NothingSpaced(indent: string)
    ensures Spaced([], indent) == []
  {
  }

  lemma SpacedApp(indent: string, new': string)
    ensures Spaced(AppParts(new'), indent) == AppPieces(indent, new')
    ensures PartsOk(AppParts(new'))
  {
    var p := AppParts(new');
    AppPartsOk(new');
    hide PartsOk, Spaced;
    NothingSpaced(indent);
    SpacedFirst(p[4], [], indent);
    SpacedFirst(p[3], [p[4]] + [], indent);
    SpacedFirst(p[2], [p[3]] + ([p[4]] + []), indent);
    SpacedFirst(p[1], [p[2]] + ([p[3]] + ([p[4]] + [])), indent);
    SpacedFirst(p[0], [p[1]] + ([p[2]] + ([p[3]] + ([p[4]] + []))), indent);
    assert "" + indent + "\t" == indent + "\t" && "" + "" + "\t\t" == "\t\t";
    assert [p[0]] + ([p[1]] + ([p[2]] + ([p[3]] + ([p[4]] + [])))) == p;
  }

  lemma AppPartsOk(new': string)
    ensures PartsOk(AppParts(new'))
  {
    NewlineIsSpace();
    hide IsSpace;
  }

  /** What is put in before a brace that shares its line comes with the line's other tokens, and makes another tree. */
  lemma SharedLine(text: string, lexemes: seq<Lexeme>, root: seq<Node>, k: nat, parts: seq<Indented>, more: seq<Token>,
                   extra: seq<Tree>)
    requires Parse(text) == Some((lexemes, root)) && k < |lexemes| && lexemes[k].token == Close && k in Marks(root)
    requires lexemes[k].start < |text| && text[lexemes[k].start] == '}'
    requires BetweenTokens(text, LineStart(text, lexemes[k].start)) && !AloneOnLine(text, lexemes[k].start)
    requires AreEntries(more, extra) && |more| == |parts| && PartsOk(parts)
    requires parts != [] && parts[0].lead == "" && parts[0].deep
    ensures var lines := Layout(Spaced(parts, Indent(text, lexemes[k].start))) + "\n";
      var text' := PutBefore(text, lexemes[k].start, lines);
      Parse(text').Some? ==> Plain(Parse(text').value.1) != Changed(root, k, Append(extra))
  {
    var t := Tokens(lexemes);
    var close := lexemes[k].start;
    var at := LineStart(text, close);
    var text' := PutBefore(text, close, Layout(Spaced(parts, Indent(text, close))) + "\n");
    ParseIs(text);
    ParseIs(text');
    hide Parse, Root, Comes, TokensFrom, Lex, Plain, Changed, Marks, AreEntries, Append, Spaced, Layout, Expanded;
    hide PartsOk;
    hide LineStart, Depth, AloneOnLine;
    TokenPlaces(text, 0, k);
    var w, before :| ReadsTo(text, w, at, before);
    LineTokens(text, w, before, at, close, t[..k]);
    var line := t[..k][|before|..];
    NotAlone(text, close, line);
    LinesTokens(text, w, before, at, close, line, parts);
    ExpandedSize(parts, line);
    ChangedSize(t, k, more, extra);
    if Parse(text').Some? {
      RootSize(TokensFrom(text', 0).value);
      Longer(parts, |line|);
    }
  }

  lemma Longer(parts: seq<Indented>, n: nat)
    requires parts != [] && parts[0].deep && n > 0
    ensures Depth(parts) * n > 0
  {
    var depth := Depth(parts);
    assert depth > 0;
    hide Depth;
    assert depth * n >= n;
  }

  /** A line that is not white space has a token. */
  lemma NotAlone(text: string, close: nat, line: seq<Token>)
    requires close < |text| && text[close] == '}' && !AloneOnLine(text, close)
    requires Comes(text, LineStart(text, close), close, line)
    ensures line != [] && LineStart(text, close) < close
  {
    hide Comes, IsSpace;
    var at := LineStart(text, close);
    if line == [] {
      NoTokensNoLine(text, at, close);
      SpacesWithin(text, at, close);
    }
  }

  // ---- exactly when the options are set ----

  /** The edited text is accepted, and is the same tree but for the options. */
  ghost predicate OnlyOptions(lower: Lower, text: string, new': string)
    requires Parse(text).Some? && FindSpot(lower, Parse(text).value.1).Some?
  {
    var (lexemes, root) := Parse(text).value;
    var spot := FindSpot(lower, root).value.0;
    && SpotOk(text, lexemes, spot)
    && var text' := NewText(text, lexemes, spot, new');
       && Parse(text').Some?
       && Plain(Parse(text').value.1) == SetAt(lower, Plain(root), SpotPath(spot), SpotChange(spot, new'))
  }

  /** The line with the brace that something is put in before does not begin within a string. */
  ghost predicate SpotBetween(text: string, lexemes: seq<Lexeme>, spot: Spot)
    requires SpotOk(text, lexemes, spot)
  {
    spot.Over? || BetweenTokens(text, LineStart(text, lexemes[SpotMark(spot)].start))
  }

  lemma BraceIs(text: string, k: nat)
    requires Lex(text, 0).Some? && k < |Lex(text, 0).value| && Lex(text, 0).value[k].token == Close
    ensures var start := Lex(text, 0).value[k].start; start < |text| && text[start] == '}'
  {
    hide Lex, Comes, TokensFrom;
    TokenPlaces(text, 0, k);
  }

  lemma SharedSpot(text: string, lexemes: seq<Lexeme>, root: seq<Node>, spot: Spot, new': string)
    requires Parse(text) == Some((lexemes, root)) && SpotOk(text, lexemes, spot) && SpotMark(spot) in Marks(root)
    requires SpotBetween(text, lexemes, spot) && !SpotAlone(text, lexemes, spot)
    requires !spot.Over? ==> lexemes[SpotMark(spot)].token == Close
    ensures Parse(NewText(text, lexemes, spot, new')).Some? ==>
      Plain(Parse(NewText(text, lexemes, spot, new')).value.1) != Changed(root, SpotMark(spot), SpotChange(spot, new'))
  {
    var k := SpotMark(spot);
    ParseIs(text);
    hide Parse, Root, Plain, Changed, Marks, Layout, AloneOnLine, Lex, AreEntries, BetweenTokens, PartsOk, TokensFrom;
    hide OptionsPieces, AppPieces, Spaced, Append, LineStart;
    BraceIs(text, k);
    var indent := Indent(text, lexemes[k].start);
    if spot.InApp? {
      OptionsAreEntries(new');
      SpacedOptions(indent, new');
      SharedLine(text, lexemes, root, k, OptionsParts(new'), [Str(OPTIONS), Str(new')], [Leaf(OPTIONS, new')]);
    } else {
      AppIsEntry(new');
      SpacedApp(indent, new');
      SharedLine(text, lexemes, root, k, AppParts(new'), [Str(APP_ID), Open, Str(OPTIONS), Str(new'), Close],
                 [Branch(APP_ID, [Leaf(OPTIONS, new')])]);
    }
  }

  /** Setting the options does that and nothing else exactly if the brace they go before is alone on its line. */
  lemma OnlyOptionsIff(lower: Lower, text: string, new': string)
    requires Parse(text).Some? && FindSpot(lower, Parse(text).value.1).Some?
    ensures var (lexemes, root) := Parse(text).value;
      var spot := FindSpot(lower, root).value.0;
      && SpotOk(text, lexemes, spot)
      && (SpotBetween(text, lexemes, spot) ==> (OnlyOptions(lower, text, new') <==> SpotAlone(text, lexemes, spot)))
  {
    var (lexemes, root) := Parse(text).value;
    var t := Tokens(lexemes);
    ParseIs(text);
    RootIs(t);
    hide Parse, Root, Children, Plain, PathTo, FindSpot, SetAt, NewText, SpotAlone, SpotBetween, SpotPath;
    hide SpotChange, Lex;
    hide TokensFrom, Changed, Marks;
    EditedTree(lower, text, new');
    var spot := FindSpot(lower, root).value.0;
    SpotIsThere(lower, root);
    PathChanged(lower, t, 0, SpotPath(spot), SpotChange(spot, new'));
    if SpotBetween(text, lexemes, spot) && !SpotAlone(text, lexemes, spot) {
      SharedSpot(text, lexemes, root, spot, new');
    }
  }
}
