/**
 Editing KeyValues text (install.py) as its tokens see it: a string replaced
 where it is, and lines put in before a closing brace that is alone on its line.
*/
module VdfText {
  import opened Sequences
  import opened Vdf
  import opened Wrappers

  // ---- the tokens of a part ----

  /** The tokens from a place on. */
  function TokensFrom(text: string, pos: nat): Option<seq<Token>>
    requires pos <= |text|
  {
    var l := Lex(text, pos);
    if l == None then None else Some(Tokens(l.value))
  }

  function After(done: seq<Token>, rest: Option<seq<Token>>): Option<seq<Token>> {
    if rest == None then None else Some(done + rest.value)
  }

  /** Reading from `pos` comes to `p`, with these tokens on the way. */
  ghost predicate Comes(text: string, pos: nat, p: nat, tokens: seq<Token>)
    requires pos <= |text|
    decreases |text| - pos
  {
    if pos >= p then pos == p && tokens == []
    else
      && pos < |text|
      && var s := Step(text, pos);
      && s.Some?
      && if s.value.0.Some? then tokens != [] && tokens[0] == s.value.0.value && Comes(text, s.value.1, p, tokens[1..])
         else Comes(text, s.value.1, p, tokens)
  }

  lemma TokensStep(text: string, pos: nat)
    requires pos < |text|
    ensures var s := Step(text, pos);
      TokensFrom(text, pos) ==
        if s == None then None
        else After(if s.value.0.Some? then [s.value.0.value] else [], TokensFrom(text, s.value.1))
  {
    hide Step;
    var s := Step(text, pos);
    if s.Some? {
      var rest := Lex(text, s.value.1);
      if rest.Some? {
        var first := if s.value.0.Some? then [Lexeme(s.value.0.value, pos, s.value.1)] else [];
        assert Tokens(first) == if s.value.0.Some? then [s.value.0.value] else [];
        assert Tokens(first + rest.value) == Tokens(first) + Tokens(rest.value);
      }
    }
  }

  /** The tokens of a text are those on the way to a place and those from there on. */
  lemma {:induction false} ComesSplits(text: string, pos: nat, p: nat, tokens: seq<Token>)
    requires pos <= |text| && p <= |text| && Comes(text, pos, p, tokens)
    ensures TokensFrom(text, pos) == After(tokens, TokensFrom(text, p))
    decreases |text| - pos
  {
    hide Step, Lex;
    if pos == p {
      var rest := TokensFrom(text, p);
      if rest.Some? {
        assert [] + rest.value == rest.value;
      }
    } else {
      TokensStep(text, pos);
      var s := Step(text, pos);
      var more := if s.value.0.Some? then tokens[1..] else tokens;
      ComesSplits(text, s.value.1, p, more);
      var rest := TokensFrom(text, p);
      if rest.Some? && s.value.0.Some? {
        assert [tokens[0]] + (more + rest.value) == tokens + rest.value;
      } else if rest.Some? {
        assert [] + (more + rest.value) == tokens + rest.value;
      }
    }
  }

  /** Where a step ends depends on the text up to there and one character more. */
  lemma StepIsLocal(text: string, text': string, pos: nat, p: nat)
    requires pos < p < |text| && p < |text'| && text[..p + 1] == text'[..p + 1]
    requires Step(text, pos).Some? && Step(text, pos).value.1 <= p
    ensures Step(text', pos) == Step(text, pos)
  {
    hide IsSpace, SpaceEnd, LineEnd, QuoteEnd, Unescape;
    var e := Step(text, pos).value.1;
    SameBefore(text, text', p);
    SpaceEndIsLocal(text, text', pos, p);
    if pos + 2 <= p {
      LineEndIsLocal(text, text', pos + 2, p);
    }
    QuoteEndIsLocal(text, text', pos + 1, p);
    if text[pos] == '\"' && !IsSpace(text[pos]) {
      assert text[pos + 1..e - 1] == text'[pos + 1..e - 1];
    }
  }

  lemma SameBefore(text: string, text': string, p: nat)
    requires p < |text| && p < |text'| && text[..p + 1] == text'[..p + 1]
    ensures forall i :: 0 <= i <= p ==> text[i] == text'[i]
  {
    forall i | 0 <= i <= p
      ensures text[i] == text'[i]
    {
      assert text[i] == text[..p + 1][i];
    }
  }

  lemma {:induction false} SpaceEndIsLocal(text: string, text': string, pos: nat, p: nat)
    requires pos <= p < |text| && p < |text'| && forall i :: 0 <= i <= p ==> text[i] == text'[i]
    ensures SpaceEnd(text, pos) <= p ==> SpaceEnd(text', pos) == SpaceEnd(text, pos)
    decreases p - pos
  {
    if pos < p && IsSpace(text[pos]) {
      SpaceEndIsLocal(text, text', pos + 1, p);
    }
  }

  lemma {:induction false} LineEndIsLocal(text: string, text': string, pos: nat, p: nat)
    requires pos <= p < |text| && p < |text'| && forall i :: 0 <= i <= p ==> text[i] == text'[i]
    ensures LineEnd(text, pos) <= p ==> LineEnd(text', pos) == LineEnd(text, pos)
    decreases p - pos
  {
    if pos < p && text[pos] != '\n' {
      LineEndIsLocal(text, text', pos + 1, p);
    }
  }

  lemma {:induction false} QuoteEndIsLocal(text: string, text': string, pos: nat, p: nat)
    requires pos <= |text| && pos <= |text'| && p < |text| && p < |text'|
    requires forall i :: 0 <= i <= p ==> text[i] == text'[i]
    ensures QuoteEnd(text, pos).Some? && QuoteEnd(text, pos).value < p ==> QuoteEnd(text', pos) == QuoteEnd(text, pos)
    decreases |text| - pos
  {
    if pos < p && text[pos] != '\"' {
      if text[pos] == '\\' {
        if pos + 1 < p {
          QuoteEndIsLocal(text, text', pos + 2, p);
        }
      } else {
        QuoteEndIsLocal(text, text', pos + 1, p);
      }
    }
  }

  /** A text that is the same up to a place, and at it, is read the same up to there. */
  lemma {:induction false} ComesSame(text: string, text': string, pos: nat, p: nat, tokens: seq<Token>)
    requires pos <= p < |text| && p < |text'| && text[..p + 1] == text'[..p + 1] && Comes(text, pos, p, tokens)
    ensures Comes(text', pos, p, tokens)
    decreases |text| - pos
  {
    hide Step;
    if pos < p {
      var s := Step(text, pos);
      ComesWithin(text, s.value.1, p, if s.value.0.Some? then tokens[1..] else tokens);
      StepIsLocal(text, text', pos, p);
      ComesSame(text, text', s.value.1, p, if s.value.0.Some? then tokens[1..] else tokens);
    }
  }

  lemma ComesWithin(text: string, pos: nat, p: nat, tokens: seq<Token>)
    requires pos <= |text| && Comes(text, pos, p, tokens)
    ensures pos <= p
  {
    hide Step;
  }

  // ---- texts with the same end ----

  lemma {:induction false} SpaceEndMoves(a: string, i: nat, b: string, j: nat)
    requires i <= |a| && j <= |b| && a[i..] == b[j..]
    ensures SpaceEnd(a, i) - i == SpaceEnd(b, j) - j
    decreases |a| - i
  {
    if i < |a| {
      assert a[i] == a[i..][0] && b[j] == b[j..][0] && a[i + 1..] == a[i..][1..] && b[j + 1..] == b[j..][1..];
      SpaceEndMoves(a, i + 1, b, j + 1);
    }
  }

  lemma {:induction false} LineEndMoves(a: string, i: nat, b: string, j: nat)
    requires i <= |a| && j <= |b| && a[i..] == b[j..]
    ensures LineEnd(a, i) - i == LineEnd(b, j) - j
    decreases |a| - i
  {
    if i < |a| {
      assert a[i] == a[i..][0] && b[j] == b[j..][0] && a[i + 1..] == a[i..][1..] && b[j + 1..] == b[j..][1..];
      LineEndMoves(a, i + 1, b, j + 1);
    }
  }

  lemma {:induction false} QuoteEndMoves(a: string, i: nat, b: string, j: nat)
    requires i <= |a| && j <= |b| && a[i..] == b[j..]
    ensures QuoteEnd(a, i).Some? <==> QuoteEnd(b, j).Some?
    ensures QuoteEnd(a, i).Some? ==> QuoteEnd(a, i).value - i == QuoteEnd(b, j).value - j
    decreases |a| - i
  {
    if i < |a| {
      assert |a| - i == |b| - j;
      assert a[i] == a[i..][0] && b[j] == b[j..][0] && a[i + 1..] == a[i..][1..] && b[j + 1..] == b[j..][1..];
      if i + 1 < |a| {
        assert a[i + 2..] == a[i..][2..] && b[j + 2..] == b[j..][2..];
      }
      if a[i] == '\\' {
        if i + 1 < |a| {
          QuoteEndMoves(a, i + 2, b, j + 2);
        }
      } else if a[i] != '\"' {
        QuoteEndMoves(a, i + 1, b, j + 1);
      }
    }
  }

  lemma TailsMove(a: string, i: nat, b: string, j: nat, n: nat)
    requires i + n <= |a| && j <= |b| && a[i..] == b[j..]
    ensures j + n <= |b| && a[i + n..] == b[j + n..] && a[i..i + n] == b[j..j + n]
  {
    assert a[i + n..] == a[i..][n..] && b[j + n..] == b[j..][n..];
    assert a[i..i + n] == a[i..][..n] && b[j..j + n] == b[j..][..n];
  }

  lemma StepMoves(a: string, i: nat, b: string, j: nat)
    requires i < |a| && j < |b| && a[i..] == b[j..]
    ensures Step(a, i).Some? <==> Step(b, j).Some?
    ensures Step(a, i).Some? ==>
      Step(a, i).value.0 == Step(b, j).value.0 && Step(a, i).value.1 - i == Step(b, j).value.1 - j
  {
    hide IsSpace, SpaceEnd, LineEnd, QuoteEnd, Unescape;
    FirstMoves(a, i, b, j);
    TailsMove(a, i, b, j, 1);
    if i + 1 < |a| {
      FirstMoves(a, i + 1, b, j + 1);
    }
    if IsSpace(a[i]) {
      SpaceEndMoves(a, i, b, j);
    } else if a[i] == '/' && i + 1 < |a| {
      TailsMove(a, i, b, j, 2);
      LineEndMoves(a, i + 2, b, j + 2);
    } else if a[i] == '\"' {
      QuotedMoves(a, i + 1, b, j + 1);
    }
  }

  lemma QuotedMoves(a: string, i: nat, b: string, j: nat)
    requires i <= |a| && j <= |b| && a[i..] == b[j..]
    ensures QuoteEnd(a, i).Some? <==> QuoteEnd(b, j).Some?
    ensures QuoteEnd(a, i).Some? ==>
      && QuoteEnd(a, i).value - i == QuoteEnd(b, j).value - j
      && a[i..QuoteEnd(a, i).value] == b[j..QuoteEnd(b, j).value]
  {
    hide QuoteEnd;
    QuoteEndMoves(a, i, b, j);
    if QuoteEnd(a, i).Some? {
      TailsMove(a, i, b, j, QuoteEnd(a, i).value - i);
    }
  }

  lemma FirstMoves(a: string, i: nat, b: string, j: nat)
    requires i < |a| && j <= |b| && a[i..] == b[j..]
    ensures j < |b| && a[i] == b[j] && |a| - i == |b| - j
  {
    assert a[i] == a[i..][0] && b[j] == b[j..][0];
  }

  /** The same end is read as the same tokens. */
  lemma {:induction false} TokensMove(a: string, i: nat, b: string, j: nat)
    requires i <= |a| && j <= |b| && a[i..] == b[j..]
    ensures TokensFrom(a, i) == TokensFrom(b, j)
    decreases |a| - i
  {
    hide Step, Lex;
    assert |a| - i == |b| - j;
    if i == |a| {
      NoTokens(a);
      NoTokens(b);
    } else {
      StepMoves(a, i, b, j);
      TokensStep(a, i);
      TokensStep(b, j);
      var s := Step(a, i);
      if s.Some? {
        TailsMove(a, i, b, j, s.value.1 - i);
        TokensMove(a, s.value.1, b, Step(b, j).value.1);
      }
    }
  }

  lemma NoTokens(a: string)
    ensures TokensFrom(a, |a|) == Some([])
  {
  }

  // ---- text made of tokens ----

  /** White space and a token after it. */
  datatype Piece = Piece(space: string, token: Token)

  predicate IsSpaces(s: string) {
    forall i :: 0 <= i < |s| ==> IsSpace(s[i])
  }

  function Shown(token: Token): string {
    match token
    case Str(text) => "\"" + Escape(text) + "\""
    case Open => "{"
    case Close => "}"
  }

  function Layout(pieces: seq<Piece>): string {
    if pieces == [] then "" else pieces[0].space + Shown(pieces[0].token) + Layout(pieces[1..])
  }

  function TokensOf(pieces: seq<Piece>): (r: seq<Token>)
    ensures |r| == |pieces| && forall i :: 0 <= i < |r| ==> r[i] == pieces[i].token
  {
    seq(|pieces|, i requires 0 <= i < |pieces| => pieces[i].token)
  }

  lemma {:induction false} SpaceRun(text: string, pos: nat, end: nat)
    requires pos <= end <= |text| && (forall i :: pos <= i < end ==> IsSpace(text[i]))
    requires end == |text| || !IsSpace(text[end])
    ensures SpaceEnd(text, pos) == end
    decreases end - pos
  {
    if pos < end {
      SpaceRun(text, pos + 1, end);
    }
  }

  /** A text's end that begins with a part: the part, and the end after it. */
  lemma DropPart(text: string, pos: nat, part: string, rest: string)
    requires pos <= |text| && text[pos..] == part + rest
    ensures pos + |part| <= |text| && text[pos + |part|..] == rest && text[pos..pos + |part|] == part
    ensures forall i :: 0 <= i < |part| ==> text[pos + i] == part[i]
  {
    assert text[pos..][|part|..] == rest && text[pos..][..|part|] == part;
    forall i | 0 <= i < |part|
      ensures text[pos + i] == part[i]
    {
      assert text[pos + i] == text[pos..][i];
    }
  }

  /** A string that is escaped ends at the quote put after it. */
  lemma {:induction false} EscapedEnds(text: string, pos: nat, s: string, rest: string)
    requires pos <= |text| && text[pos..] == Escape(s) + ("\"" + rest)
    ensures QuoteEnd(text, pos) == Some(pos + |Escape(s)|)
    decreases |s|
  {
    hide QuoteEnd, Escape, EscapedChar;
    var tail := "\"" + rest;
    if s == [] {
      NothingEscaped();
      assert Escape(s) + tail == tail;
      DropPart(text, pos, "\"", rest);
      QuoteHere(text, pos);
    } else {
      EscapeFirst(s);
      var first := EscapedChar(s[0]);
      Assoc(first, Escape(s[1..]), tail);
      DropPart(text, pos, first, Escape(s[1..]) + tail);
      EscapedEnds(text, pos + |first|, s[1..], rest);
      QuotePast(text, pos, s[0]);
    }
  }

  lemma NothingEscaped()
    ensures Escape([]) == []
  {
  }

  lemma QuoteHere(text: string, pos: nat)
    requires pos < |text| && text[pos] == '\"'
    ensures QuoteEnd(text, pos) == Some(pos)
  {
  }

  /** A string's end is not at a character that is escaped. */
  lemma QuotePast(text: string, pos: nat, c: char)
    requires pos + |EscapedChar(c)| <= |text|
    requires forall i :: 0 <= i < |EscapedChar(c)| ==> text[pos + i] == EscapedChar(c)[i]
    ensures QuoteEnd(text, pos) == QuoteEnd(text, pos + |EscapedChar(c)|)
  {
    var first := EscapedChar(c);
    assert text[pos + 0] == first[0];
    if |first| == 2 {
      assert text[pos + 1] == first[1];
    }
  }

  lemma StringReads(text: string, pos: nat, s: string, rest: string)
    requires pos < |text| && text[pos..] == "\"" + Escape(s) + ("\"" + rest)
    ensures Step(text, pos) == Some((Some(Str(s)), pos + |Escape(s)| + 2))
  {
    hide Escape, Unescape, QuoteEnd;
    var tail := "\"" + rest;
    Assoc("\"", Escape(s), tail);
    DropPart(text, pos, "\"", Escape(s) + tail);
    assert text[pos + 0] == '\"';
    EscapedEnds(text, pos + 1, s, rest);
    DropPart(text, pos + 1, Escape(s), tail);
    UnescapeEscape(s);
    QuotedStep(text, pos);
  }

  lemma QuotedStep(text: string, pos: nat)
    requires pos < |text| && text[pos] == '\"'
    ensures Step(text, pos) ==
      var e := QuoteEnd(text, pos + 1);
      if e == None then None else Some((Some(Str(Unescape(text[pos + 1..e.value]))), e.value + 1))
  {
  }

  /** A token that is shown is read as itself. */
  lemma ShownReads(text: string, pos: nat, token: Token, rest: string)
    requires pos < |text| && text[pos..] == Shown(token) + rest
    ensures Step(text, pos) == Some((Some(token), pos + |Shown(token)|))
  {
    hide Escape;
    assert text[pos] == text[pos..][0] == Shown(token)[0];
    if token.Str? {
      assert text[pos..] == "\"" + Escape(token.text) + ("\"" + rest);
      StringReads(text, pos, token.text, rest);
    }
  }

  lemma ShownIsNoSpace(token: Token)
    ensures Shown(token) != [] && !IsSpace(Shown(token)[0])
  {
    hide Escape;
  }

  lemma SpaceReads(text: string, pos: nat, space: string, tail: string)
    requires pos <= |text| && text[pos..] == space + tail && space != [] && IsSpaces(space)
    requires tail != [] && !IsSpace(tail[0])
    ensures Step(text, pos) == Some((None, pos + |space|)) && pos + |space| < |text| && text[pos + |space|..] == tail
  {
    var n := |space|;
    forall i | pos <= i < pos + n
      ensures IsSpace(text[i])
    {
      assert text[i] == text[pos..][i - pos] == space[i - pos];
    }
    assert text[pos + n..] == text[pos..][n..] == tail;
    assert text[pos + n] == text[pos + n..][0];
    hide IsSpace;
    SpaceRun(text, pos, pos + n);
  }

  /** White space and a token after it are read as the token. */
  lemma PieceReads(text: string, pos: nat, piece: Piece, rest: string)
    requires pos <= |text| && text[pos..] == piece.space + Shown(piece.token) + rest
    requires piece.space != [] && IsSpaces(piece.space)
    ensures var p := pos + |piece.space| + |Shown(piece.token)|;
      && p <= |text| && text[p..] == rest
      && TokensFrom(text, pos) == After([piece.token], TokensFrom(text, p))
  {
    hide Shown, Step, TokensFrom, IsSpace, IsSpaces;
    var n := |piece.space|;
    var tail := Shown(piece.token) + rest;
    ShownIsNoSpace(piece.token);
    assert text[pos..] == piece.space + tail;
    SpaceReads(text, pos, piece.space, tail);
    TokensStep(text, pos);
    ShownReads(text, pos + n, piece.token, rest);
    TokensStep(text, pos + n);
    var p := pos + n + |Shown(piece.token)|;
    assert text[p..] == text[pos + n..][|Shown(piece.token)|..] == rest;
    var more := TokensFrom(text, p);
    if more.Some? {
      assert [] + ([piece.token] + more.value) == [piece.token] + more.value;
    }
  }

  /** Tokens laid out with white space before each are read as those tokens. */
  lemma {:induction false} LayoutReads(text: string, pos: nat, pieces: seq<Piece>, rest: string)
    requires pos <= |text| && text[pos..] == Layout(pieces) + rest
    requires forall i :: 0 <= i < |pieces| ==> pieces[i].space != [] && IsSpaces(pieces[i].space)
    ensures var p := pos + |Layout(pieces)|;
      && p <= |text| && text[p..] == rest
      && TokensFrom(text, pos) == After(TokensOf(pieces), TokensFrom(text, p))
    decreases |pieces|
  {
    hide Shown, TokensFrom, IsSpaces, After, TokensOf;
    if pieces == [] {
      assert text[pos..] == rest;
      AfterNothing(TokensFrom(text, pos));
      assert TokensOf(pieces) == [];
    } else {
      var first := pieces[0];
      Assoc(first.space + Shown(first.token), Layout(pieces[1..]), rest);
      PieceReads(text, pos, first, Layout(pieces[1..]) + rest);
      var q := pos + |first.space| + |Shown(first.token)|;
      LayoutReads(text, q, pieces[1..], rest);
      AfterBoth(first.token, pieces, TokensFrom(text, pos + |Layout(pieces)|));
    }
  }

  lemma AfterNothing(rest: Option<seq<Token>>)
    ensures After([], rest) == rest
  {
    if rest.Some? {
      assert [] + rest.value == rest.value;
    }
  }

  lemma AfterBoth(first: Token, pieces: seq<Piece>, rest: Option<seq<Token>>)
    requires pieces != [] && pieces[0].token == first
    ensures After([first], After(TokensOf(pieces[1..]), rest)) == After(TokensOf(pieces), rest)
  {
    assert TokensOf(pieces) == [first] + TokensOf(pieces[1..]);
    if rest.Some? {
      assert [first] + (TokensOf(pieces[1..]) + rest.value) == TokensOf(pieces) + rest.value;
    }
  }

  // ---- the two edits ----

  /** A token replaced by another where it is. */
  lemma {:induction false} Replaced(text: string, before: seq<Token>, start: nat, end: nat, new': string)
    requires start < end <= |text| && Comes(text, 0, start, before) && text[start] == '\"'
    ensures var text' := text[..start] + ("\"" + Escape(new') + "\"") + text[end..];
      TokensFrom(text', 0) == After(before, After([Str(new')], TokensFrom(text, end)))
  {
    hide Shown, TokensFrom, After, Comes, Step, Escape;
    var shown := Shown(Str(new'));
    ShownString(new');
    var text' := text[..start] + shown + text[end..];
    ReplacedText(text, start, end, shown);
    ComesSame(text, text', 0, start, before);
    ComesSplits(text', 0, start, before);
    ShownReads(text', start, Str(new'), text[end..]);
    TokensStep(text', start);
    DropPart(text', start, shown, text[end..]);
    TokensMove(text', start + |shown|, text, end);
    assert TokensFrom(text', start) == After([Str(new')], TokensFrom(text, end));
  }

  lemma ShownString(s: string)
    ensures Shown(Str(s)) == "\"" + Escape(s) + "\"" && Shown(Str(s))[0] == '\"'
  {
    hide Escape;
  }

  lemma ReplacedText(text: string, start: nat, end: nat, shown: string)
    requires start < end <= |text| && shown != [] && shown[0] == text[start]
    ensures var text' := text[..start] + shown + text[end..];
      start < |text'| && text'[start..] == shown + text[end..] && text[..start + 1] == text'[..start + 1]
  {
  }

  /** Where the white space before a token begins. */
  lemma {:induction false} LastStep(text: string, pos: nat, p: nat, tokens: seq<Token>)
      returns (w: nat, before: seq<Token>)
    requires pos < p <= |text| && Comes(text, pos, p, tokens)
    ensures pos <= w < p && Comes(text, pos, w, before) && Step(text, w).Some? && Step(text, w).value.1 == p
    ensures tokens == before + (if Step(text, w).value.0.Some? then [Step(text, w).value.0.value] else [])
    decreases |text| - pos
  {
    hide Step;
    var s := Step(text, pos).value;
    var more := if s.0.Some? then tokens[1..] else tokens;
    ComesWithin(text, s.1, p, more);
    if s.1 == p {
      w, before := pos, [];
    } else {
      w, before := LastStep(text, s.1, p, more);
      if s.0.Some? {
        before := [s.0.value] + before;
        assert before[1..] == before[1..];
      }
    }
  }

  /** Where the line begins that a place is on. */
  function LineStart(text: string, pos: nat): (r: nat)
    requires pos <= |text|
    ensures r <= pos && (r > 0 ==> text[r - 1] == '\n') && forall i :: r <= i < pos ==> text[i] != '\n'
  {
    if pos == 0 || text[pos - 1] == '\n' then pos else LineStart(text, pos - 1)
  }

  /** A closing brace with nothing but white space before it on its line. */
  predicate AloneOnLine(text: string, close: nat) {
    close < |text| && text[close] == '}' && IsSpaces(text[LineStart(text, close)..close])
  }

  lemma AloneIsIndented(text: string, close: nat)
    requires AloneOnLine(text, close)
    ensures forall i :: LineStart(text, close) <= i < close ==> IsSpace(text[i])
  {
    var at := LineStart(text, close);
    forall i | at <= i < close
      ensures IsSpace(text[i])
    {
      assert text[i] == text[at..close][i - at];
    }
  }

  /** A step that ends after white space, and not at a line's end, is white space to its end. */
  lemma StepOfSpaces(text: string, w: nat, p: nat)
    requires w < p < |text| && Step(text, w).Some? && Step(text, w).value.1 == p
    requires IsSpace(text[p - 1]) && text[p] != '\n'
    ensures Step(text, w).value.0 == None && !IsSpace(text[p]) && forall i :: w <= i < p ==> IsSpace(text[i])
  {
  }

  lemma NoTokenInSpace(text: string, close: nat, tokens: seq<Token>)
    requires AloneOnLine(text, close) && Comes(text, 0, close, tokens) && LineStart(text, close) == 0
    ensures tokens == []
  {
    AloneIsIndented(text, close);
    if close > 0 {
      SpaceRun(text, 0, close);
      assert Step(text, 0) == Some((None, close));
    }
  }

  /** Before a brace that is alone on its line, white space reaches back over the line's start. */
  lemma SpaceBeforeBrace(text: string, close: nat, tokens: seq<Token>) returns (w: nat)
    requires AloneOnLine(text, close) && Comes(text, 0, close, tokens) && tokens != []
    ensures w < LineStart(text, close) && Comes(text, 0, w, tokens)
    ensures forall i :: w <= i < close ==> IsSpace(text[i])
  {
    hide Step, Comes, IsSpace;
    var at := LineStart(text, close);
    if at == 0 {
      NoTokenInSpace(text, close, tokens);
      assert false;
    }
    AloneIsIndented(text, close);
    NewlineIsSpace();
    var before: seq<Token>;
    w, before := LastStep(text, 0, close, tokens);
    StepOfSpaces(text, w, close);
    assert before + [] == before;
    if w >= at {
      var w2, before2 := LastStep(text, 0, w, before);
      StepOfSpaces(text, w2, w);
    }
  }

  lemma NewlineIsSpace()
    ensures IsSpace('\n') && IsSpace('\t')
  {
  }

  /** Lines put in before a brace that is alone on its line are read as their tokens, before the brace's. */
  lemma {:induction false} Inserted(text: string, before: seq<Token>, close: nat, pieces: seq<Piece>)
    requires AloneOnLine(text, close) && Comes(text, 0, close, before) && before != [] && pieces != []
    requires forall i :: 0 <= i < |pieces| ==> pieces[i].space != [] && IsSpaces(pieces[i].space)
    ensures var at := LineStart(text, close);
      TokensFrom(text[..at] + (Layout(pieces) + "\n") + text[at..], 0)
        == After(before, After(TokensOf(pieces), TokensFrom(text, close)))
  {
    hide Step, Comes, IsSpace, IsSpaces, TokensFrom, Layout, AloneOnLine, LineStart, TokensOf, After;
    AloneAt(text, close);
    var at := LineStart(text, close);
    var w := SpaceBeforeBrace(text, close, before);
    var text' := text[..at] + (Layout(pieces) + "\n") + text[at..];
    var all := WithSpace(text[w..at], pieces);
    InsertedText(text, w, at, pieces);
    ComesSame(text, text', 0, w, before);
    ComesSplits(text', 0, w, before);
    SpacesWithin(text, w, at);
    MergedPieces(text[w..at], pieces);
    LayoutReads(text', w, all, "\n" + text[at..]);
    LineReads(text', w + |Layout(all)|, text, at, close);
  }

  function WithSpace(space: string, pieces: seq<Piece>): seq<Piece>
    requires pieces != []
  {
    [Piece(space + pieces[0].space, pieces[0].token)] + pieces[1..]
  }

  lemma AloneAt(text: string, close: nat)
    requires AloneOnLine(text, close)
    ensures close < |text| && text[close] == '}'
  {
  }

  lemma SpacesWithin(text: string, w: nat, at: nat)
    requires w <= at <= |text| && forall i :: w <= i < at ==> IsSpace(text[i])
    ensures IsSpaces(text[w..at])
  {
    hide IsSpace;
  }

  /** The text with lines put in, from the white space before them on. */
  lemma {:induction false} InsertedText(text: string, w: nat, at: nat, pieces: seq<Piece>)
    requires w < at <= |text| && pieces != []
    ensures var text' := text[..at] + (Layout(pieces) + "\n") + text[at..];
      && text[..w + 1] == text'[..w + 1]
      && text'[w..] == Layout(WithSpace(text[w..at], pieces)) + ("\n" + text[at..])
  {
    MergedSpace(text[w..at], pieces);
    hide Layout, WithSpace;
    SplitAt(text, w, at, Layout(pieces), "\n");
  }

  lemma SplitAt(text: string, w: nat, at: nat, a: string, b: string)
    requires w < at <= |text|
    ensures var text' := text[..at] + (a + b) + text[at..];
      text[..w + 1] == text'[..w + 1] && text'[w..] == (text[w..at] + a) + (b + text[at..])
  {
  }

  lemma {:induction false} MergedPieces(space: string, pieces: seq<Piece>)
    requires pieces != [] && IsSpaces(space)
    requires forall i :: 0 <= i < |pieces| ==> pieces[i].space != [] && IsSpaces(pieces[i].space)
    ensures var all := WithSpace(space, pieces);
      && (forall i :: 0 <= i < |all| ==> all[i].space != [] && IsSpaces(all[i].space))
      && TokensOf(all) == TokensOf(pieces)
  {
    hide IsSpace;
  }

  lemma {:induction false} MergedSpace(space: string, pieces: seq<Piece>)
    requires pieces != []
    ensures Layout(WithSpace(space, pieces)) == space + Layout(pieces)
  {
    hide Shown;
    var all := WithSpace(space, pieces);
    assert all[1..] == pieces[1..];
    assert Layout(all) == space + pieces[0].space + Shown(pieces[0].token) + Layout(pieces[1..]);
    Joined(space, pieces[0].space, Shown(pieces[0].token), Layout(pieces[1..]));
  }

  lemma Joined(a: string, b: string, c: string, d: string)
    ensures a + b + c + d == a + (b + c + d)
  {
  }

  lemma LineReads(text': string, p: nat, text: string, at: nat, close: nat)
    requires at <= close < |text| && p <= |text'| && text'[p..] == "\n" + text[at..]
    requires text[close] == '}' && forall i :: at <= i < close ==> IsSpace(text[i])
    ensures TokensFrom(text', p) == TokensFrom(text, close)
  {
    NewlineIsSpace();
    assert !IsSpace(text[close]);
    hide IsSpace, Step, TokensFrom;
    var space := "\n" + text[at..close];
    assert text'[p..] == space + text[close..];
    SpaceReads(text', p, space, text[close..]);
    TokensStep(text', p);
    TokensMove(text', p + |space|, text, close);
    var rest := TokensFrom(text, close);
    if rest.Some? {
      assert [] + rest.value == rest.value;
    }
  }

  // ---- where a text's tokens are ----

  predicate PlaceOk(text: string, l: Lexeme) {
    && l.start < l.end <= |text| && Step(text, l.start) == Some((Some(l.token), l.end))
  }

  /** A token is at its place: reading comes there with the tokens before it, and goes on with those after. */
  lemma {:induction false} TokenPlaces(text: string, pos: nat, k: nat)
    requires pos <= |text| && Lex(text, pos).Some? && k < |Lex(text, pos).value|
    ensures Placed(text, pos, Lex(text, pos).value, k)
    decreases |text| - pos
  {
    hide Step, Placed, Comes, TokensFrom;
    var l := Lex(text, pos).value;
    var s := Step(text, pos).value;
    var rest := Lex(text, s.1).value;
    if s.0.Some? && k == 0 {
      FirstPlaced(text, pos);
    } else {
      TokenPlaces(text, s.1, if s.0.Some? then k - 1 else k);
      StillPlaced(text, pos, rest, k);
    }
  }

  ghost predicate Placed(text: string, pos: nat, l: seq<Lexeme>, k: nat)
    requires pos <= |text| && k < |l|
  {
    && PlaceOk(text, l[k]) && Comes(text, pos, l[k].start, Tokens(l)[..k])
    && TokensFrom(text, l[k].start) == Some(Tokens(l)[k..]) && TokensFrom(text, l[k].end) == Some(Tokens(l)[k + 1..])
  }

  lemma FirstPlaced(text: string, pos: nat)
    requires pos < |text| && Lex(text, pos).Some? && Step(text, pos).value.0.Some?
    ensures Lex(text, pos).value != [] && Placed(text, pos, Lex(text, pos).value, 0)
  {
    hide Step;
    var l := Lex(text, pos).value;
    var s := Step(text, pos).value;
    var rest := Lex(text, s.1).value;
    assert l == [Lexeme(s.0.value, pos, s.1)] + rest;
    assert Tokens(l)[0..] == Tokens(l) && Tokens(l)[1..] == Tokens(rest);
  }

  /** A token's place, seen from a step before. */
  lemma {:induction false} StillPlaced(text: string, pos: nat, rest: seq<Lexeme>, k: nat)
    requires pos < |text| && Step(text, pos).Some?
    requires var s := Step(text, pos).value;
      if s.0.Some? then 0 < k <= |rest| && Placed(text, s.1, rest, k - 1) else k < |rest| && Placed(text, s.1, rest, k)
    ensures var s := Step(text, pos).value;
      var l := (if s.0.Some? then [Lexeme(s.0.value, pos, s.1)] else []) + rest;
      Placed(text, pos, l, k)
  {
    hide Step, TokensFrom, PlaceOk, Comes;
    var s := Step(text, pos).value;
    var n := if s.0.Some? then k - 1 else k;
    var start := rest[n].start;
    if s.0.Some? {
      var first := Lexeme(s.0.value, pos, s.1);
      TokensAfter(first, rest, k);
      ComesOver(text, pos, start, Tokens([first] + rest)[..k]);
    } else {
      ComesOver(text, pos, start, Tokens(rest)[..k]);
      assert [] + rest == rest;
    }
  }

  lemma TokensAfter(first: Lexeme, rest: seq<Lexeme>, k: nat)
    requires 0 < k <= |rest|
    ensures var t := Tokens([first] + rest);
      && t[..k] != [] && t[0] == first.token && t[..k][1..] == Tokens(rest)[..k - 1]
      && t[k..] == Tokens(rest)[k - 1..] && t[k + 1..] == Tokens(rest)[k..]
  {
  }

  /** What is come to from where a step ends is come to over the step. */
  lemma ComesOver(text: string, pos: nat, p: nat, tokens: seq<Token>)
    requires pos < |text| && Step(text, pos).Some?
    requires var s := Step(text, pos).value;
      if s.0.Some? then tokens != [] && tokens[0] == s.0.value && Comes(text, s.1, p, tokens[1..])
      else Comes(text, s.1, p, tokens)
    ensures Comes(text, pos, p, tokens)
  {
    hide Step;
    ComesForward(text, Step(text, pos).value.1, p);
  }

  lemma ComesForward(text: string, pos: nat, p: nat)
    requires pos <= |text|
    ensures forall tokens :: Comes(text, pos, p, tokens) ==> pos <= p
  {
    hide Step;
  }
}
