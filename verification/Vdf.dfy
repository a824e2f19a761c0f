/**
 Steam's KeyValues text (install.py): tokens with their places, blocks and
 values, and strings escaped and unescaped.
*/
module Vdf {
  import opened Wrappers

  // ---- escapes ----

  function Meaning(c: char): char {
    if c == 'n' then '\n' else if c == 't' then '\t' else c
  }

  /** A backslash and what follows it are one character; not so at a line's end. */
  function Unescape(s: string): string {
    if |s| < 2 then s
    else if s[0] == '\\' && s[1] != '\n' then [Meaning(s[1])] + Unescape(s[2..])
    else [s[0]] + Unescape(s[1..])
  }

  function Replace(s: string, c: char, by': string): string {
    if s == [] then [] else (if s[0] == c then by' else [s[0]]) + Replace(s[1..], c, by')
  }

  function Escape(s: string): string {
    Replace(Replace(s, '\\', "\\\\"), '\"', "\\\"")
  }

  function EscapedChar(c: char): string {
    if c == '\\' then "\\\\" else if c == '\"' then "\\\"" else [c]
  }

  lemma {:induction false} ReplaceConcat(a: string, b: string, c: char, by': string)
    ensures Replace(a + b, c, by') == Replace(a, c, by') + Replace(b, c, by')
  {
    if a == [] {
      assert a + b == b;
    } else {
      assert (a + b)[1..] == a[1..] + b;
      ReplaceConcat(a[1..], b, c, by');
    }
  }

  lemma EscapeFirst(s: string)
    requires s != []
    ensures Escape(s) == EscapedChar(s[0]) + Escape(s[1..])
  {
    var first := if s[0] == '\\' then "\\\\" else [s[0]];
    assert Replace(s, '\\', "\\\\") == first + Replace(s[1..], '\\', "\\\\");
    ReplaceConcat(first, Replace(s[1..], '\\', "\\\\"), '\"', "\\\"");
    assert Replace(first, '\"', "\\\"") == EscapedChar(s[0]) by {
      if s[0] == '\\' {
        assert first[1..] == "\\" && first[1..][1..] == "";
      }
    }
  }

  /** What is escaped is unescaped to itself. */
  lemma {:induction false} UnescapeEscape(s: string)
    ensures Unescape(Escape(s)) == s
  {
    if s != [] {
      EscapeFirst(s);
      UnescapeEscape(s[1..]);
      UnescapeFirst(s[0], Escape(s[1..]));
      assert [s[0]] + s[1..] == s;
    }
  }

  lemma UnescapeFirst(c: char, rest: string)
    ensures Unescape(EscapedChar(c) + rest) == [c] + Unescape(rest)
  {
    var s := EscapedChar(c) + rest;
    if c == '\\' || c == '\"' {
      assert s[0] == '\\' && s[1] == c && s[2..] == rest;
    } else {
      assert s[0] == c && s[1..] == rest;
    }
  }

  // ---- tokens ----

  datatype Token = Str(text: string) | Open | Close

  datatype Lexeme = Lexeme(token: Token, start: nat, end: nat)

  predicate IsSpace(c: char) {
    || '\t' <= c <= '\r' || 28 as char <= c <= ' ' || c == 0x85 as char || c == 0xa0 as char
    || c == '\U{1680}' || '\U{2000}' <= c <= '\U{200a}' || c == '\U{2028}' || c == '\U{2029}' || c == '\U{202f}'
    || c == '\U{205f}' || c == '\U{3000}'
  }

  function SpaceEnd(text: string, pos: nat): (r: nat)
    requires pos <= |text|
    ensures pos <= r <= |text|
    ensures forall i :: pos <= i < r ==> IsSpace(text[i])
    ensures r < |text| ==> !IsSpace(text[r])
    decreases |text| - pos
  {
    if pos < |text| && IsSpace(text[pos]) then SpaceEnd(text, pos + 1) else pos
  }

  function LineEnd(text: string, pos: nat): (r: nat)
    requires pos <= |text|
    ensures pos <= r <= |text|
    ensures forall i :: pos <= i < r ==> text[i] != '\n'
    ensures r < |text| ==> text[r] == '\n'
    decreases |text| - pos
  {
    if pos < |text| && text[pos] != '\n' then LineEnd(text, pos + 1) else pos
  }

  /** Where the quote is that ends a string. */
  function QuoteEnd(text: string, pos: nat): (r: Option<nat>)
    requires pos <= |text|
    ensures r.Some? ==> pos <= r.value < |text| && text[r.value] == '\"'
    decreases |text| - pos
  {
    if pos == |text| then None
    else if text[pos] == '\"' then Some(pos)
    else if text[pos] == '\\' then (if pos + 1 < |text| then QuoteEnd(text, pos + 2) else None)
    else QuoteEnd(text, pos + 1)
  }

  /** The next piece of text, its token if it is one, and where it ends. */
  function Step(text: string, pos: nat): (r: Option<(Option<Token>, nat)>)
    requires pos < |text|
    ensures r.Some? ==> pos < r.value.1 <= |text|
  {
    var c := text[pos];
    if IsSpace(c) then Some((None, SpaceEnd(text, pos)))
    else if c == '/' && pos + 1 < |text| && text[pos + 1] == '/' then Some((None, LineEnd(text, pos + 2)))
    else if c == '\"' then
      var e := QuoteEnd(text, pos + 1);
      if e == None then None else Some((Some(Str(Unescape(text[pos + 1..e.value]))), e.value + 1))
    else if c == '{' then Some((Some(Open), pos + 1))
    else if c == '}' then Some((Some(Close), pos + 1))
    else None
  }

  function Lex(text: string, pos: nat): Option<seq<Lexeme>>
    requires pos <= |text|
    decreases |text| - pos
  {
    if pos == |text| then Some([])
    else
      var s := Step(text, pos);
      if s == None then None
      else
        var rest := Lex(text, s.value.1);
        if rest == None then None
        else Some((if s.value.0.Some? then [Lexeme(s.value.0.value, pos, s.value.1)] else []) + rest.value)
  }

  // ---- blocks ----

  /** A value with its place among the tokens, or a block with its closing brace's. */
  datatype Node = Value(key: string, text: string, at: nat) | Block(key: string, children: seq<Node>, close: nat)

  function Tokens(lexemes: seq<Lexeme>): (r: seq<Token>)
    ensures |r| == |lexemes| && forall i :: 0 <= i < |r| ==> r[i] == lexemes[i].token
  {
    seq(|lexemes|, i requires 0 <= i < |lexemes| => lexemes[i].token)
  }

  /** The children of a block from token `i` on, and where they end: at a closing brace or at the end. */
  function Children(t: seq<Token>, i: nat): (r: Option<(seq<Node>, nat)>)
    requires i <= |t|
    ensures r.Some? ==> i <= r.value.1 <= |t| && (r.value.1 < |t| ==> t[r.value.1] == Close)
    decreases |t| - i
  {
    if i == |t| || t[i] == Close then Some(([], i))
    else if !t[i].Str? || i + 1 >= |t| then None
    else if t[i + 1].Str? then
      var rest := Children(t, i + 2);
      if rest == None then None else Some(([Value(t[i].text, t[i + 1].text, i + 1)] + rest.value.0, rest.value.1))
    else if t[i + 1] == Open then
      var inner := Children(t, i + 2);
      if inner == None || inner.value.1 == |t| then None
      else
        var rest := Children(t, inner.value.1 + 1);
        if rest == None then None
        else Some(([Block(t[i].text, inner.value.0, inner.value.1)] + rest.value.0, rest.value.1))
    else None
  }

  /** The root's children: everything, with no brace left over. */
  function Root(t: seq<Token>): Option<seq<Node>> {
    var r := Children(t, 0);
    if r == None || r.value.1 < |t| then None else Some(r.value.0)
  }

  // ---- parsing with a stack ----

  /** A block that is open: its key and the children so far. */
  datatype Frame = Frame(key: string, children: seq<Node>)

  /** What is read from token `i` on with these blocks open, the root the first of them. */
  function Finish(frames: seq<Frame>, t: seq<Token>, i: nat): Option<seq<Node>>
    requires frames != [] && i <= |t|
    decreases |frames|
  {
    var top := frames[|frames| - 1];
    var r := Children(t, i);
    if r == None then None
    else if |frames| == 1 then (if r.value.1 < |t| then None else Some(top.children + r.value.0))
    else if r.value.1 == |t| then None
    else
      Finish(WithChild(frames[..|frames| - 1], Block(top.key, top.children + r.value.0, r.value.1)), t, r.value.1 + 1)
  }

  function WithChild(frames: seq<Frame>, child: Node): (r: seq<Frame>)
    requires frames != []
    ensures |r| == |frames|
  {
    var n := |frames| - 1;
    frames[n := Frame(frames[n].key, frames[n].children + [child])]
  }

  lemma FinishClose(frames: seq<Frame>, t: seq<Token>, i: nat)
    requires frames != [] && i < |t| && t[i] == Close
    ensures Finish(frames, t, i) ==
      if |frames| == 1 then None
      else
        var top := frames[|frames| - 1];
        Finish(WithChild(frames[..|frames| - 1], Block(top.key, top.children, i)), t, i + 1)
  {
    assert frames[|frames| - 1].children + [] == frames[|frames| - 1].children;
  }

  lemma FinishValue(frames: seq<Frame>, t: seq<Token>, i: nat)
    requires frames != [] && i + 1 < |t| && t[i].Str? && t[i + 1].Str?
    ensures Finish(frames, t, i) == Finish(WithChild(frames, Value(t[i].text, t[i + 1].text, i + 1)), t, i + 2)
  {
    var n := |frames| - 1;
    var child := Value(t[i].text, t[i + 1].text, i + 1);
    var frames' := WithChild(frames, child);
    var rest := Children(t, i + 2);
    if rest.Some? {
      assert frames[n].children + ([child] + rest.value.0) == frames'[n].children + rest.value.0;
      assert frames'[..n] == frames[..n];
    }
  }

  lemma FinishOpen(frames: seq<Frame>, t: seq<Token>, i: nat)
    requires frames != [] && i + 1 < |t| && t[i].Str? && t[i + 1] == Open
    ensures Finish(frames, t, i) == Finish(frames + [Frame(t[i].text, [])], t, i + 2)
  {
    var n := |frames| - 1;
    var frames' := frames + [Frame(t[i].text, [])];
    var inner := Children(t, i + 2);
    assert frames'[..|frames|] == frames;
    if inner.Some? && inner.value.1 < |t| {
      var block := Block(t[i].text, inner.value.0, inner.value.1);
      assert [] + inner.value.0 == inner.value.0;
      var rest := Children(t, inner.value.1 + 1);
      var frames2 := WithChild(frames, block);
      if rest.Some? {
        assert frames[n].children + ([block] + rest.value.0) == frames2[n].children + rest.value.0;
        assert frames2[..n] == frames[..n];
      }
    }
  }

  /** The text's tokens, each with its place; none if there is something else in it. */
  method Tokenize(text: string) returns (r: Option<seq<Lexeme>>)
    ensures r == Lex(text, 0)
  {
    hide Step;
    var lexemes: seq<Lexeme> := [];
    var pos: nat := 0;
    PrependNone(Lex(text, 0));
    while pos < |text|
      invariant pos <= |text|
      invariant Lex(text, 0) == Prepend(lexemes, Lex(text, pos))
      decreases |text| - pos
    {
      var s := Step(text, pos);
      if s == None {
        return None;
      }
      ghost var rest := Lex(text, s.value.1);
      if s.value.0.Some? {
        PrependOne(lexemes, Lexeme(s.value.0.value, pos, s.value.1), rest);
        lexemes := lexemes + [Lexeme(s.value.0.value, pos, s.value.1)];
      } else {
        PrependNone(rest);
      }
      pos := s.value.1;
    }
    assert lexemes + [] == lexemes;
    return Some(lexemes);
  }

  function Prepend(done: seq<Lexeme>, rest: Option<seq<Lexeme>>): Option<seq<Lexeme>> {
    if rest == None then None else Some(done + rest.value)
  }

  lemma PrependOne(done: seq<Lexeme>, l: Lexeme, rest: Option<seq<Lexeme>>)
    ensures Prepend(done, Prepend([l], rest)) == Prepend(done + [l], rest)
  {
    if rest.Some? {
      assert done + ([l] + rest.value) == done + [l] + rest.value;
    }
  }

  lemma PrependNone(rest: Option<seq<Lexeme>>)
    ensures Prepend([], rest) == rest
  {
    if rest.Some? {
      assert [] + rest.value == rest.value;
    }
  }

  /** The root's children from the tokens, by a stack of open blocks. */
  method ParseTokens(t: seq<Token>) returns (root: Option<seq<Node>>)
    ensures root == Root(t)
  {
    hide Children, Finish, WithChild;
    var frames := [Frame("", [])];
    FinishStarts(t);
    var i: nat := 0;
    while i < |t|
      invariant frames != [] && i <= |t|
      invariant Finish(frames, t, i) == Root(t)
      decreases |t| - i
    {
      if t[i] == Close {
        FinishClose(frames, t, i);
        if |frames| == 1 {
          return None;
        }
        var top := frames[|frames| - 1];
        frames := WithChild(frames[..|frames| - 1], Block(top.key, top.children, i));
        i := i + 1;
      } else if !t[i].Str? || i + 1 >= |t| || t[i + 1] == Close {
        FinishFails(frames, t, i);
        return None;
      } else if t[i + 1].Str? {
        FinishValue(frames, t, i);
        frames := WithChild(frames, Value(t[i].text, t[i + 1].text, i + 1));
        i := i + 2;
      } else {
        FinishOpen(frames, t, i);
        frames := frames + [Frame(t[i].text, [])];
        i := i + 2;
      }
    }
    FinishEnds(frames, t);
    return if |frames| == 1 then Some(frames[0].children) else None;
  }

  lemma FinishStarts(t: seq<Token>)
    ensures Finish([Frame("", [])], t, 0) == Root(t)
  {
    var r := Children(t, 0);
    if r.Some? {
      assert [] + r.value.0 == r.value.0;
    }
  }

  lemma FinishFails(frames: seq<Frame>, t: seq<Token>, i: nat)
    requires frames != [] && i < |t| && t[i] != Close
    requires !t[i].Str? || i + 1 >= |t| || t[i + 1] == Close
    ensures Finish(frames, t, i) == None
  {
  }

  lemma FinishEnds(frames: seq<Frame>, t: seq<Token>)
    requires frames != []
    ensures Finish(frames, t, |t|) == if |frames| == 1 then Some(frames[0].children) else None
  {
    assert frames[|frames| - 1].children + [] == frames[|frames| - 1].children;
  }

  /** The root block of a text, with the places of its tokens; none if the text is not accepted. */
  function Parse(text: string): Option<(seq<Lexeme>, seq<Node>)> {
    var lexemes := Lex(text, 0);
    if lexemes == None then None
    else
      var root := Root(Tokens(lexemes.value));
      if root == None then None else Some((lexemes.value, root.value))
  }

  method ParseVdf(text: string) returns (r: Option<(seq<Lexeme>, seq<Node>)>)
    ensures r == Parse(text)
  {
    var lexemes := Tokenize(text);
    if lexemes == None {
      return None;
    }
    var root := ParseTokens(Tokens(lexemes.value));
    return if root == None then None else Some((lexemes.value, root.value));
  }
}
