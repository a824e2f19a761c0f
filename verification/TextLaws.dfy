/**
 The strings of a text file and what they are the values of, told from the
 text's bytes apart from the functions that scan it (src/pak_fix.cpp).
*/
module TextLaws {
  import opened BitStrings
  import opened Components
  import opened References
  import opened Scanning
  import opened Spelling
  import opened Wrappers

  /** Folding is of the 26 capital letters, and of a backslash to a slash. */
  lemma FoldLaw(c: byte)
    ensures 'A' as int <= c <= 'Z' as int ==> Fold(c) == c + ('a' as int - 'A' as int)
    ensures c == '\\' as int ==> Fold(c) == '/' as int
    ensures !('A' as int <= c <= 'Z' as int) && c != '\\' as int ==> Fold(c) == c
  {
  }

  // ---- strings ----

  /** The strings from `at` on. */
  function StringsAfter(text: Text, at: nat): seq<Token>
    requires at <= |text|
  {
    TextTokens(text, at, AfterLast(text[..at], 10))
  }

  predicate NoQuote(text: Text, at: nat, end: nat)
    requires end <= |text|
  {
    forall i :: at <= i < end ==> text[i] != 34 && text[i] != 39
  }

  lemma LineStep(text: Text, at: nat)
    requires at < |text|
    ensures AfterLast(text[..at + 1], 10) == if text[at] == 10 then at + 1 else AfterLast(text[..at], 10)
  {
    assert text[..at + 1] == text[..at] + [text[at]] && text[..at + 1][..at] == text[..at];
  }

  lemma {:induction false} SameLine(text: Text, at: nat, end: nat)
    requires at <= end <= |text| && forall i :: at <= i < end ==> text[i] != 10
    ensures AfterLast(text[..end], 10) == AfterLast(text[..at], 10)
  {
    if at < end {
      SameLine(text, at, end - 1);
      LineStep(text, end - 1);
    }
  }

  /** What is no quote is passed over. */
  lemma {:induction false} PassOver(text: Text, at: nat, q: nat)
    requires at <= q <= |text| && NoQuote(text, at, q)
    ensures StringsAfter(text, at) == StringsAfter(text, q)
    decreases q - at
  {
    hide AfterLast, TextTokens;
    if at < q {
      TextStep(text, at, AfterLast(text[..at], 10));
      LineStep(text, at);
      PassOver(text, at + 1, q);
    }
  }

  lemma {:induction false} QuoteEndIs(text: Text, q: nat, from: nat, e: nat)
    requires q < from <= e < |text| && text[e] == text[q] && e - q <= 257
    requires forall i :: from <= i < e ==> text[i] != text[q] && text[i] != 10
    ensures QuoteEnd(text, q, from) == e
    decreases e - from
  {
    if from < e {
      QuoteEndIs(text, q, from + 1, e);
    }
  }

  lemma {:induction false} QuoteEndLaw(text: Text, q: nat, from: nat)
    requires q < from <= |text| && from - q <= 257
    ensures var e := QuoteEnd(text, q, from);
      && e - q <= 257 && forall i :: from <= i < e ==> text[i] != text[q] && text[i] != 10
    decreases |text| - from
  {
    if from < |text| && text[from] != text[q] && text[from] != NEWLINE && from - q <= 256 {
      QuoteEndLaw(text, q, from + 1);
    }
  }

  /**
   The next string of a text: between two quotes of one kind, with none of
   that kind, no line end and at most 256 bytes between them.
  */
  lemma QuotedString(text: Text, at: nat, q: nat, e: nat)
    requires at <= q < e < |text| && NoQuote(text, at, q) && (text[q] == 34 || text[q] == 39)
    requires text[e] == text[q] && e - q - 1 <= 256
    requires forall i :: q < i < e ==> text[i] != text[q] && text[i] != 10
    ensures StringsAfter(text, at) ==
      [Token(q + 1, e - q - 1, Context(text[AfterLast(text[..q], 10)..q]))] + StringsAfter(text, e + 1)
  {
    hide AfterLast, TextTokens, Context;
    PassOver(text, at, q);
    TextStep(text, q, AfterLast(text[..q], 10));
    QuoteEndIs(text, q, q + 1, e);
    SameLine(text, q, e + 1);
  }

  /** A quote that no other of its kind closes on its line, 256 bytes on at most, begins no string. */
  lemma OpenQuote(text: Text, at: nat, q: nat)
    requires at <= q < |text| && NoQuote(text, at, q) && (text[q] == 34 || text[q] == 39)
    requires forall e :: q < e < |text| && e - q - 1 <= 256 && text[e] == text[q] ==>
      exists i :: q < i < e && text[i] == 10
    ensures StringsAfter(text, at) == StringsAfter(text, q + 1)
  {
    hide AfterLast, TextTokens, Context, QuoteEnd;
    PassOver(text, at, q);
    TextStep(text, q, AfterLast(text[..q], 10));
    QuoteEndLaw(text, q, q + 1);
    LineStep(text, q);
  }

  /** Where there is no quote there is no string. */
  lemma NoStrings(text: Text, at: nat)
    requires at <= |text| && NoQuote(text, at, |text|)
    ensures StringsAfter(text, at) == []
  {
    hide AfterLast, TextTokens;
    PassOver(text, at, |text|);
    TextEnd(text, AfterLast(text[..|text|], 10));
  }

  /** A text's strings are all of them, and an LSF file's are those of its document. */
  lemma TokensLaw(content: Content)
    ensures !content.lsf ==> Tokens(content) == StringsAfter(content.bytes, 0)
    ensures content.lsf ==> Tokens(content) == content.strings
  {
  }

  // ---- what a string is the value of ----

  /** The first lead of a line, and the quote that ends what follows it. */
  predicate LedAt(line: Text, lead: Text, p: nat, end: nat) {
    && OccursAt(line, lead, p) && (forall i :: 0 <= i < p ==> !OccursAt(line, lead, i))
    && p + |lead| <= end < |line| && line[end] == 34 && forall i :: p + |lead| <= i < end ==> line[i] != 34
  }

  lemma LedIff(line: Text, lead: Text, p: nat, end: nat)
    requires lead != []
    ensures LedAt(line, lead, p, end) <==>
      p == FindText(line, lead, 0) && p + |lead| <= end < |line| && end == FirstFrom(line, 34, p + |lead|)
    ensures LedAt(line, lead, p, end) ==> ContextAfter(line, lead) == Some(line[p + |lead|..end])
  {
    FindLaw(line, lead, 0);
    hide FindText;
    if LedAt(line, lead, p, end) {
      FirstUnique(line, 34, p + |lead|, end);
    }
  }

  lemma LedIfAny(line: Text, lead: Text)
    requires lead != []
    ensures ContextAfter(line, lead).Some? ==> exists p: nat, end: nat :: LedAt(line, lead, p, end)
  {
    hide FindText;
    var p := FindText(line, lead, 0);
    if p + |lead| <= |line| {
      LedIff(line, lead, p, FirstFrom(line, QUOTE, p + |lead|));
    }
  }

  /** The field of a stats line or else the attribute of an LSX one: what is quoted behind its first lead. */
  lemma ContextLaw(line: Text, p: nat, end: nat)
    ensures LedAt(line, Lit("data \""), p, end) ==> Context(line) == line[p + 6..end]
    ensures LedAt(line, Lit("id=\""), p, end) && (forall q: nat, e: nat :: !LedAt(line, Lit("data \""), q, e)) ==>
      Context(line) == line[p + 4..end]
    ensures (forall q: nat, e: nat :: !LedAt(line, Lit("data \""), q, e) && !LedAt(line, Lit("id=\""), q, e)) ==>
      Context(line) == []
  {
    hide LedAt, ContextAfter, Lit;
    LedIff(line, Lit("data \""), p, end);
    LedIff(line, Lit("id=\""), p, end);
    LedIfAny(line, Lit("data \""));
    LedIfAny(line, Lit("id=\""));
  }
}
