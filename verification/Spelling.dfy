/**
 Names as the case fixer compares them (src/pak_fix.cpp): folded to lower case
 with either slash read as '/', and taken apart at slashes and dots.
*/
module Spelling {
  import opened BitStrings

  type Text = seq<byte>

  const SLASH: byte := 47
  const BACKSLASH: byte := 92
  const DOT: byte := 46

  /** The bytes of a literal. */
  function Lit(s: string): (r: Text)
    ensures |r| == |s|
  {
    seq(|s|, i requires 0 <= i < |s| => (s[i] as int) % 256)
  }

  function LowerByte(c: byte): byte {
    if 65 <= c <= 90 then c + 32 else c
  }

  function Fold(c: byte): byte {
    LowerByte(if c == BACKSLASH then SLASH else c)
  }

  function Lowered(s: Text): (r: Text)
    ensures |r| == |s|
    ensures forall i :: 0 <= i < |s| ==> r[i] == Fold(s[i])
  {
    seq(|s|, i requires 0 <= i < |s| => Fold(s[i]))
  }

  /** The same text but for the case of its letters. */
  predicate SameButCase(a: Text, b: Text) {
    |a| == |b| && forall i :: 0 <= i < |a| ==> LowerByte(a[i]) == LowerByte(b[i])
  }

  predicate EndsWith(s: Text, tail: Text) {
    |s| >= |tail| && s[|s| - |tail|..] == tail
  }

  /** A suffix, whatever its case. */
  predicate EndsWithAnyCase(s: Text, tail: Text) {
    |s| >= |tail| && SameButCase(s[|s| - |tail|..], tail)
  }

  /** The first place at or after `from` that `part` is found, or the length if it is not. */
  function FindText(s: Text, part: Text, from: nat): (r: nat)
    requires from <= |s|
    ensures from <= r <= |s|
    decreases |s| - from
  {
    if from + |part| <= |s| && s[from..from + |part|] == part then from
    else if from == |s| then |s|
    else FindText(s, part, from + 1)
  }

  predicate Contains(s: Text, part: Text)
    requires part != []
  {
    FindText(s, part, 0) < |s|
  }

  /** The first place at or after `from` of a byte, or the length if there is none. */
  function FirstFrom(s: Text, c: byte, from: nat): (r: nat)
    requires from <= |s|
    ensures from <= r <= |s|
    ensures forall i :: from <= i < r ==> s[i] != c
    ensures r < |s| ==> s[r] == c
    decreases |s| - from
  {
    if from == |s| || s[from] == c then from else FirstFrom(s, c, from + 1)
  }

  /** Where what follows the last of a byte begins: zero if there is none. */
  function AfterLast(s: Text, c: byte): (r: nat)
    ensures r <= |s|
    ensures forall i :: r <= i < |s| ==> s[i] != c
    ensures r > 0 ==> s[r - 1] == c
  {
    if s == [] then 0
    else if s[|s| - 1] == c then |s|
    else AfterLast(s[..|s| - 1], c)
  }

  lemma AfterLastUnique(s: Text, c: byte, r: nat)
    requires r <= |s| && (r > 0 ==> s[r - 1] == c)
    requires forall i :: r <= i < |s| ==> s[i] != c
    ensures AfterLast(s, c) == r
  {
  }

  lemma FirstUnique(s: Text, c: byte, from: nat, r: nat)
    requires from <= r <= |s| && (r < |s| ==> s[r] == c)
    requires forall i :: from <= i < r ==> s[i] != c
    ensures FirstFrom(s, c, from) == r
  {
  }

  function Leaf(name: Text): Text {
    name[AfterLast(name, SLASH)..]
  }

  /** What follows the last dot of the leaf, folded; nothing if the leaf has no dot but a leading one. */
  function Extension(name: Text): Text {
    var leaf := Leaf(name);
    var d := AfterLast(leaf, DOT);
    if d <= 1 then [] else Lowered(leaf[d..])
  }

  predicate NoBackslash(name: Text) {
    BACKSLASH !in name
  }

  // ---- texts that agree once folded ----

  lemma LoweredSlice(s: Text, i: nat, j: nat)
    requires i <= j <= |s|
    ensures Lowered(s[i..j]) == Lowered(s)[i..j]
  {
  }

  lemma LoweredTwice(s: Text)
    ensures Lowered(Lowered(s)) == Lowered(s)
  {
  }

  /** Without slashes of either kind, folding is a matter of case alone. */
  lemma FoldedIsCase(a: Text, b: Text)
    requires Lowered(a) == Lowered(b) && SLASH !in Lowered(a)
    ensures SameButCase(a, b)
  {
    forall i | 0 <= i < |a|
      ensures LowerByte(a[i]) == LowerByte(b[i])
    {
      assert Lowered(a)[i] == Fold(a[i]) == Fold(b[i]) && Lowered(a)[i] in Lowered(a);
    }
  }

  lemma CaseIsFolded(a: Text, b: Text)
    requires SameButCase(a, b)
    ensures Lowered(a) == Lowered(b)
    ensures forall i :: 0 <= i < |a| && (a[i] < 65 || 90 < a[i] < 97 || 122 < a[i]) ==> b[i] == a[i]
  {
    forall i | 0 <= i < |a|
      ensures Fold(a[i]) == Fold(b[i])
    {
      assert LowerByte(a[i]) == LowerByte(b[i]);
    }
  }

  predicate SamePlaces(a: Text, b: Text, c: byte) {
    |a| == |b| && forall i :: 0 <= i < |a| ==> (a[i] == c <==> b[i] == c)
  }

  lemma CaseKeepsByte(a: Text, b: Text, c: byte)
    requires SameButCase(a, b) && (c < 65 || 90 < c < 97 || 122 < c)
    ensures SamePlaces(a, b, c)
  {
    forall i | 0 <= i < |a|
      ensures a[i] == c <==> b[i] == c
    {
      assert LowerByte(a[i]) == LowerByte(b[i]);
    }
  }

  lemma KeepsLast(a: Text, b: Text, c: byte)
    requires SamePlaces(a, b, c)
    ensures AfterLast(a, c) == AfterLast(b, c)
  {
    AfterLastUnique(b, c, AfterLast(a, c));
  }

  lemma KeepsFirst(a: Text, b: Text, c: byte, from: nat)
    requires SamePlaces(a, b, c) && from <= |a|
    ensures FirstFrom(a, c, from) == FirstFrom(b, c, from)
  {
    FirstUnique(b, c, from, FirstFrom(a, c, from));
  }

  lemma CaseKeepsLeaf(a: Text, b: Text)
    requires SameButCase(a, b)
    ensures SameButCase(Leaf(a), Leaf(b)) && Lowered(Leaf(a)) == Lowered(Leaf(b))
  {
    hide AfterLast;
    CaseKeepsByte(a, b, SLASH);
    KeepsLast(a, b, SLASH);
    CaseIsFolded(Leaf(a), Leaf(b));
  }

  lemma CaseKeepsExtension(a: Text, b: Text)
    requires SameButCase(a, b)
    ensures Extension(a) == Extension(b)
  {
    hide AfterLast;
    CaseKeepsLeaf(a, b);
    hide Leaf;
    CaseKeepsByte(Leaf(a), Leaf(b), DOT);
    KeepsLast(Leaf(a), Leaf(b), DOT);
    var d := AfterLast(Leaf(a), DOT);
    CaseIsFolded(Leaf(a)[d..], Leaf(b)[d..]);
  }
}
