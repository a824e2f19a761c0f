/** GUIDs as src/net.cpp keeps them: sixteen bytes in memory order, and text in another order. */
module Guid {
  import opened BitStrings
  import opened Wrappers

  const LAST := 16

  /** Where in the text each byte's two digits are. */
  function TextPlace(): (at: seq<nat>)
    ensures |at| == LAST && forall i :: 0 <= i < LAST ==> at[i] < 35
  {
    [6, 4, 2, 0, 11, 9, 16, 14, 21, 19, 26, 24, 30, 28, 34, 32]
  }

  /** Which byte comes next in the text. */
  function TextOrder(): (order: seq<nat>)
    ensures |order| == LAST && forall i :: 0 <= i < LAST ==> order[i] < LAST
  {
    [3, 2, 1, 0, 5, 4, 7, 6, 9, 8, 11, 10, 13, 12, 15, 14]
  }

  function Hex(d: nat): char
    requires d < 16
  {
    "0123456789abcdef"[d]
  }

  function Digit(c: char): (r: Option<nat>)
    ensures r.Some? ==> r.value < 16
  {
    if '0' <= c <= '9' then Some(c as int - '0' as int)
    else if 'a' <= c <= 'f' then Some(c as int - 'a' as int + 10)
    else if 'A' <= c <= 'F' then Some(c as int - 'A' as int + 10)
    else None
  }

  function ByteAt(s: string, at: nat): Option<byte>
    requires at + 1 < |s|
  {
    var high :- Digit(s[at]);
    var low :- Digit(s[at + 1]);
    Some(16 * high + low)
  }

  predicate Shape(s: string) {
    |s| == 36 && s[8] == '-' && s[13] == '-' && s[18] == '-' && s[23] == '-'
  }

  /** Text that `parse_guid` accepts. */
  predicate Parses(s: string) {
    Shape(s) && forall i :: 0 <= i < LAST ==> ByteAt(s, TextPlace()[i]).Some?
  }

  function Bytes(s: string): (b: seq<byte>)
    requires Parses(s)
    ensures |b| == LAST
  {
    seq(LAST, i requires 0 <= i < LAST => ByteAt(s, TextPlace()[i]).value)
  }

  method ParseGuid(s: string) returns (r: Option<seq<byte>>)
    ensures r == if Parses(s) then Some(Bytes(s)) else None
  {
    if |s| != 36 || s[8] != '-' || s[13] != '-' || s[18] != '-' || s[23] != '-' {
      return None;
    }
    var b: seq<byte> := [];
    for i := 0 to LAST
      invariant |b| == i
      invariant forall k :: 0 <= k < i ==> ByteAt(s, TextPlace()[k]) == Some(b[k])
    {
      var v := ByteAt(s, TextPlace()[i]);
      if v == None {
        return None;
      }
      b := b + [v.value];
    }
    assert b == Bytes(s);
    return Some(b);
  }

  predicate DashBefore(i: nat) {
    i == 4 || i == 6 || i == 8 || i == 10
  }

  /** The text of the first `n` bytes, in text order. */
  function Text(b: seq<byte>, n: nat): string
    requires |b| == LAST && n <= LAST
  {
    if n == 0 then []
    else
      var v := b[TextOrder()[n - 1]];
      Text(b, n - 1) + (if DashBefore(n - 1) then "-" else "") + [Hex(v / 16), Hex(v % 16)]
  }

  function Format(b: seq<byte>): string
    requires |b| == LAST
  {
    Text(b, LAST)
  }

  method FormatGuid(b: seq<byte>) returns (out: string)
    requires |b| == LAST
    ensures out == Format(b)
  {
    out := [];
    for i := 0 to LAST
      invariant out == Text(b, i)
    {
      var v := b[TextOrder()[i]];
      if DashBefore(i) {
        out := out + "-";
      }
      out := out + [Hex(v / 16)] + [Hex(v % 16)];
    }
  }

  // ---- parsing and formatting are inverse ----

  function Dashes(i: nat): nat {
    if i <= 4 then 0 else if i <= 6 then 1 else if i <= 8 then 2 else if i <= 10 then 3 else 4
  }

  /** Where the text of byte number `i` starts. */
  function Start(i: nat): nat {
    2 * i + Dashes(i) + (if DashBefore(i) then 1 else 0)
  }

  lemma PlacesAgree(i: nat)
    requires i < LAST
    ensures TextOrder()[TextOrder()[i]] == i
    ensures TextPlace()[i] == Start(TextOrder()[i])
    ensures TextPlace()[TextOrder()[i]] == Start(i)
  {
  }

  lemma {:induction false} TextLength(b: seq<byte>, n: nat)
    requires |b| == LAST && n <= LAST
    ensures |Text(b, n)| == 2 * n + Dashes(n)
  {
    if n > 0 {
      TextLength(b, n - 1);
    }
  }

  lemma {:induction false} TextAt(b: seq<byte>, n: nat, i: nat)
    requires |b| == LAST && i < n <= LAST
    ensures |Text(b, n)| == 2 * n + Dashes(n) && Start(i) + 1 < |Text(b, n)|
    ensures var v := b[TextOrder()[i]];
      Text(b, n)[Start(i)] == Hex(v / 16) && Text(b, n)[Start(i) + 1] == Hex(v % 16)
    ensures DashBefore(i) ==> Text(b, n)[Start(i) - 1] == '-'
  {
    hide TextOrder, Hex;
    TextLength(b, n);
    TextLength(b, n - 1);
    if i < n - 1 {
      TextAt(b, n - 1, i);
    }
  }

  lemma DigitOfHex(d: nat)
    requires d < 16
    ensures Digit(Hex(d)) == Some(d)
  {
  }

  lemma HexOfDigit(c: char)
    requires Digit(c).Some?
    ensures Hex(Digit(c).value) == Lower(c)
  {
  }

  /** Formatted bytes parse back to themselves. */
  lemma ParseFormatted(b: seq<byte>)
    requires |b| == LAST
    ensures Parses(Format(b)) && Bytes(Format(b)) == b
  {
    hide TextOrder, TextPlace, Text, Hex, Digit;
    var s := Format(b);
    TextAt(b, LAST, 4);
    TextAt(b, LAST, 6);
    TextAt(b, LAST, 8);
    TextAt(b, LAST, 10);
    forall i | 0 <= i < LAST
      ensures ByteAt(s, TextPlace()[i]) == Some(b[i])
    {
      PlacesAgree(i);
      TextAt(b, LAST, TextOrder()[i]);
      DigitOfHex(b[i] / 16);
      DigitOfHex(b[i] % 16);
    }
  }

  function Lower(c: char): char {
    if 'A' <= c <= 'F' then (c as int + 32) as char else c
  }

  /** The canonical text of a GUID: what its text becomes once parsed and formatted. */
  function Lowered(s: string): (t: string)
    ensures |t| == |s|
  {
    seq(|s|, i requires 0 <= i < |s| => Lower(s[i]))
  }

  lemma {:induction false} TextOfParsed(s: string, n: nat)
    requires Parses(s) && n <= LAST
    ensures |Text(Bytes(s), n)| <= 36 && Text(Bytes(s), n) == Lowered(s)[..|Text(Bytes(s), n)|]
  {
    hide TextOrder, TextPlace, Hex, Digit, Lower;
    TextLength(Bytes(s), n);
    if n > 0 {
      var b, i := Bytes(s), n - 1;
      TextLength(b, i);
      TextOfParsed(s, i);
      PlacesAgree(i);
      var v := b[TextOrder()[i]];
      assert ByteAt(s, Start(i)) == Some(v);
      HexOfDigit(s[Start(i)]);
      HexOfDigit(s[Start(i) + 1]);
      LowerDash();
      assert v / 16 == Digit(s[Start(i)]).value && v % 16 == Digit(s[Start(i) + 1]).value;
      var t := Text(b, i);
      assert Text(b, n) == t + (if DashBefore(i) then "-" else "") + [Hex(v / 16), Hex(v % 16)];
      assert Lowered(s)[..|t|] == t;
    }
  }

  lemma LowerDash()
    ensures Lower('-') == '-'
  {
  }

  /** Text that parses is formatted back in lower case, and to itself exactly when it is in lower case. */
  lemma FormatParsed(s: string)
    requires Parses(s)
    ensures Format(Bytes(s)) == Lowered(s)
  {
    TextOfParsed(s, LAST);
    TextLength(Bytes(s), LAST);
    assert Lowered(s)[..36] == Lowered(s);
  }

  // ---- the order of the digits ----

  /** The text without its dashes. */
  function Digits(s: string): (t: string)
    requires |s| == 36
    ensures |t| == 32
  {
    s[..8] + s[9..13] + s[14..18] + s[19..23] + s[24..]
  }

  /**
   Of the sixteen pairs of digits, in the order of the text, the first four
   are bytes 3, 2, 1 and 0, and of every two after them the first is the
   second byte.
  */
  lemma BytesLaw(s: string, i: nat)
    requires Parses(s) && i < 16
    ensures var k := if i < 4 then 3 - i else if i % 2 == 0 then i + 1 else i - 1;
      && Digit(Digits(s)[2 * k]).Some? && Digit(Digits(s)[2 * k + 1]).Some?
      && Bytes(s)[i] == 16 * Digit(Digits(s)[2 * k]).value + Digit(Digits(s)[2 * k + 1]).value
  {
    hide Digit;
    var k := if i < 4 then 3 - i else if i % 2 == 0 then i + 1 else i - 1;
    var p := TextPlace()[i];
    assert p == 2 * k + (if k < 4 then 0 else if k < 6 then 1 else if k < 8 then 2 else if k < 10 then 3 else 4);
    assert ByteAt(s, p).Some?;
    assert Digits(s)[2 * k] == s[p] && Digits(s)[2 * k + 1] == s[p + 1];
  }

  predicate IsHex(c: char) {
    '0' <= c <= '9' || 'a' <= c <= 'f' || 'A' <= c <= 'F'
  }

  /** A GUID is 36 characters: dashes at four places, and hexadecimal digits of either case at all others. */
  lemma ParsesIff(s: string)
    ensures Parses(s) <==>
      && |s| == 36
      && forall i :: 0 <= i < 36 ==>
           if i == 8 || i == 13 || i == 18 || i == 23 then s[i] == '-' else IsHex(s[i])
  {
    hide TextPlace, Digit, IsHex;
    if Parses(s) {
      forall i | 0 <= i < 36 && i != 8 && i != 13 && i != 18 && i != 23
        ensures IsHex(s[i])
      {
        HexAt(s, i);
      }
    } else if |s| == 36 && s[8] == '-' && s[13] == '-' && s[18] == '-' && s[23] == '-' {
      var k :| 0 <= k < LAST && ByteAt(s, TextPlace()[k]) == None;
      Places(k);
      var p := TextPlace()[k];
      HexIff(s[p]);
      HexIff(s[p + 1]);
    }
  }

  lemma HexIff(c: char)
    ensures Digit(c).Some? <==> IsHex(c)
  {
  }

  lemma Places(k: nat)
    requires k < LAST
    ensures var p := TextPlace()[k]; p !in {8, 13, 18, 23} && p + 1 !in {8, 13, 18, 23}
  {
  }

  lemma HexAt(s: string, i: nat)
    requires Parses(s) && i < 36 && i != 8 && i != 13 && i != 18 && i != 23
    ensures IsHex(s[i])
  {
    hide IsHex, Bytes, Digit, TextPlace, ByteAt, Digits;
    var j := if i < 8 then i else if i < 13 then i - 1 else if i < 18 then i - 2 else if i < 23 then i - 3 else i - 4;
    var k := j / 2;
    assert j == 2 * k || j == 2 * k + 1;
    BytesLaw(s, if k < 4 then 3 - k else if k % 2 == 0 then k + 1 else k - 1);
    HexIff(s[i]);
    DigitsAt(s, i, j);
  }

  lemma DigitsAt(s: string, i: nat, j: nat)
    requires |s| == 36 && i < 36 && i != 8 && i != 13 && i != 18 && i != 23
    requires j ==
      if i < 8 then i else if i < 13 then i - 1 else if i < 18 then i - 2 else if i < 23 then i - 3 else i - 4
    ensures Digits(s)[j] == s[i]
  {
  }

  // ---- the two words ----

  /** Eight bytes as a little-endian word, as memcpy makes it. */
  function Word(b: seq<byte>): nat {
    if b == [] then 0 else b[0] + 256 * Word(b[1..])
  }

  /** A byte stands for itself, and what follows `n` bytes for that many times 256: the lowest byte is first. */
  lemma {:induction false} WordLaw(a: seq<byte>, b: seq<byte>, x: byte)
    ensures Word([x]) == x && Word(a + b) == Word(a) + Pow2(8 * |a|) * Word(b)
  {
    assert [x][1..] == [];
    if a == [] {
      assert a + b == b;
    } else {
      WordLaw(a[1..], b, x);
      assert (a + b)[1..] == a[1..] + b;
      Pow2Adds(8, 8 * |a[1..]|);
      Pow2Values();
      Thirds(a[0], Word(a[1..]), Pow2(8 * |a[1..]|), Word(b));
    }
  }

  lemma Thirds(x: nat, u: nat, p: nat, v: nat)
    ensures x + 256 * (u + p * v) == x + 256 * u + 256 * p * v
  {
  }

  function WordBytes(w: nat, n: nat): (b: seq<byte>)
    ensures |b| == n
  {
    if n == 0 then [] else [w % 256] + WordBytes(w / 256, n - 1)
  }

  lemma {:induction false} WordBound(b: seq<byte>)
    ensures Word(b) < Pow2(8 * |b|)
  {
    if b != [] {
      WordBound(b[1..]);
      Pow2Adds(8, 8 * |b[1..]|);
      Pow2Values();
    }
  }

  lemma {:induction false} WordBytesOfWord(b: seq<byte>)
    ensures WordBytes(Word(b), |b|) == b
  {
    if b != [] {
      WordBytesOfWord(b[1..]);
      LowByte(b[0], Word(b[1..]));
      assert [b[0]] + b[1..] == b;
    }
  }

  lemma LowByte(x: byte, w: nat)
    ensures (x + 256 * w) % 256 == x && (x + 256 * w) / 256 == w
  {
  }

  lemma {:induction false} WordOfBytes(w: nat, n: nat)
    requires w < Pow2(8 * n)
    ensures Word(WordBytes(w, n)) == w
  {
    if n > 0 {
      Pow2Adds(8, 8 * (n - 1));
      Pow2Values();
      WordOfBytes(w / 256, n - 1);
    }
  }
}
