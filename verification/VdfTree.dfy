/**
 What an edit of the tokens of KeyValues text makes of its blocks (install.py):
 replacing a value, or putting entries in at the end of a block, changes that
 one place of the tree and nothing else.
*/
module VdfTree {
  import opened Vdf
  import opened Wrappers

  /** A block's contents without their places. */
  datatype Tree = Leaf(key: string, text: string) | Branch(key: string, kids: seq<Tree>)

  function PlainOne(n: Node): Tree {
    match n
    case Value(key, text, _) => Leaf(key, text)
    case Block(key, children, _) => Branch(key, Plain(children))
  }

  function Plain(nodes: seq<Node>): (r: seq<Tree>)
    ensures |r| == |nodes|
  {
    if nodes == [] then [] else [PlainOne(nodes[0])] + Plain(nodes[1..])
  }

  /** A node is told by the place of its value, or of its closing brace. */
  function Mark(n: Node): nat {
    if n.Value? then n.at else n.close
  }

  function MarksOne(n: Node): set<nat> {
    match n
    case Value(_, _, at) => {at}
    case Block(_, children, close) => {close} + Marks(children)
  }

  function Marks(nodes: seq<Node>): set<nat> {
    if nodes == [] then {} else MarksOne(nodes[0]) + Marks(nodes[1..])
  }

  type Change = Tree -> Tree

  /** The contents with the node at a mark changed. */
  function ChangedOne(n: Node, mark: nat, change: Change): Tree {
    if Mark(n) == mark then change(PlainOne(n))
    else
      match n
      case Value(key, text, _) => Leaf(key, text)
      case Block(key, children, _) => Branch(key, Changed(children, mark, change))
  }

  function Changed(nodes: seq<Node>, mark: nat, change: Change): (r: seq<Tree>)
    ensures |r| == |nodes|
  {
    if nodes == [] then [] else [ChangedOne(nodes[0], mark, change)] + Changed(nodes[1..], mark, change)
  }

  lemma {:induction false} NoChangeOne(n: Node, mark: nat, change: Change)
    requires mark !in MarksOne(n)
    ensures ChangedOne(n, mark, change) == PlainOne(n)
    decreases n, 1
  {
    if n.Block? {
      NoChange(n.children, mark, change);
    }
  }

  lemma {:induction false} NoChange(nodes: seq<Node>, mark: nat, change: Change)
    requires mark !in Marks(nodes)
    ensures Changed(nodes, mark, change) == Plain(nodes)
    decreases nodes, 0
  {
    if nodes != [] {
      NoChangeOne(nodes[0], mark, change);
      NoChange(nodes[1..], mark, change);
    }
  }

  lemma MarksFirst(n: Node, rest: seq<Node>)
    ensures Marks([n] + rest) == MarksOne(n) + Marks(rest)
  {
    assert ([n] + rest)[1..] == rest;
  }

  // ---- one entry of a block, and the rest ----

  predicate ValueAt(t: seq<Token>, i: nat) {
    i + 1 < |t| && t[i].Str? && t[i + 1].Str?
  }

  predicate BlockAt(t: seq<Token>, i: nat) {
    i + 1 < |t| && t[i].Str? && t[i + 1] == Open
  }

  lemma AnyChildren(t: seq<Token>, i: nat)
    requires i <= |t| && Children(t, i).Some?
    ensures i == |t| || t[i] == Close || ValueAt(t, i) || BlockAt(t, i)
    ensures i == |t| || t[i] == Close ==> Children(t, i) == Some(([], i))
  {
  }

  lemma ValueChildren(t: seq<Token>, i: nat)
    requires ValueAt(t, i)
    ensures var rest := Children(t, i + 2);
      Children(t, i) ==
        if rest == None then None else Some(([Value(t[i].text, t[i + 1].text, i + 1)] + rest.value.0, rest.value.1))
  {
  }

  lemma BlockChildren(t: seq<Token>, i: nat)
    requires BlockAt(t, i)
    ensures var inner := Children(t, i + 2);
      if inner == None || inner.value.1 == |t| then Children(t, i) == None
      else
        var rest := Children(t, inner.value.1 + 1);
        Children(t, i) ==
          if rest == None then None
          else Some(([Block(t[i].text, inner.value.0, inner.value.1)] + rest.value.0, rest.value.1))
  {
  }

  /** The marks of a block's children lie between its braces. */
  lemma {:induction false} MarksWithin(t: seq<Token>, i: nat)
    requires i <= |t| && Children(t, i).Some?
    ensures forall m :: m in Marks(Children(t, i).value.0) ==> i < m < Children(t, i).value.1
    decreases |t| - i
  {
    hide Children;
    AnyChildren(t, i);
    if i < |t| && t[i] != Close {
      if ValueAt(t, i) {
        ValueChildren(t, i);
        MarksWithin(t, i + 2);
        MarksFirst(Value(t[i].text, t[i + 1].text, i + 1), Children(t, i + 2).value.0);
      } else {
        BlockChildren(t, i);
        var inner := Children(t, i + 2).value;
        MarksWithin(t, i + 2);
        MarksWithin(t, inner.1 + 1);
        MarksFirst(Block(t[i].text, inner.0, inner.1), Children(t, inner.1 + 1).value.0);
      }
    }
  }

  // ---- tokens that are the same but for their place ----

  /** The tokens from `i` to `n` are those from `i'` on. */
  predicate SameTokens(t: seq<Token>, i: nat, n: nat, t': seq<Token>, i': nat) {
    && i <= n <= |t| && i' + (n - i) <= |t'|
    && forall k :: i <= k < n ==> t'[i' + (k - i)] == t[k]
  }

  /** The end of what a block's children take: its closing brace too, if there is one. */
  function EndOf(t: seq<Token>, j: nat): nat {
    if j < |t| then j + 1 else j
  }

  ghost predicate ReadsSame(t: seq<Token>, i: nat, t': seq<Token>, i': nat)
    requires i <= |t| && i' <= |t'| && Children(t, i).Some?
  {
    && Children(t', i').Some?
    && Plain(Children(t', i').value.0) == Plain(Children(t, i).value.0)
    && Children(t', i').value.1 - i' == Children(t, i).value.1 - i
  }

  lemma {:induction false} SameChildren(t: seq<Token>, i: nat, t': seq<Token>, i': nat)
    requires i <= |t| && i' <= |t'| && Children(t, i).Some?
    requires SameTokens(t, i, EndOf(t, Children(t, i).value.1), t', i')
    requires Children(t, i).value.1 == |t| ==> i' + (|t| - i) == |t'|
    ensures ReadsSame(t, i, t', i')
    decreases |t| - i, 1
  {
    hide Plain, PlainOne, Children;
    var j := Children(t, i).value.1;
    AnyChildren(t, i);
    if i == |t| || t[i] == Close {
      NoChildren(t', i');
    } else if ValueAt(t, i) {
      ValueChildren(t, i);
      assert t'[i' + (i - i)] == t[i] && t'[i' + (i + 1 - i)] == t[i + 1];
      SameChildren(t, i + 2, t', i' + 2);
      ValueChildren(t', i');
      PlainFirst(Value(t[i].text, t[i + 1].text, i + 1), Children(t, i + 2).value.0);
      PlainFirst(Value(t'[i'].text, t'[i' + 1].text, i' + 1), Children(t', i' + 2).value.0);
      PlainValue(t[i].text, t[i + 1].text, i + 1, i' + 1);
    } else {
      BlockChildren(t, i);
      assert t'[i' + (i - i)] == t[i] && t'[i' + (i + 1 - i)] == t[i + 1];
      SameBlock(t, i, t', i');
    }
  }

  lemma NoChildren(t: seq<Token>, i: nat)
    requires i <= |t| && (i < |t| ==> t[i] == Close)
    ensures Children(t, i) == Some(([], i))
  {
  }

  lemma {:induction false} SameBlock(t: seq<Token>, i: nat, t': seq<Token>, i': nat)
    requires BlockAt(t, i) && BlockAt(t', i') && t'[i'] == t[i] && Children(t, i).Some?
    requires SameTokens(t, i, EndOf(t, Children(t, i).value.1), t', i')
    requires Children(t, i).value.1 == |t| ==> i' + (|t| - i) == |t'|
    ensures ReadsSame(t, i, t', i')
    decreases |t| - i, 0
  {
    hide Plain, PlainOne, Children;
    BlockChildren(t, i);
    var inner := Children(t, i + 2).value;
    var c := inner.1;
    SameChildren(t, i + 2, t', i' + 2);
    var inner' := Children(t', i' + 2).value;
    var c' := inner'.1;
    SameChildren(t, c + 1, t', c' + 1);
    BlockChildren(t', i');
    PlainFirst(Block(t[i].text, inner.0, c), Children(t, c + 1).value.0);
    PlainFirst(Block(t'[i'].text, inner'.0, c'), Children(t', c' + 1).value.0);
    PlainBlock(t[i].text, inner.0, c, inner'.0, c');
  }

  lemma PlainFirst(n: Node, rest: seq<Node>)
    ensures Plain([n] + rest) == [PlainOne(n)] + Plain(rest)
  {
    assert ([n] + rest)[1..] == rest;
  }

  lemma ChangedFirst(n: Node, rest: seq<Node>, mark: nat, change: Change)
    ensures Changed([n] + rest, mark, change) == [ChangedOne(n, mark, change)] + Changed(rest, mark, change)
  {
    assert ([n] + rest)[1..] == rest;
  }

  lemma PlainValue(key: string, text: string, a: nat, b: nat)
    ensures PlainOne(Value(key, text, a)) == PlainOne(Value(key, text, b))
  {
  }

  lemma PlainBlock(key: string, a: seq<Node>, c: nat, b: seq<Node>, d: nat)
    requires Plain(a) == Plain(b)
    ensures PlainOne(Block(key, a, c)) == PlainOne(Block(key, b, d))
  {
  }

  // ---- a value replaced ----

  function SetText(text: string): Change {
    (tree: Tree) => if tree.Leaf? then Leaf(tree.key, text) else tree
  }

  function Append(extra: seq<Tree>): Change {
    (tree: Tree) => if tree.Branch? then Branch(tree.key, tree.kids + extra) else tree
  }

  ghost predicate ReadsChanged(t: seq<Token>, i: nat, t': seq<Token>, mark: nat, change: Change, more: nat)
    requires i <= |t| && i <= |t'| && Children(t, i).Some?
  {
    && Children(t', i).Some?
    && Plain(Children(t', i).value.0) == Changed(Children(t, i).value.0, mark, change)
    && Children(t', i).value.1 == Children(t, i).value.1 + more
  }

  /** A value replaced among the tokens is that value changed in the tree. */
  lemma {:induction false} ReplacedChildren(t: seq<Token>, i: nat, at: nat, new': string)
    requires i <= |t| && Children(t, i).Some? && at in Marks(Children(t, i).value.0) && at < |t| && t[at].Str?
    ensures ReadsChanged(t, i, t[at := Str(new')], at, SetText(new'), 0)
    decreases |t| - i, 1
  {
    hide Plain, PlainOne, Children, Changed, Marks, MarksOne, ChangedOne;
    var t' := t[at := Str(new')];
    AnyChildren(t, i);
    MarksWithin(t, i);
    if i == |t| || t[i] == Close {
      NoMarks();
      assert false;
    } else if ValueAt(t, i) {
      ValueChildren(t, i);
      var rest := Children(t, i + 2).value.0;
      var v := Value(t[i].text, t[i + 1].text, i + 1);
      MarksFirst(v, rest);
      MarksWithin(t, i + 2);
      MarksOfValue(v);
      ValueChildren(t', i);
      ChangedFirst(v, rest, at, SetText(new'));
      if at == i + 1 {
        SameChildren(t, i + 2, t', i + 2);
        NoChange(rest, at, SetText(new'));
        PlainFirst(Value(t[i].text, new', at), Children(t', i + 2).value.0);
        ChangedValue(v, new');
      } else {
        ReplacedChildren(t, i + 2, at, new');
        PlainFirst(v, Children(t', i + 2).value.0);
        NoChangeOne(v, at, SetText(new'));
      }
    } else {
      ReplacedBlock(t, i, at, new');
    }
  }

  lemma NoMarks()
    ensures Marks([]) == {}
  {
  }

  lemma MarksOfValue(v: Node)
    requires v.Value?
    ensures MarksOne(v) == {v.at}
  {
  }

  lemma ChangedValue(v: Node, new': string)
    requires v.Value?
    ensures ChangedOne(v, v.at, SetText(new')) == PlainOne(Value(v.key, new', v.at))
  {
  }

  lemma MarksOfBlock(b: Node)
    requires b.Block?
    ensures MarksOne(b) == {b.close} + Marks(b.children)
  {
  }

  /** A block whose own mark is another is changed within. */
  lemma ChangedWithin(b: Node, mark: nat, change: Change, kids: seq<Node>, close: nat)
    requires b.Block? && b.close != mark && Plain(kids) == Changed(b.children, mark, change)
    ensures ChangedOne(b, mark, change) == PlainOne(Block(b.key, kids, close))
  {
  }

  /** A block's children and what follows it, read one after the other. */
  lemma BlockReads(t: seq<Token>, i: nat, key: string, kids: seq<Node>, c: nat, rest: seq<Node>, j: nat)
    requires BlockAt(t, i) && t[i].text == key && Children(t, i + 2) == Some((kids, c)) && c < |t|
    requires Children(t, c + 1) == Some((rest, j))
    ensures Children(t, i).Some? && Children(t, i).value.1 == j
    ensures Plain(Children(t, i).value.0) == [PlainOne(Block(key, kids, c))] + Plain(rest)
  {
    hide Plain, PlainOne, Children;
    BlockChildren(t, i);
    PlainFirst(Block(key, kids, c), rest);
  }

  /** A block that is there, its parts' marks, and its parts. */
  lemma BlockParts(t: seq<Token>, i: nat, mark: nat, change: Change) returns (kids: seq<Node>, c: nat, rest: seq<Node>)
    requires BlockAt(t, i) && Children(t, i).Some?
    ensures Children(t, i + 2) == Some((kids, c)) && i + 2 <= c < |t| && t[c] == Close
    ensures Children(t, c + 1) == Some((rest, Children(t, i).value.1))
    ensures mark in Marks(Children(t, i).value.0) <==> mark == c || mark in Marks(kids) || mark in Marks(rest)
    ensures mark in Marks(kids) ==> i + 2 < mark < c
    ensures mark in Marks(rest) ==> c + 1 < mark < Children(t, i).value.1
    ensures Changed(Children(t, i).value.0, mark, change)
      == [ChangedOne(Block(t[i].text, kids, c), mark, change)] + Changed(rest, mark, change)
  {
    hide Children, Changed, Marks, MarksOne, ChangedOne;
    BlockChildren(t, i);
    kids, c := Children(t, i + 2).value.0, Children(t, i + 2).value.1;
    rest := Children(t, c + 1).value.0;
    var b := Block(t[i].text, kids, c);
    MarksFirst(b, rest);
    MarksOfBlock(b);
    MarksWithin(t, i + 2);
    MarksWithin(t, c + 1);
    ChangedFirst(b, rest, mark, change);
  }

  lemma {:induction false} ReplacedBlock(t: seq<Token>, i: nat, at: nat, new': string)
    requires BlockAt(t, i) && Children(t, i).Some? && at in Marks(Children(t, i).value.0) && at < |t| && t[at].Str?
    ensures ReadsChanged(t, i, t[at := Str(new')], at, SetText(new'), 0)
    decreases |t| - i, 0
  {
    hide Plain, PlainOne, Children, Changed, Marks, MarksOne, ChangedOne, SetText;
    var t' := t[at := Str(new')];
    var change := SetText(new');
    var kids, c, rest := BlockParts(t, i, at, change);
    if at in Marks(kids) {
      ReplacedChildren(t, i + 2, at, new');
      SameChildren(t, c + 1, t', c + 1);
      NoChange(rest, at, change);
    } else {
      SameChildren(t, i + 2, t', i + 2);
      NoChange(kids, at, change);
      ReplacedChildren(t, c + 1, at, new');
    }
    var kids', rest' := Children(t', i + 2).value.0, Children(t', c + 1).value;
    ChangedWithin(Block(t[i].text, kids, c), at, change, kids', c);
    BlockReads(t', i, t[i].text, kids', c, rest'.0, rest'.1);
  }

  // ---- entries put in ----

  /** The tokens with more put in before a place. */
  predicate IsInsert(t: seq<Token>, k: nat, more: seq<Token>, t': seq<Token>) {
    && k < |t| && |t'| == |t| + |more|
    && (forall i :: 0 <= i < k ==> t'[i] == t[i])
    && (forall i :: 0 <= i < |more| ==> t'[k + i] == more[i])
    && (forall i :: k <= i < |t| ==> t'[|more| + i] == t[i])
  }

  /** Tokens that are whole entries. */
  ghost predicate AreEntries(more: seq<Token>, extra: seq<Tree>) {
    && Children(more + [Close], 0).Some?
    && Children(more + [Close], 0).value.1 == |more|
    && Plain(Children(more + [Close], 0).value.0) == extra
  }

  /** Entries put in before a block's closing brace are its last. */
  lemma {:induction false} AppendedChildren(t: seq<Token>, i: nat, k: nat, more: seq<Token>, t': seq<Token>,
                                            extra: seq<Tree>)
    requires i <= |t| && Children(t, i).Some? && Children(t, i).value.1 == k < |t|
    requires IsInsert(t, k, more, t') && AreEntries(more, extra)
    ensures Children(t', i).Some? && Children(t', i).value.1 == k + |more|
    ensures Plain(Children(t', i).value.0) == Plain(Children(t, i).value.0) + extra
    decreases |t| - i
  {
    hide Plain, PlainOne, Children;
    AnyChildren(t, i);
    if t[i] == Close {
      NoneThenExtra(t, k, more, t', extra);
    } else if ValueAt(t, i) {
      ValueChildren(t, i);
      AppendedChildren(t, i + 2, k, more, t', extra);
      ValueChildren(t', i);
      var v := Value(t[i].text, t[i + 1].text, i + 1);
      PlainFirst(v, Children(t, i + 2).value.0);
      PlainFirst(v, Children(t', i + 2).value.0);
    } else {
      BlockChildren(t, i);
      var inner := Children(t, i + 2).value;
      SameChildren(t, i + 2, t', i + 2);
      AppendedChildren(t, inner.1 + 1, k, more, t', extra);
      BlockChildren(t', i);
      PlainFirst(Block(t[i].text, inner.0, inner.1), Children(t, inner.1 + 1).value.0);
      PlainFirst(Block(t[i].text, Children(t', i + 2).value.0, inner.1), Children(t', inner.1 + 1).value.0);
      PlainBlock(t[i].text, inner.0, inner.1, Children(t', i + 2).value.0, inner.1);
    }
  }

  lemma NoneThenExtra(t: seq<Token>, k: nat, more: seq<Token>, t': seq<Token>, extra: seq<Tree>)
    requires k < |t| && t[k] == Close && IsInsert(t, k, more, t') && AreEntries(more, extra)
    ensures Children(t, k) == Some(([], k))
    ensures Children(t', k).Some? && Children(t', k).value.1 == k + |more|
    ensures Plain(Children(t', k).value.0) == Plain(Children(t, k).value.0) + extra
  {
    NoChildren(t, k);
    var m := more + [Close];
    assert t'[|more| + k] == t[k];
    assert SameTokens(m, 0, EndOf(m, |more|), t', k);
    SameChildren(m, 0, t', k);
    assert Plain([]) == [];
    assert [] + extra == extra;
  }

  /** Entries put in before a block's closing brace are that block with them at its end, in the tree. */
  lemma {:induction false} InsertedChildren(t: seq<Token>, i: nat, k: nat, more: seq<Token>, t': seq<Token>,
                                            extra: seq<Tree>)
    requires i <= |t| && Children(t, i).Some? && k in Marks(Children(t, i).value.0) && k < |t| && t[k] == Close
    requires IsInsert(t, k, more, t') && AreEntries(more, extra)
    ensures ReadsChanged(t, i, t', k, Append(extra), |more|)
    decreases |t| - i, 1
  {
    hide Plain, PlainOne, Children, Changed, Marks, MarksOne, ChangedOne;
    var change := Append(extra);
    AnyChildren(t, i);
    MarksWithin(t, i);
    if i == |t| || t[i] == Close {
      NoMarks();
      assert false;
    } else if ValueAt(t, i) {
      ValueChildren(t, i);
      var rest := Children(t, i + 2).value.0;
      var v := Value(t[i].text, t[i + 1].text, i + 1);
      MarksFirst(v, rest);
      MarksOfValue(v);
      MarksWithin(t, i + 2);
      InsertedChildren(t, i + 2, k, more, t', extra);
      ValueChildren(t', i);
      ChangedFirst(v, rest, k, change);
      PlainFirst(v, Children(t', i + 2).value.0);
      NoChangeOne(v, k, change);
    } else {
      InsertedBlock(t, i, k, more, t', extra);
    }
  }

  lemma ChangedBlock(b: Node, extra: seq<Tree>, kids: seq<Node>, close: nat)
    requires b.Block? && Plain(kids) == Plain(b.children) + extra
    ensures ChangedOne(b, b.close, Append(extra)) == PlainOne(Block(b.key, kids, close))
  {
  }

  /** The rest after a block that lengthened. */
  lemma RestMoves(t: seq<Token>, i: nat, k: nat, more: seq<Token>, t': seq<Token>)
    requires k <= i <= |t| && IsInsert(t, k, more, t') && Children(t, i).Some?
    ensures ReadsSame(t, i, t', i + |more|)
  {
    hide Plain, Children;
    SameChildren(t, i, t', i + |more|);
  }

  lemma {:induction false} InsertedBlock(t: seq<Token>, i: nat, k: nat, more: seq<Token>, t': seq<Token>,
                                         extra: seq<Tree>)
    requires BlockAt(t, i) && Children(t, i).Some? && k in Marks(Children(t, i).value.0) && k < |t| && t[k] == Close
    requires IsInsert(t, k, more, t') && AreEntries(more, extra)
    ensures ReadsChanged(t, i, t', k, Append(extra), |more|)
    decreases |t| - i, 0, 1
  {
    hide Plain, PlainOne, Children, Changed, Marks, MarksOne, ChangedOne, Append, AreEntries;
    var change := Append(extra);
    var kids, c, rest := BlockParts(t, i, k, change);
    if k in Marks(rest) {
      SameChildren(t, i + 2, t', i + 2);
      NoChange(kids, k, change);
      InsertedChildren(t, c + 1, k, more, t', extra);
      var kids', rest' := Children(t', i + 2).value.0, Children(t', c + 1).value;
      ChangedWithin(Block(t[i].text, kids, c), k, change, kids', c);
      BlockReads(t', i, t[i].text, kids', c, rest'.0, rest'.1);
    } else {
      InsertedWithin(t, i, k, more, t', extra, kids, c);
      var c' := c + |more|;
      RestMoves(t, c + 1, k, more, t');
      NoChange(rest, k, change);
      var kids', rest' := Children(t', i + 2).value.0, Children(t', c' + 1).value;
      BlockReads(t', i, t[i].text, kids', c', rest'.0, rest'.1);
    }
  }

  /** Entries put in before the block's own brace, or before one within it. */
  lemma {:induction false} InsertedWithin(t: seq<Token>, i: nat, k: nat, more: seq<Token>, t': seq<Token>,
                                          extra: seq<Tree>, kids: seq<Node>, c: nat)
    requires BlockAt(t, i) && Children(t, i + 2) == Some((kids, c)) && c < |t| && t[c] == Close
    requires k == c || (k in Marks(kids) && k < c && t[k] == Close)
    requires IsInsert(t, k, more, t') && AreEntries(more, extra)
    ensures Children(t', i + 2).Some? && Children(t', i + 2).value.1 == c + |more|
    ensures ChangedOne(Block(t[i].text, kids, c), k, Append(extra))
      == PlainOne(Block(t[i].text, Children(t', i + 2).value.0, c + |more|))
    decreases |t| - i, 0, 0
  {
    hide Plain, PlainOne, Children, Changed, Marks, MarksOne, ChangedOne, Append, AreEntries;
    var b := Block(t[i].text, kids, c);
    if k == c {
      AppendedChildren(t, i + 2, k, more, t', extra);
      ChangedBlock(b, extra, Children(t', i + 2).value.0, c + |more|);
    } else {
      InsertedChildren(t, i + 2, k, more, t', extra);
      ChangedWithin(b, k, Append(extra), Children(t', i + 2).value.0, c + |more|);
    }
  }
}
