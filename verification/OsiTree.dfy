/**
 Finding story functions in the engine's memory (src/osi.cpp): a walk over the
 left, parent and right links of tree nodes, through every node that proves
 itself by its key and no other.
*/
module OsiTree {
  import opened BitStrings
  import opened Spelling
  import opened Wrappers

  type Address = nat
  type Function(==,!new)

  const LOWEST := 0x1000

  /**
   What can be read at an address: its links, its key if a string is there,
   and the function it leads to if that reads.
  */
  datatype Block = Block(left: Address, parent: Address, right: Address, key: Option<Text>, entry: Option<Function>)

  /** The readable addresses. */
  type Memory = map<Address, Block>

  // ---- keys ----

  predicate IsDigit(c: byte) {
    48 <= c <= 57
  }

  predicate IsNameByte(c: byte) {
    IsDigit(c) || 65 <= c <= 90 || 97 <= c <= 122 || c == 95
  }

  /** A name, a slash and digits: "Name/Arity". */
  predicate IsKey(key: Text) {
    exists slash :: 0 < slash < |key| - 1 && key[slash] == SLASH
      && (forall i :: 0 <= i < slash ==> IsNameByte(key[i]))
      && (forall i :: slash < i < |key| ==> IsDigit(key[i]))
  }

  method CheckKey(key: Text) returns (ok: bool)
    ensures ok <==> IsKey(key)
  {
    var after := AfterLast(key, SLASH);
    if after <= 1 || after >= |key| {
      KeySlash(key);
      return false;
    }
    var slash := after - 1;
    for i := after to |key|
      invariant forall j :: after <= j < i ==> IsDigit(key[j])
    {
      if !IsDigit(key[i]) {
        OneSlash(key, slash);
        return false;
      }
    }
    for i := 0 to slash
      invariant forall j :: 0 <= j < i ==> IsNameByte(key[j])
    {
      if !IsNameByte(key[i]) {
        OneSlash(key, slash);
        return false;
      }
    }
    return true;
  }

  lemma KeySlash(key: Text)
    ensures IsKey(key) ==> 1 < AfterLast(key, SLASH) < |key|
  {
    hide AfterLast;
    if IsKey(key) {
      var slash :| 0 < slash < |key| - 1 && key[slash] == SLASH
        && (forall i :: 0 <= i < slash ==> IsNameByte(key[i])) && (forall i :: slash < i < |key| ==> IsDigit(key[i]));
      AfterLastUnique(key, SLASH, slash + 1);
    }
  }

  /** A key's slash is its last. */
  lemma OneSlash(key: Text, slash: nat)
    requires slash + 1 == AfterLast(key, SLASH)
    ensures IsKey(key) ==>
      && (forall i :: 0 <= i < slash ==> IsNameByte(key[i])) && (forall i :: slash < i < |key| ==> IsDigit(key[i]))
  {
    hide AfterLast;
    if IsKey(key) {
      var s :| 0 < s < |key| - 1 && key[s] == SLASH
        && (forall i :: 0 <= i < s ==> IsNameByte(key[i])) && (forall i :: s < i < |key| ==> IsDigit(key[i]));
      AfterLastUnique(key, SLASH, s + 1);
    }
  }

  // ---- the nodes that can be reached ----

  /** A node that proves itself. */
  predicate Proves(mem: Memory, n: Address) {
    n in mem && mem[n].key.Some? && IsKey(mem[n].key.value)
  }

  function Links(b: Block): seq<Address> {
    [b.left, b.parent, b.right]
  }

  /** A way from node to node, each but the last one that proves itself. */
  predicate Path(mem: Memory, p: seq<Address>) {
    && p != [] && (forall i :: 0 <= i < |p| ==> p[i] >= LOWEST)
    && forall i :: 0 <= i < |p| - 1 ==> Leads(mem, p[i], p[i + 1])
  }

  predicate Leads(mem: Memory, a: Address, b: Address) {
    Proves(mem, a) && b in Links(mem[a])
  }

  ghost predicate Reaches(mem: Memory, a: Address, b: Address) {
    exists p :: Path(mem, p) && p[0] == a && p[|p| - 1] == b
  }

  lemma ReachesItself(mem: Memory, a: Address)
    requires a >= LOWEST
    ensures Reaches(mem, a, a)
  {
    assert Path(mem, [a]);
  }

  lemma ReachesOn(mem: Memory, a: Address, b: Address, c: Address)
    requires Reaches(mem, a, b) && Leads(mem, b, c) && c >= LOWEST
    ensures Reaches(mem, a, c)
  {
    var p :| Path(mem, p) && p[0] == a && p[|p| - 1] == b;
    var q := p + [c];
    hide Leads;
    forall i | 0 <= i < |q| - 1
      ensures Leads(mem, q[i], q[i + 1])
    {
      if i < |p| - 1 {
        assert Leads(mem, p[i], p[i + 1]);
      }
    }
    assert Path(mem, q);
  }

  /** Nodes whose links are among them, or lead nowhere. */
  ghost predicate Closed(mem: Memory, seen: set<Address>) {
    forall a: Address, b: Address :: a in seen && Leads(mem, a, b) && b >= LOWEST ==> b in seen
  }

  lemma {:induction false} ClosedHolds(mem: Memory, seen: set<Address>, p: seq<Address>)
    requires Closed(mem, seen) && Path(mem, p) && p[0] in seen
    ensures p[|p| - 1] in seen
    decreases |p|
  {
    if |p| > 1 {
      assert Leads(mem, p[0], p[0 + 1]);
      hide Leads;
      var q := p[1..];
      forall i | 0 <= i < |q| - 1
        ensures Leads(mem, q[i], q[i + 1])
      {
        assert Leads(mem, p[i + 1], p[i + 1 + 1]);
      }
      ClosedHolds(mem, seen, q);
    }
  }

  // ---- the walk ----

  type Found = map<Text, Function>

  /** What visiting a node records. */
  predicate Records(mem: Memory, n: Address) {
    Proves(mem, n) && mem[n].entry.Some?
  }

  /** Everything recorded since `found0` is of a node in `visited`, and every such node's key is recorded. */
  ghost predicate FoundOf(mem: Memory, found0: Found, found: Found, visited: set<Address>) {
    && (forall n :: n in visited && Records(mem, n) ==> mem[n].key.value in found)
    && (forall k :: k in found ==> IsOld(found0, found, k) || exists n :: n in visited && IsFrom(mem, found, k, n))
    && (forall k :: k in found0 ==> k in found)
  }

  predicate IsOld(found0: Found, found: Found, k: Text)
    requires k in found
  {
    k in found0 && found0[k] == found[k]
  }

  predicate IsFrom(mem: Memory, found: Found, k: Text, n: Address)
    requires k in found
  {
    Records(mem, n) && mem[n].key.value == k && mem[n].entry.value == found[k]
  }

  ghost predicate FoundSince(mem: Memory, found0: Found, found: Found, seen0: set<Address>, seen: set<Address>) {
    seen0 <= seen && FoundOf(mem, found0, found, seen - seen0)
  }

  lemma FoundOne(mem: Memory, found0: Found, found: Found, seen0: set<Address>, seen: set<Address>, n: Address)
    requires FoundSince(mem, found0, found, seen0, seen) && n !in seen
    ensures FoundSince(mem, found0, if Records(mem, n) then found[mem[n].key.value := mem[n].entry.value] else found,
                       seen0, seen + {n})
  {
    hide IsKey;
    var found' := if Records(mem, n) then found[mem[n].key.value := mem[n].entry.value] else found;
    var visited := seen - seen0;
    assert seen + {n} - seen0 == visited + {n};
    forall k | k in found'
      ensures IsOld(found0, found', k) || exists n' :: n' in visited + {n} && IsFrom(mem, found', k, n')
    {
      if Records(mem, n) && k == mem[n].key.value {
        assert n in visited + {n} && IsFrom(mem, found', k, n);
      } else if !IsOld(found0, found', k) {
        var m :| m in visited && IsFrom(mem, found, k, m);
        assert m in visited + {n} && IsFrom(mem, found', k, m);
      }
    }
  }

  /** Every link of a node seen is seen, leads nowhere or is still to be visited. */
  ghost predicate Frontier(mem: Memory, seen: set<Address>, pending: seq<Address>) {
    forall a: Address, b: Address :: a in seen && Leads(mem, a, b) && b >= LOWEST ==> b in seen || b in pending
  }

  /** Where the walk has come from `bucket`: what was seen and is pending can be reached from it. */
  ghost predicate Walking(mem: Memory, bucket: Address, seen0: set<Address>, seen: set<Address>,
                          pending: seq<Address>) {
    && seen0 <= seen && (bucket in seen || bucket in pending)
    && Frontier(mem, seen, pending)
    && (forall n :: n in seen - seen0 ==> Reaches(mem, bucket, n))
    && (forall n :: n in pending && n >= LOWEST ==> Reaches(mem, bucket, n))
  }

  /** What earlier walks saw being closed, the walk is where it should be. */
  ghost predicate OnItsWay(mem: Memory, bucket: Address, seen0: set<Address>, seen: set<Address>,
                           pending: seq<Address>) {
    Closed(mem, seen0) ==> Walking(mem, bucket, seen0, seen, pending)
  }

  lemma Popped(mem: Memory, bucket: Address, seen0: set<Address>, seen: set<Address>, rest: seq<Address>, n: Address)
    requires OnItsWay(mem, bucket, seen0, seen, rest + [n]) && bucket >= LOWEST
    requires n < LOWEST || n in seen
    ensures OnItsWay(mem, bucket, seen0, seen, rest)
  {
    hide Reaches, Leads, Closed;
    var pending := rest + [n];
    assert forall m :: m in pending <==> m in rest || m == n;
  }

  lemma Seen(mem: Memory, bucket: Address, seen0: set<Address>, seen: set<Address>, rest: seq<Address>, n: Address)
    requires OnItsWay(mem, bucket, seen0, seen, rest + [n]) && n >= LOWEST && n !in seen
    ensures OnItsWay(mem, bucket, seen0, seen + {n}, if Proves(mem, n) then rest + Links(mem[n]) else rest)
  {
    hide Reaches, Closed, IsKey;
    var pending := rest + [n];
    var pending' := if Proves(mem, n) then rest + Links(mem[n]) else rest;
    assert forall m :: m in pending <==> m in rest || m == n;
    assert forall m :: m in rest ==> m in pending';
    if Closed(mem, seen0) {
      assert n in pending;
      forall m | m in pending' && m >= LOWEST
        ensures Reaches(mem, bucket, m)
      {
        if m in rest {
          assert m in pending;
        } else {
          ReachesOn(mem, bucket, n, m);
        }
      }
      forall a: Address, b: Address | a in seen + {n} && Leads(mem, a, b) && b >= LOWEST
        ensures b in seen + {n} || b in pending'
      {
      }
    }
  }

  lemma Done(mem: Memory, bucket: Address, seen0: set<Address>, seen: set<Address>)
    requires OnItsWay(mem, bucket, seen0, seen, [])
    ensures Closed(mem, seen0) ==>
      Closed(mem, seen) && forall n :: n in seen <==> n in seen0 || Reaches(mem, bucket, n)
  {
    if !Closed(mem, seen0) {
      return;
    }
    AllSeen(mem, bucket, seen0, seen);
  }

  lemma AllSeen(mem: Memory, bucket: Address, seen0: set<Address>, seen: set<Address>)
    requires Walking(mem, bucket, seen0, seen, [])
    ensures Closed(mem, seen) && forall n :: n in seen <==> n in seen0 || Reaches(mem, bucket, n)
  {
    assert Closed(mem, seen) by {
      hide Leads;
    }
    forall n | Reaches(mem, bucket, n)
      ensures n in seen
    {
      var p :| Path(mem, p) && p[0] == bucket && p[|p| - 1] == n;
      ClosedHolds(mem, seen, p);
    }
  }

  lemma NothingBelow(mem: Memory, bucket: Address)
    requires bucket < LOWEST
    ensures forall n :: !Reaches(mem, bucket, n)
  {
  }

  /** Every node that proves itself is expanded once, so the walk ends. */
  function Left(mem: Memory, seen: set<Address>): nat {
    |mem.Keys - seen|
  }

  lemma LeftLess(mem: Memory, seen: set<Address>, n: Address)
    requires n !in seen
    ensures Left(mem, seen + {n}) == if n in mem then Left(mem, seen) - 1 else Left(mem, seen)
  {
    if n in mem {
      assert mem.Keys - (seen + {n}) == (mem.Keys - seen) - {n};
    } else {
      assert mem.Keys - (seen + {n}) == mem.Keys - seen;
    }
  }

  /**
   Walks from a node, adding to what earlier walks have seen and found: it sees
   exactly what can be reached through nodes that prove themselves, and records
   the function of every such node that has one.
  */
  method VisitTree(mem: Memory, bucket: Address, found0: Found, seen0: set<Address>)
      returns (found: Found, seen: set<Address>)
    ensures FoundSince(mem, found0, found, seen0, seen)
    ensures Closed(mem, seen0) ==>
      Closed(mem, seen) && forall n :: n in seen <==> n in seen0 || Reaches(mem, bucket, n)
  {
    hide Proves, FoundSince, OnItsWay, Closed, Reaches, Left, Links, Records;
    found, seen := found0, seen0;
    FoundNone(mem, found0, seen0);
    if bucket < LOWEST {
      NothingBelow(mem, bucket);
      return;
    }
    var pending: seq<Address> := [bucket];
    WalkStarts(mem, bucket, seen0);
    while pending != []
      invariant FoundSince(mem, found0, found, seen0, seen) && OnItsWay(mem, bucket, seen0, seen, pending)
      decreases 4 * Left(mem, seen) + |pending|
    {
      var node := pending[|pending| - 1];
      var rest := pending[..|pending| - 1];
      assert pending == rest + [node];
      pending := rest;
      if node < LOWEST || node in seen {
        Popped(mem, bucket, seen0, seen, rest, node);
        continue;
      }
      Seen(mem, bucket, seen0, seen, rest, node);
      FoundOne(mem, found0, found, seen0, seen, node);
      LeftLess(mem, seen, node);
      seen := seen + {node};
      found, pending := Visit(mem, node, found, rest);
    }
    Done(mem, bucket, seen0, seen);
  }

  /** Records a node that proves itself, and adds its links to those to be visited. */
  method Visit(mem: Memory, node: Address, found: Found, rest: seq<Address>)
      returns (found': Found, pending: seq<Address>)
    ensures found' == if Records(mem, node) then found[mem[node].key.value := mem[node].entry.value] else found
    ensures pending == if Proves(mem, node) then rest + Links(mem[node]) else rest
    ensures |pending| <= |rest| + 3 && (node !in mem ==> pending == rest)
  {
    found', pending := found, rest;
    var ok := ReadKey(mem, node);
    if ok {
      if mem[node].entry.Some? {
        found' := found'[mem[node].key.value := mem[node].entry.value];
      }
      pending := pending + Links(mem[node]);
    }
  }

  /** Whether a node reads, and has a key. */
  method ReadKey(mem: Memory, node: Address) returns (ok: bool)
    ensures ok <==> Proves(mem, node)
    ensures ok ==> node in mem && mem[node].key.Some?
  {
    if node !in mem || mem[node].key == None {
      return false;
    }
    ok := CheckKey(mem[node].key.value);
  }

  lemma FoundNone(mem: Memory, found0: Found, seen0: set<Address>)
    ensures FoundSince(mem, found0, found0, seen0, seen0)
  {
  }

  lemma WalkStarts(mem: Memory, bucket: Address, seen0: set<Address>)
    requires bucket >= LOWEST
    ensures OnItsWay(mem, bucket, seen0, seen0, [bucket])
  {
    hide Leads;
    ReachesItself(mem, bucket);
    hide Reaches;
  }

  // ---- trees ----

  datatype Tree = Leaf | Node(at: Address, left: Tree, right: Tree)

  function Addresses(t: Tree): set<Address> {
    if t == Leaf then {} else {t.at} + Addresses(t.left) + Addresses(t.right)
  }

  /** A subtree as it is in memory: its nodes prove themselves and link to their children and back. */
  predicate InMemory(mem: Memory, t: Tree) {
    t == Leaf ||
      (&& t.at >= LOWEST && Proves(mem, t.at)
       && (t.left.Node? ==> mem[t.at].left == t.left.at && t.left.at in mem && mem[t.left.at].parent == t.at)
       && (t.right.Node? ==> mem[t.at].right == t.right.at && t.right.at in mem && mem[t.right.at].parent == t.at)
       && InMemory(mem, t.left) && InMemory(mem, t.right))
  }

  lemma ReachesThrough(mem: Memory, a: Address, b: Address, c: Address)
    requires Reaches(mem, a, b) && Reaches(mem, b, c)
    ensures Reaches(mem, a, c)
  {
    var p :| Path(mem, p) && p[0] == a && p[|p| - 1] == b;
    var q :| Path(mem, q) && q[0] == b && q[|q| - 1] == c;
    var r := p + q[1..];
    hide Leads;
    forall i | 0 <= i < |r| - 1
      ensures Leads(mem, r[i], r[i + 1])
    {
      if i < |p| - 1 {
        assert Leads(mem, p[i], p[i + 1]);
      } else {
        var k := i - (|p| - 1);
        assert r[i] == q[k] && r[i + 1] == q[k + 1];
        assert Leads(mem, q[k], q[k + 1]);
      }
    }
    assert Path(mem, r);
  }

  lemma Linked(mem: Memory, a: Address, b: Address)
    requires a >= LOWEST && b >= LOWEST && Leads(mem, a, b)
    ensures Reaches(mem, a, b)
  {
    hide Reaches, Leads;
    ReachesItself(mem, a);
    ReachesOn(mem, a, a, b);
  }

  /** A tree's root reaches all of it, and all of it reaches the root. */
  lemma {:induction false} RootReaches(mem: Memory, t: Tree, n: Address)
    requires InMemory(mem, t) && n in Addresses(t)
    ensures Reaches(mem, t.at, n) && Reaches(mem, n, t.at)
  {
    hide Reaches, Proves;
    if n == t.at {
      ReachesItself(mem, n);
    } else {
      var child := if n in Addresses(t.left) then t.left else t.right;
      assert child.Node? && child.at >= LOWEST && Proves(mem, child.at);
      RootReaches(mem, child, n);
      Linked(mem, t.at, child.at);
      Linked(mem, child.at, t.at);
      ReachesThrough(mem, t.at, child.at, n);
      ReachesThrough(mem, n, child.at, t.at);
    }
  }

  /** From any node of a tree the walk reaches the whole of it, not only what is below. */
  lemma WholeTreeReached(mem: Memory, t: Tree, a: Address, b: Address)
    requires InMemory(mem, t) && a in Addresses(t) && b in Addresses(t)
    ensures Reaches(mem, a, b)
  {
    RootReaches(mem, t, a);
    RootReaches(mem, t, b);
    ReachesThrough(mem, a, t.at, b);
  }

  /** So a walk from any node of a tree finds every function in it whose signature reads. */
  method FindFunctions(mem: Memory, ghost t: Tree, a: Address) returns (found: Found)
    requires InMemory(mem, t) && a in Addresses(t)
    ensures forall n :: n in Addresses(t) && Records(mem, n) ==> mem[n].key.value in found
    ensures forall k :: k in found ==> exists n :: Reaches(mem, a, n) && IsFrom(mem, found, k, n)
  {
    hide InMemory, Reaches, Records, Addresses;
    var seen: set<Address>;
    found, seen := VisitTree(mem, a, map[], {});
    assert Closed(mem, {});
    assert seen - {} == seen;
    forall n | n in Addresses(t)
      ensures n in seen
    {
      WholeTreeReached(mem, t, a, n);
    }
    hide Closed, IsFrom;
  }

  // ---- by the characters and addresses ----

  predicate AllDigits(s: Text) {
    forall c :: c in s ==> '0' as int <= c <= '9' as int
  }

  predicate AllNameBytes(s: Text) {
    forall c :: c in s ==>
      || '0' as int <= c <= '9' as int || 'A' as int <= c <= 'Z' as int
      || 'a' as int <= c <= 'z' as int || c == '_' as int
  }

  /** A key is a name of letters, digits and underscores, a slash, and digits, neither of them empty. */
  lemma KeyLaw(name: Text, digits: Text)
    requires 47 !in name && 47 !in digits
    ensures IsKey(name + [47] + digits) <==>
      name != [] && digits != [] && AllNameBytes(name) && AllDigits(digits)
  {
    if IsKey(name + [47] + digits) {
      OnlySlash(name, digits);
    } else if name != [] && digits != [] && AllNameBytes(name) && AllDigits(digits) {
      PartsMakeKey(name, digits);
      assert false;
    }
  }

  lemma PartsMakeKey(name: Text, digits: Text)
    requires name != [] && digits != [] && AllNameBytes(name) && AllDigits(digits)
    ensures IsKey(name + [47] + digits)
  {
    var key := name + [47] + digits;
    forall i | 0 <= i < |name|
      ensures IsNameByte(key[i])
    {
      assert key[i] == name[i] && name[i] in name;
    }
    forall i | |name| < i < |key|
      ensures IsDigit(key[i])
    {
      assert key[i] == digits[i - |name| - 1] && digits[i - |name| - 1] in digits;
    }
    assert key[|name|] == SLASH;
  }

  lemma OnlySlash(name: Text, digits: Text)
    requires IsKey(name + [47] + digits) && 47 !in name && 47 !in digits
    ensures name != [] && digits != [] && AllNameBytes(name) && AllDigits(digits)
  {
    var key := name + [47] + digits;
    assert forall i :: 0 <= i < |name| ==> name[i] == key[i];
    assert forall i :: 0 <= i < |digits| ==> digits[i] == key[|name| + 1 + i];
    var slash := SlashOf(key);
    assert key[slash] == SLASH && slash == |name|;
    assert forall i :: 0 <= i < |digits| ==> IsDigit(digits[i]);
  }

  /** A key has one slash. */
  lemma SlashOf(key: Text) returns (slash: nat)
    requires IsKey(key)
    ensures 0 < slash < |key| - 1 && forall i :: 0 <= i < |key| ==> (key[i] == 47 <==> i == slash)
    ensures (forall i :: 0 <= i < slash ==> IsNameByte(key[i])) && forall i :: slash < i < |key| ==> IsDigit(key[i])
  {
    slash :| 0 < slash < |key| - 1 && key[slash] == SLASH
      && (forall i :: 0 <= i < slash ==> IsNameByte(key[i])) && (forall i :: slash < i < |key| ==> IsDigit(key[i]));
  }

  /** Nothing in the first page is reached, and everything above it reaches itself. */
  lemma PageLaw(mem: Memory, a: Address, b: Address)
    ensures Reaches(mem, a, b) ==> a >= 4096 && b >= 4096
    ensures Reaches(mem, a, a) <==> a >= 4096
  {
    if a >= 4096 {
      ReachesItself(mem, a);
    }
  }

  /** A node leads to its left, its parent and its right, if it can be read and so can its key. */
  lemma LeadsLaw(mem: Memory, a: Address, b: Address)
    ensures Leads(mem, a, b) <==>
      && a in mem && mem[a].key.Some? && IsKey(mem[a].key.value)
      && (b == mem[a].left || b == mem[a].parent || b == mem[a].right)
  {
  }
}
