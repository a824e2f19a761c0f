/**
 The thread-caching allocator of src/fast_alloc.cpp: size classes, arenas
 carved front to back, one free list for every thread and class threaded
 through the freed blocks, and everything else passed to the real allocator.
*/
module FastAlloc {
  import opened BitStrings
  import opened Sequences
  import opened Wrappers

  const TWO_64 := 0x1_0000_0000_0000_0000
  const MAGIC := 0x4247_3354_454D_5031
  const HEADER := 16
  const CLASSES := 14
  const SMALLEST := 16
  const ARENA_CHUNK := 0x40_0000

  /** Where user space ends: no address reaches it, and the magic is none. */
  const LIMIT := 0x8000_0000_0000

  // ---- size classes ----

  function BytesOf(cls: nat): nat {
    SMALLEST * Pow2(cls)
  }

  /** The size with its header, in the 64 bits of size_t. */
  function Need(size: nat): nat {
    (size + HEADER) % TWO_64
  }

  /** The smallest class from `cls` on that holds `need`, or CLASSES if none does. */
  function ClassFrom(need: nat, cls: nat): (r: nat)
    requires cls < CLASSES
    ensures cls <= r <= CLASSES
    ensures r < CLASSES ==> need <= BytesOf(r) && (r > cls ==> BytesOf(r - 1) < need)
    ensures r == CLASSES <==> need > BytesOf(CLASSES - 1)
    decreases CLASSES - cls
  {
    Pow2Mono(cls, CLASSES - 1);
    if BytesOf(cls) >= need then cls
    else if cls + 1 == CLASSES then CLASSES
    else ClassFrom(need, cls + 1)
  }

  function ClassOf(size: nat): nat {
    ClassFrom(Need(size), 0)
  }

  method FindClass(size: nat) returns (r: nat)
    ensures r == ClassOf(size)
  {
    var need := Need(size);
    var cls := 0;
    var cap := SMALLEST;
    assert Pow2(0) == 1;
    while cap < need && cls + 1 < CLASSES
      invariant cls < CLASSES && cap == BytesOf(cls)
      invariant ClassFrom(need, cls) == ClassFrom(need, 0)
    {
      cap := 2 * cap;
      cls := cls + 1;
    }
    r := if cap >= need then cls else CLASSES;
  }

  lemma LargestClass()
    ensures BytesOf(CLASSES - 1) == 0x20000
  {
    Pow2Values();
    Pow2Adds(8, 5);
  }

  /** The class's block holds the request and its header exactly for the sizes that do not wrap. */
  lemma ClassHoldsIff(size: nat)
    requires size < TWO_64
    ensures (ClassOf(size) < CLASSES ==> size + HEADER <= BytesOf(ClassOf(size))) <==> size + HEADER < TWO_64
  {
    if size + HEADER >= TWO_64 {
      assert Need(size) == size + HEADER - TWO_64 < HEADER;
      assert BytesOf(0) == SMALLEST;
    }
  }

  /** What is passed on: requests that with their header are over 128 KB. */
  lemma PassedOn(size: nat)
    requires size + HEADER < TWO_64
    ensures ClassOf(size) == CLASSES <==> size + 16 > 0x2_0000
  {
    LargestClass();
  }

  // ---- the heap ----

  /** A thread's pool: the head of each free list, and what is left of its arena. */
  datatype Pool = Pool(heads: seq<nat>, arena: nat, left: nat)

  /**
   Memory by its eight-byte words, each at a multiple of eight, the pools, and for the statements below:
   every block carved with its class, every block in use with the size asked
   for, and for every block that is free the list it is on.
  */
  datatype Heap = Heap(
    mem: map<nat, nat>,
    pools: map<nat, Pool>,
    carved: map<nat, nat>,
    live: map<nat, nat>,
    lists: map<(nat, nat), seq<nat>>,
    place: map<nat, (nat, nat)>)

  function Word(mem: map<nat, nat>, a: nat): nat {
    if a in mem then mem[a] else 0
  }

  function NoPool(): Pool {
    Pool(seq(CLASSES, _ => 0), 0, 0)
  }

  function PoolOf(h: Heap, t: nat): Pool {
    if t in h.pools then h.pools[t] else NoPool()
  }

  function ListOf(h: Heap, t: nat, c: nat): seq<nat> {
    if (t, c) in h.lists then h.lists[(t, c)] else []
  }

  /** The list that starts at `head`, each free block's first word leading to the next. */
  predicate Linked(mem: map<nat, nat>, head: nat, blocks: seq<nat>)
    decreases |blocks|
  {
    if blocks == [] then head == 0
    else head == blocks[0] && head != 0 && Linked(mem, Word(mem, head), blocks[1..])
  }

  predicate Apart(a: nat, m: nat, b: nat, n: nat) {
    a + m <= b || b + n <= a
  }

  predicate BlockOk(b: nat, c: nat) {
    c < CLASSES && 0 < b && b % 16 == 0 && b + BytesOf(c) <= LIMIT
  }

  /** Carved blocks are aligned, within user space and pairwise disjoint. */
  predicate Blocks(h: Heap) {
    && (forall b :: b in h.carved ==> BlockOk(b, h.carved[b]))
    && (forall a, b :: a in h.carved && b in h.carved && a != b ==>
          Apart(a, BytesOf(h.carved[a]), b, BytesOf(h.carved[b])))
  }

  predicate PoolOk(p: Pool) {
    |p.heads| == CLASSES && (p.left > 0 ==> 0 < p.arena && p.arena % 16 == 0 && p.arena + p.left <= LIMIT)
  }

  /** What is left of every arena is no block's and no other thread's. */
  predicate Arenas(h: Heap) {
    && (forall t :: t in h.pools ==> PoolOk(h.pools[t]))
    && (forall t, b :: t in h.pools && b in h.carved && h.pools[t].left > 0 ==>
          Apart(b, BytesOf(h.carved[b]), h.pools[t].arena, h.pools[t].left))
    && (forall t, u :: t in h.pools && u in h.pools && t != u && h.pools[t].left > 0 && h.pools[u].left > 0 ==>
          Apart(h.pools[t].arena, h.pools[t].left, h.pools[u].arena, h.pools[u].left))
  }

  /** A carved block is in use, or placed on a list of its own class. */
  predicate Places(h: Heap) {
    && h.live.Keys <= h.carved.Keys
    && h.place.Keys == h.carved.Keys - h.live.Keys
    && (forall b :: b in h.place ==> h.place[b].1 == h.carved[b])
    && (forall b :: b in h.place ==> b in ListOf(h, h.place[b].0, h.place[b].1))
  }

  /** What is on a list is placed there, and there once. */
  ghost predicate Lists(h: Heap) {
    forall t: nat, c: nat :: ListPlaced(h, t, c) && Distinct(ListOf(h, t, c))
  }

  predicate ListPlaced(h: Heap, t: nat, c: nat) {
    forall b :: b in ListOf(h, t, c) ==> b in h.place && h.place[b] == (t, c)
  }

  ghost predicate Links(h: Heap) {
    forall t: nat, c: nat :: c < CLASSES ==>
      |PoolOf(h, t).heads| == CLASSES && Linked(h.mem, Head(PoolOf(h, t), c), ListOf(h, t, c))
  }

  predicate Headers(h: Heap) {
    forall b :: b in h.live ==>
      && b in h.carved && h.live[b] + HEADER <= BytesOf(h.carved[b])
      && Word(h.mem, b) == MAGIC && Word(h.mem, b + 8) == h.carved[b]
  }

  ghost predicate Inv(h: Heap) {
    Blocks(h) && Arenas(h) && Places(h) && Lists(h) && Links(h) && Headers(h)
  }

  // ---- what the invariant says ----

  /** Live payloads are 16-byte aligned, as large as asked for, and pairwise disjoint. */
  lemma PayloadsDisjoint(h: Heap, a: nat, b: nat)
    requires Inv(h) && a in h.live && b in h.live && a != b
    ensures (a + HEADER) % 16 == 0
    ensures Apart(a + HEADER, h.live[a], b + HEADER, h.live[b])
    ensures Apart(a, HEADER + h.live[a], b, HEADER + h.live[b])
  {
    hide Arenas, Places, Lists, Links, BytesOf;
    assert a in h.carved && b in h.carved;
    assert BlockOk(a, h.carved[a]);
    assert Apart(a, BytesOf(h.carved[a]), b, BytesOf(h.carved[b]));
    hide Blocks;
  }

  /** A block that is free is on the list of one thread, and is no part of what is in use. */
  lemma FreeBlockPlaced(h: Heap, b: nat, t: nat, c: nat, t': nat, c': nat, i: nat, j: nat)
    requires Inv(h) && b in h.carved
    requires i < |ListOf(h, t, c)| && ListOf(h, t, c)[i] == b
    requires j < |ListOf(h, t', c')| && ListOf(h, t', c')[j] == b
    ensures t == t' && c == c' && i == j && c == h.carved[b] && b !in h.live
  {
    hide Links, Headers, Arenas, Blocks;
    assert ListPlaced(h, t, c) && ListPlaced(h, t', c') && Distinct(ListOf(h, t, c));
    assert b in ListOf(h, t, c) && b in ListOf(h, t', c');
  }

  /** The first word of a free block is an address or zero, so never the magic. */
  lemma {:induction false} LinkedWord(mem: map<nat, nat>, head: nat, blocks: seq<nat>, i: nat)
    requires Linked(mem, head, blocks) && i < |blocks|
    ensures Word(mem, blocks[i]) == if i + 1 < |blocks| then blocks[i + 1] else 0
    decreases |blocks|
  {
    if i > 0 {
      LinkedWord(mem, Word(mem, head), blocks[1..], i - 1);
    } else if |blocks| > 1 {
      assert blocks[1..][0] == blocks[1];
    }
  }

  lemma FreeHasNoMagic(h: Heap, b: nat)
    requires Inv(h) && b in h.carved && b !in h.live
    ensures Word(h.mem, b) != MAGIC
  {
    var (t, c) := h.place[b];
    var l := ListOf(h, t, c);
    assert b in l;
    var i :| 0 <= i < |l| && l[i] == b;
    assert Linked(h.mem, Head(PoolOf(h, t), c), l);
    LinkedWord(h.mem, Head(PoolOf(h, t), c), l, i);
    assert ListPlaced(h, t, c);
    if i + 1 < |l| {
      assert l[i + 1] in l && l[i + 1] in h.carved;
      assert BlockOk(l[i + 1], h.carved[l[i + 1]]);
    }
  }

  lemma {:induction false} LinkedFrame(mem: map<nat, nat>, mem': map<nat, nat>, head: nat, blocks: seq<nat>)
    requires Linked(mem, head, blocks)
    requires forall i :: 0 <= i < |blocks| ==> Word(mem', blocks[i]) == Word(mem, blocks[i])
    ensures Linked(mem', head, blocks)
    decreases |blocks|
  {
    if blocks != [] {
      LinkedFrame(mem, mem', Word(mem, head), blocks[1..]);
    }
  }

  // ---- the operations ----

  function Head(p: Pool, c: nat): nat {
    if c < |p.heads| then p.heads[c] else 0
  }

  function SetHead(p: Pool, c: nat, head: nat): Pool {
    if c < |p.heads| then p.(heads := p.heads[c := head]) else p
  }

  function Tail(blocks: seq<nat>): seq<nat> {
    if blocks == [] then [] else blocks[1..]
  }

  /** A block's header, as an allocation writes it. */
  function Stamp(mem: map<nat, nat>, b: nat, c: nat): map<nat, nat> {
    mem[b := MAGIC][b + 8 := c]
  }

  /** Takes the first block of a list. */
  function Pop(h: Heap, t: nat, c: nat, size: nat): Heap {
    var b := Head(PoolOf(h, t), c);
    h.(mem := Stamp(h.mem, b, c),
       pools := h.pools[t := SetHead(PoolOf(h, t), c, Word(h.mem, b))],
       live := h.live[b := size],
       lists := h.lists[(t, c) := Tail(ListOf(h, t, c))],
       place := h.place - {b})
  }

  /** Puts a block back, on the list of the thread that frees it. */
  function Push(h: Heap, t: nat, b: nat): Heap {
    var c := if b in h.carved then h.carved[b] else 0;
    h.(mem := h.mem[b := Head(PoolOf(h, t), c)],
       pools := h.pools[t := SetHead(PoolOf(h, t), c, b)],
       live := h.live - {b},
       lists := h.lists[(t, c) := [b] + ListOf(h, t, c)],
       place := h.place[b := (t, c)])
  }

  /** A new chunk for a thread's arena; what was left of the old one is given up. */
  function Refill(h: Heap, t: nat, chunk: nat, length: nat): Heap {
    h.(pools := h.pools[t := PoolOf(h, t).(arena := chunk, left := length)])
  }

  /** Takes a block from the front of the arena. */
  function Carve(h: Heap, t: nat, c: nat, size: nat): Heap {
    var p := PoolOf(h, t);
    var left := if BytesOf(c) <= p.left then p.left - BytesOf(c) else 0;
    h.(mem := Stamp(h.mem, p.arena, c),
       pools := h.pools[t := p.(arena := p.arena + BytesOf(c), left := left)],
       carved := h.carved[p.arena := c],
       live := h.live[p.arena := size])
  }

  /** The words of a header are in its block alone. */
  lemma HeaderIsOwn(h: Heap, a: nat, b: nat)
    requires Blocks(h) && a in h.carved && b in h.carved && a != b
    ensures b != a + 8 && b + 8 != a && a + 8 != b + 8
  {
    assert BytesOf(h.carved[a]) >= SMALLEST && BytesOf(h.carved[b]) >= SMALLEST;
  }

  /** Stamping one block leaves the headers and links of the others. */
  lemma StampFrame(h: Heap, b: nat, c: nat)
    requires Blocks(h) && b in h.carved
    ensures SameWords(h, Stamp(h.mem, b, c), b)
    ensures Word(Stamp(h.mem, b, c), b) == MAGIC && Word(Stamp(h.mem, b, c), b + 8) == c
  {
    forall a | a in h.carved && a != b
      ensures Word(Stamp(h.mem, b, c), a) == Word(h.mem, a) && Word(Stamp(h.mem, b, c), a + 8) == Word(h.mem, a + 8)
    {
      HeaderIsOwn(h, a, b);
    }
  }

  // ---- keeping the invariant, part by part ----

  /** Every list but one is as it was. */
  ghost predicate OtherLists(h: Heap, h': Heap, t: nat, c: nat) {
    forall u: nat, d: nat :: (u, d) != (t, c) ==> ListOf(h', u, d) == ListOf(h, u, d)
  }

  /** Every list head but one is as it was, and so is every arena. */
  ghost predicate OtherHeads(h: Heap, h': Heap, t: nat, c: nat) {
    && (forall u: nat, d: nat :: (u, d) != (t, c) ==> Head(PoolOf(h', u), d) == Head(PoolOf(h, u), d))
    && (forall u: nat :: |PoolOf(h', u).heads| == CLASSES)
  }

  ghost predicate SameWords(h: Heap, mem: map<nat, nat>, b: nat) {
    forall a :: a in h.carved && a != b ==> Word(mem, a) == Word(h.mem, a) && Word(mem, a + 8) == Word(h.mem, a + 8)
  }

  /** A block gets a header and is in use; the other blocks' headers stay. */
  lemma HeadersWith(h: Heap, h': Heap, b: nat, c: nat, size: nat)
    requires Headers(h) && SameWords(h, h'.mem, b)
    requires h'.live == h.live[b := size] && b in h'.carved && h'.carved[b] == c
    requires forall a :: a in h.carved && a != b ==> a in h'.carved && h'.carved[a] == h.carved[a]
    requires Word(h'.mem, b) == MAGIC && Word(h'.mem, b + 8) == c && size + HEADER <= BytesOf(c)
    ensures Headers(h')
  {
    hide BytesOf, Word;
  }

  lemma HeadersWithout(h: Heap, h': Heap, b: nat)
    requires Headers(h) && SameWords(h, h'.mem, b) && h'.live == h.live - {b} && h'.carved == h.carved
    ensures Headers(h')
  {
    hide BytesOf, Word;
  }

  /** A list other than the one at hand keeps its links. */
  lemma LinksBut(h: Heap, h': Heap, t: nat, c: nat, b: nat)
    requires Links(h) && Lists(h) && Places(h) && OtherLists(h, h', t, c) && OtherHeads(h, h', t, c)
    requires SameWords(h, h'.mem, b) && b in h.carved && (b in h.place ==> h.place[b] == (t, c))
    requires Linked(h'.mem, Head(PoolOf(h', t), c), ListOf(h', t, c))
    ensures Links(h')
  {
    hide ListOf, PoolOf, Word, Distinct;
    forall u: nat, d: nat | d < CLASSES
      ensures Linked(h'.mem, Head(PoolOf(h', u), d), ListOf(h', u, d))
    {
      if (u, d) != (t, c) {
        var l := ListOf(h, u, d);
        assert ListPlaced(h, u, d) && Linked(h.mem, Head(PoolOf(h, u), d), l);
        forall i | 0 <= i < |l|
          ensures Word(h'.mem, l[i]) == Word(h.mem, l[i])
        {
          assert l[i] in l;
        }
        LinkedFrame(h.mem, h'.mem, Head(PoolOf(h, u), d), l);
      }
    }
  }

  // ---- popping ----

  ghost predicate CanPop(h: Heap, t: nat, c: nat) {
    Inv(h) && c < CLASSES && ListOf(h, t, c) != []
  }

  /** The head of a list is its first block, carved and free. */
  lemma HeadIsFirst(h: Heap, t: nat, c: nat)
    requires CanPop(h, t, c)
    ensures var l := ListOf(h, t, c);
      && Head(PoolOf(h, t), c) == l[0] && l[0] in h.place && h.place[l[0]] == (t, c)
      && l[0] in h.carved && l[0] !in h.live && h.carved[l[0]] == c
      && ListPlaced(h, t, c) && Distinct(l)
      && Linked(h.mem, l[0], l) && |PoolOf(h, t).heads| == CLASSES
  {
    hide Blocks, Arenas, Headers;
    var l := ListOf(h, t, c);
    assert Linked(h.mem, Head(PoolOf(h, t), c), l);
    assert ListPlaced(h, t, c) && Distinct(l) && l[0] in l;
  }

  lemma HeadsBut(p: Pool, c: nat, head: nat)
    requires |p.heads| == CLASSES && c < CLASSES
    ensures |SetHead(p, c, head).heads| == CLASSES && Head(SetHead(p, c, head), c) == head
    ensures forall d: nat :: d != c ==> Head(SetHead(p, c, head), d) == Head(p, d)
  {
  }

  /** What a change of one list changes. */
  lemma ListShape(h: Heap, h': Heap, t: nat, c: nat, head: nat, blocks: seq<nat>)
    requires c < CLASSES && forall u: nat :: |PoolOf(h, u).heads| == CLASSES
    requires h'.pools == h.pools[t := SetHead(PoolOf(h, t), c, head)]
    requires h'.lists == h.lists[(t, c) := blocks]
    ensures ListOf(h', t, c) == blocks && Head(PoolOf(h', t), c) == head
    ensures OtherLists(h, h', t, c) && OtherHeads(h, h', t, c)
  {
    HeadsBut(PoolOf(h, t), c, head);
    hide SetHead, Head, NoPool;
    assert PoolOf(h', t) == SetHead(PoolOf(h, t), c, head);
    assert forall u: nat :: u != t ==> PoolOf(h', u) == PoolOf(h, u);
  }

  /** A change of a list head changes no arena. */
  lemma ListArenas(h: Heap, h': Heap, t: nat, c: nat, head: nat)
    requires Arenas(h) && PoolOk(PoolOf(h, t)) && h'.carved == h.carved
    requires h'.pools == h.pools[t := SetHead(PoolOf(h, t), c, head)]
    ensures Arenas(h')
  {
    hide BytesOf;
  }

  lemma SameBlocks(h: Heap, h': Heap)
    requires Blocks(h) && h'.carved == h.carved
    ensures Blocks(h')
  {
  }

  lemma PopPlaces(h: Heap, h': Heap, t: nat, c: nat, b: nat)
    requires Places(h) && ListOf(h, t, c) != [] && b == ListOf(h, t, c)[0]
    requires b in h.carved && b !in h.live
    requires h'.carved == h.carved && h'.live.Keys == h.live.Keys + {b} && h'.place == h.place - {b}
    requires OtherLists(h, h', t, c) && ListOf(h', t, c) == Tail(ListOf(h, t, c))
    ensures Places(h')
  {
    hide ListOf;
    forall a | a in h'.place
      ensures a in ListOf(h', h'.place[a].0, h'.place[a].1)
    {
      assert a in ListOf(h, h.place[a].0, h.place[a].1) && a != b;
    }
  }

  lemma PopLists(h: Heap, h': Heap, t: nat, c: nat, b: nat)
    requires Lists(h) && ListOf(h, t, c) != [] && b == ListOf(h, t, c)[0]
    requires h'.place == h.place - {b}
    requires OtherLists(h, h', t, c) && ListOf(h', t, c) == Tail(ListOf(h, t, c))
    ensures Lists(h')
  {
    hide ListOf;
    var l := ListOf(h, t, c);
    assert ListPlaced(h, t, c) && Distinct(l) && b in l;
    forall u: nat, d: nat
      ensures ListPlaced(h', u, d) && Distinct(ListOf(h', u, d))
    {
      assert ListPlaced(h, u, d) && Distinct(ListOf(h, u, d));
    }
  }

  lemma PopTail(h: Heap, t: nat, c: nat, mem: map<nat, nat>)
    requires ListOf(h, t, c) != [] && Distinct(ListOf(h, t, c)) && ListPlaced(h, t, c) && Places(h)
    requires Linked(h.mem, ListOf(h, t, c)[0], ListOf(h, t, c)) && SameWords(h, mem, ListOf(h, t, c)[0])
    ensures Linked(mem, Word(h.mem, ListOf(h, t, c)[0]), Tail(ListOf(h, t, c)))
  {
    var l := ListOf(h, t, c);
    hide ListOf;
    forall i | 0 <= i < |l[1..]|
      ensures Word(mem, l[1..][i]) == Word(h.mem, l[1..][i])
    {
      assert l[i + 1] in l && l[i + 1] != l[0];
    }
    LinkedFrame(h.mem, mem, Word(h.mem, l[0]), l[1..]);
  }

  lemma PoolsOk(h: Heap)
    requires Inv(h)
    ensures forall t: nat :: |PoolOf(h, t).heads| == CLASSES && PoolOk(PoolOf(h, t))
  {
    hide Blocks, Places, Lists, Links, Headers;
  }

  /** Reusing a free block for a request that its class holds. */
  lemma PopInv(h: Heap, t: nat, c: nat, size: nat)
    requires CanPop(h, t, c) && size + HEADER <= BytesOf(c)
    ensures Inv(Pop(h, t, c, size))
    ensures Head(PoolOf(h, t), c) in h.carved && Head(PoolOf(h, t), c) !in h.live
  {
    hide Blocks, Arenas, Places, Lists, Links, Headers, ListOf, PoolOf, Word, Head, SetHead, Tail, Stamp, Linked;
    hide BytesOf, Distinct, ListPlaced, OtherLists, OtherHeads, SameWords, PoolOk;
    HeadIsFirst(h, t, c);
    PoolsOk(h);
    var b := Head(PoolOf(h, t), c);
    var h' := Pop(h, t, c, size);
    StampFrame(h, b, c);
    SameBlocks(h, h');
    ListShape(h, h', t, c, Word(h.mem, b), Tail(ListOf(h, t, c)));
    ListArenas(h, h', t, c, Word(h.mem, b));
    PopPlaces(h, h', t, c, b);
    PopLists(h, h', t, c, b);
    PopTail(h, t, c, h'.mem);
    LinksBut(h, h', t, c, b);
    HeadersWith(h, h', b, c, size);
  }

  // ---- pushing ----

  lemma PushPlaces(h: Heap, h': Heap, t: nat, c: nat, b: nat)
    requires Places(h) && b in h.live && h.carved[b] == c
    requires h'.carved == h.carved && h'.live == h.live - {b} && h'.place == h.place[b := (t, c)]
    requires OtherLists(h, h', t, c) && ListOf(h', t, c) == [b] + ListOf(h, t, c)
    ensures Places(h')
  {
    hide ListOf;
    forall a | a in h'.place
      ensures a in ListOf(h', h'.place[a].0, h'.place[a].1)
    {
      if a != b {
        assert a in ListOf(h, h.place[a].0, h.place[a].1);
      }
    }
  }

  lemma PushLists(h: Heap, h': Heap, t: nat, c: nat, b: nat)
    requires Lists(h) && Places(h) && b in h.live
    requires h'.place == h.place[b := (t, c)]
    requires OtherLists(h, h', t, c) && ListOf(h', t, c) == [b] + ListOf(h, t, c)
    ensures Lists(h')
  {
    hide ListOf;
    forall u: nat, d: nat
      ensures ListPlaced(h', u, d) && Distinct(ListOf(h', u, d))
    {
      assert ListPlaced(h, u, d) && Distinct(ListOf(h, u, d));
    }
  }

  lemma FirstWordIsOwn(h: Heap, b: nat, word: nat)
    requires Blocks(h) && b in h.carved
    ensures SameWords(h, h.mem[b := word], b)
  {
    forall a | a in h.carved && a != b
      ensures Word(h.mem[b := word], a) == Word(h.mem, a) && Word(h.mem[b := word], a + 8) == Word(h.mem, a + 8)
    {
      HeaderIsOwn(h, a, b);
    }
  }

  lemma PushLinked(h: Heap, mem: map<nat, nat>, t: nat, c: nat, b: nat)
    requires c < CLASSES && Links(h) && Lists(h) && Places(h) && b in h.live && b > 0
    requires Word(mem, b) == Head(PoolOf(h, t), c) && SameWords(h, mem, b)
    ensures Linked(mem, b, [b] + ListOf(h, t, c))
  {
    var l := ListOf(h, t, c);
    assert ListPlaced(h, t, c) && Linked(h.mem, Head(PoolOf(h, t), c), l);
    hide ListOf, Head, PoolOf, Word, Links, Lists;
    forall i | 0 <= i < |l|
      ensures Word(mem, l[i]) == Word(h.mem, l[i])
    {
      assert l[i] in l;
    }
    LinkedFrame(h.mem, mem, Head(PoolOf(h, t), c), l);
    assert ([b] + l)[1..] == l;
  }

  /** A block freed by any thread goes to that thread's list of the block's class. */
  lemma PushInv(h: Heap, t: nat, b: nat)
    requires Inv(h) && b in h.live
    ensures Inv(Push(h, t, b)) && b in h.carved && h.carved[b] < CLASSES
  {
    hide Blocks, Arenas, Places, Lists, Links, Headers, ListOf, PoolOf, Word, Head, SetHead, Tail, Stamp, Linked;
    hide BytesOf, Distinct, ListPlaced, OtherLists, OtherHeads, SameWords, PoolOk;
    PoolsOk(h);
    LiveIsCarved(h, b);
    var c := h.carved[b];
    var h' := Push(h, t, b);
    SameBlocks(h, h');
    ListShape(h, h', t, c, b, [b] + ListOf(h, t, c));
    ListArenas(h, h', t, c, b);
    PushPlaces(h, h', t, c, b);
    PushLists(h, h', t, c, b);
    FirstWordIsOwn(h, b, Head(PoolOf(h, t), c));
    WrittenWord(h.mem, b, Head(PoolOf(h, t), c));
    PushLinked(h, h'.mem, t, c, b);
    LinksBut(h, h', t, c, b);
    HeadersWithout(h, h', b);
  }

  lemma WrittenWord(mem: map<nat, nat>, a: nat, word: nat)
    ensures Word(mem[a := word], a) == word
  {
  }

  lemma LiveIsCarved(h: Heap, b: nat)
    requires Inv(h) && b in h.live
    ensures b in h.carved && h.carved[b] < CLASSES && b !in h.place && b > 0
    ensures Word(h.mem, b) == MAGIC && Word(h.mem, b + 8) == h.carved[b]
  {
    hide Arenas, Lists, Links;
    assert BlockOk(b, h.carved[b]);
  }

  // ---- carving ----

  /** What mmap promises: a page-aligned range of user space that nothing of ours is in. */
  ghost predicate Unused(h: Heap, chunk: nat, length: nat) {
    && 0 < chunk && chunk % 4096 == 0 && chunk + length <= LIMIT
    && (forall b :: b in h.carved ==> Apart(b, BytesOf(h.carved[b]), chunk, length))
    && (forall t :: t in h.pools && h.pools[t].left > 0 ==> Apart(h.pools[t].arena, h.pools[t].left, chunk, length))
  }

  lemma RefillInv(h: Heap, t: nat, chunk: nat, length: nat)
    requires Inv(h) && Unused(h, chunk, length)
    ensures Inv(Refill(h, t, chunk, length))
  {
    var h' := Refill(h, t, chunk, length);
    RefillArenas(h, t, chunk, length);
    assert forall u: nat, d: nat :: ListOf(h', u, d) == ListOf(h, u, d);
    PoolsOk(h);
    assert forall u: nat :: PoolOf(h', u).heads == PoolOf(h, u).heads;
    hide Arenas, ListOf, PoolOf, Linked, Distinct, BytesOf, Word, BlockOk, Apart;
    RefillLists(h, h');
  }

  lemma RefillArenas(h: Heap, t: nat, chunk: nat, length: nat)
    requires Arenas(h) && PoolOk(PoolOf(h, t)) && Unused(h, chunk, length)
    ensures Arenas(Refill(h, t, chunk, length))
  {
    PageIsAligned(chunk);
    hide BytesOf;
    var h' := Refill(h, t, chunk, length);
    assert forall u :: u in h'.pools && u != t ==> u in h.pools && h'.pools[u] == h.pools[u];
    assert forall a: nat, m: nat, b: nat, n: nat :: Apart(a, m, b, n) <==> Apart(b, n, a, m);
    hide Apart;
  }

  lemma PageIsAligned(chunk: nat)
    requires chunk % 4096 == 0
    ensures chunk % 16 == 0
  {
    assert chunk == 16 * (256 * (chunk / 4096));
  }

  /** Nothing but the arenas changed. */
  lemma RefillLists(h: Heap, h': Heap)
    requires Places(h) && Lists(h) && Links(h) && Headers(h) && Blocks(h)
    requires h'.mem == h.mem && h'.carved == h.carved && h'.live == h.live && h'.place == h.place
    requires forall u: nat, d: nat :: ListOf(h', u, d) == ListOf(h, u, d)
    requires forall u: nat :: PoolOf(h', u).heads == PoolOf(h, u).heads
    ensures Places(h') && Lists(h') && Links(h') && Headers(h') && Blocks(h')
  {
    hide ListOf, PoolOf, Linked, Distinct, BytesOf, Word, BlockOk, Apart;
    forall u: nat, d: nat
      ensures ListPlaced(h', u, d) && Distinct(ListOf(h', u, d))
    {
      assert ListPlaced(h, u, d) && Distinct(ListOf(h, u, d));
    }
  }

  ghost predicate CanCarve(h: Heap, t: nat, c: nat) {
    Inv(h) && c < CLASSES && t in h.pools && BytesOf(c) <= h.pools[t].left
  }

  /** The front of an arena is no block yet, and has room for one. */
  lemma FrontIsNew(h: Heap, t: nat, c: nat)
    requires CanCarve(h, t, c)
    ensures var b := h.pools[t].arena;
      && b !in h.carved && BlockOk(b, c) && 0 < b
      && forall a :: a in h.carved ==> Apart(a, BytesOf(h.carved[a]), b, BytesOf(c))
  {
    hide Places, Lists, Links, Headers;
    var b := h.pools[t].arena;
    assert BytesOf(c) > 0;
    hide BytesOf;
    if b in h.carved {
      BytesPositive(h.carved[b]);
    }
  }

  lemma BytesPositive(c: nat)
    ensures BytesOf(c) >= SMALLEST && BytesOf(c) % 16 == 0
  {
  }

  lemma CarveBlocks(h: Heap, h': Heap, b: nat, c: nat)
    requires Blocks(h) && BlockOk(b, c) && b !in h.carved && h'.carved == h.carved[b := c]
    requires forall a :: a in h.carved ==> Apart(a, BytesOf(h.carved[a]), b, BytesOf(c))
    ensures Blocks(h')
  {
    hide BytesOf;
  }

  /** The rest of an arena is apart from what the whole was apart from, and from the block taken. */
  lemma CarveArenas(h: Heap, h': Heap, t: nat, c: nat, n: nat)
    requires Arenas(h) && t in h.pools && 0 < n == BytesOf(c) <= h.pools[t].left && n % 16 == 0
    requires h.pools[t].arena !in h.carved && h'.carved == h.carved[h.pools[t].arena := c]
    requires h'.pools == h.pools[t := h.pools[t].(arena := h.pools[t].arena + n, left := h.pools[t].left - n)]
    ensures Arenas(h')
  {
    hide BytesOf;
    var b := h.pools[t].arena;
    assert PoolOk(h'.pools[t]);
    forall u, a | u in h'.pools && a in h'.carved && h'.pools[u].left > 0
      ensures Apart(a, BytesOf(h'.carved[a]), h'.pools[u].arena, h'.pools[u].left)
    {
      if a != b {
        assert Apart(a, BytesOf(h.carved[a]), h.pools[u].arena, h.pools[u].left);
      } else if u != t {
        assert Apart(h.pools[t].arena, h.pools[t].left, h.pools[u].arena, h.pools[u].left);
      }
    }
  }

  lemma CarvePlaces(h: Heap, h': Heap, b: nat, c: nat)
    requires Places(h) && b !in h.carved && h'.carved == h.carved[b := c]
    requires h'.live.Keys == h.live.Keys + {b} && h'.place == h.place
    requires forall u: nat, d: nat :: ListOf(h', u, d) == ListOf(h, u, d)
    ensures Places(h')
  {
    hide ListOf;
  }

  /** A list's links survive writes to a block that is on no list. */
  lemma CarveLinks(h: Heap, h': Heap)
    requires Links(h) && Lists(h) && Places(h) && h'.place == h.place
    requires forall a :: a in h.carved ==> Word(h'.mem, a) == Word(h.mem, a)
    requires forall u: nat, d: nat :: ListOf(h', u, d) == ListOf(h, u, d)
    requires forall u: nat :: PoolOf(h', u).heads == PoolOf(h, u).heads
    ensures Links(h') && Lists(h')
  {
    hide ListOf, Word, Distinct;
    forall u: nat, d: nat
      ensures ListPlaced(h', u, d) && Distinct(ListOf(h', u, d))
      ensures d < CLASSES ==> Linked(h'.mem, Head(PoolOf(h', u), d), ListOf(h', u, d))
    {
      var l := ListOf(h, u, d);
      assert ListPlaced(h, u, d) && Distinct(l);
      if d < CLASSES {
        assert Linked(h.mem, Head(PoolOf(h, u), d), l);
        forall i | 0 <= i < |l|
          ensures Word(h'.mem, l[i]) == Word(h.mem, l[i])
        {
          assert l[i] in l;
        }
        LinkedFrame(h.mem, h'.mem, Head(PoolOf(h, u), d), l);
      }
    }
  }

  lemma CarveShape(h: Heap, t: nat, c: nat, size: nat)
    requires t in h.pools
    ensures var h' := Carve(h, t, c, size);
      && (forall u: nat, d: nat :: ListOf(h', u, d) == ListOf(h, u, d))
      && (forall u: nat :: PoolOf(h', u).heads == PoolOf(h, u).heads)
  {
  }

  /** The words of a new block are no other block's header. */
  lemma NewStampFrame(h: Heap, b: nat, c: nat)
    requires Blocks(h) && b !in h.carved
    requires forall a :: a in h.carved ==> Apart(a, BytesOf(h.carved[a]), b, BytesOf(c))
    ensures SameWords(h, Stamp(h.mem, b, c), b)
    ensures Word(Stamp(h.mem, b, c), b) == MAGIC && Word(Stamp(h.mem, b, c), b + 8) == c
  {
    forall a | a in h.carved && a != b
      ensures Word(Stamp(h.mem, b, c), a) == Word(h.mem, a) && Word(Stamp(h.mem, b, c), a + 8) == Word(h.mem, a + 8)
    {
      BytesPositive(c);
      BytesPositive(h.carved[a]);
    }
  }

  /** The heap a new block is carved from: with a new chunk, if the thread's arena is too short. */
  function Refilled(h: Heap, t: nat, cls: nat, chunk: Option<nat>): Heap {
    if PoolOf(h, t).left < BytesOf(cls) && chunk.Some? then Refill(h, t, chunk.value, ARENA_CHUNK) else h
  }

  lemma RefilledFacts(h: Heap, t: nat, c: nat, chunk: Option<nat>)
    requires Inv(h) && c < CLASSES && (PoolOf(h, t).left < BytesOf(c) ==> chunk.Some?)
    requires chunk.Some? ==> Unused(h, chunk.value, ARENA_CHUNK)
    ensures var h1 := Refilled(h, t, c, chunk);
      Inv(h1) && CanCarve(h1, t, c) && PoolOf(h1, t) == h1.pools[t] && h1.carved == h.carved && h1.live == h.live
  {
    SmallEnough(c);
    hide Inv, BytesOf, Unused;
    if PoolOf(h, t).left < BytesOf(c) {
      RefillInv(h, t, chunk.value, ARENA_CHUNK);
    }
    PoolHas(Refilled(h, t, c, chunk), t, c);
  }

  /** What carving a block for a request gives. */
  lemma CarveFacts(h: Heap, t: nat, c: nat, size: nat, chunk: Option<nat>)
    requires Inv(h) && c < CLASSES && (PoolOf(h, t).left < BytesOf(c) ==> chunk.Some?)
    requires chunk.Some? ==> Unused(h, chunk.value, ARENA_CHUNK)
    requires size + HEADER <= BytesOf(c)
    ensures var h1 := Refilled(h, t, c, chunk);
      var b := PoolOf(h1, t).arena;
      && Inv(Carve(h1, t, c, size)) && b > 0 && b % 16 == 0 && b !in h.carved && b !in h.live
      && |h.carved[b := c]| == |h.carved| + 1
  {
    hide Inv, BytesOf, Unused, Refilled, PoolOf, Carve, CanCarve;
    RefilledFacts(h, t, c, chunk);
    var h1 := Refilled(h, t, c, chunk);
    var b := PoolOf(h1, t).arena;
    CarveInv(h1, t, c, size);
    FrontIsNew(h1, t, c);
    LiveWithin(h1);
    assert h.carved[b := c].Keys == h.carved.Keys + {b};
  }

  predicate CarvedFrom(p: Pool, pools: map<nat, Pool>, pools': map<nat, Pool>, t: nat, want: nat, chunk: Option<nat>,
      block: nat)
  {
    if p.left >= want then
      block == p.arena && pools' == pools[t := p.(arena := p.arena + want, left := p.left - want)]
    else if chunk == None then block == 0 && pools' == pools
    else if ARENA_CHUNK < want then false
    else
      && block == chunk.value
      && pools' == pools[t := p.(arena := chunk.value + want, left := ARENA_CHUNK - want)]
  }

  /** The arena's front, a new chunk's where one was needed, is what `Carve` takes. */
  lemma CarvedShape(h: Heap, t: nat, c: nat, size: nat, chunk: Option<nat>, pools': map<nat, Pool>, block: nat)
    requires CarvedFrom(PoolOf(h, t), h.pools, pools', t, BytesOf(c), chunk, block)
    requires PoolOf(h, t).left < BytesOf(c) ==> chunk.Some?
    ensures var h1 := Refilled(h, t, c, chunk);
      && block == PoolOf(h1, t).arena
      && Carve(h1, t, c, size) == Heap(Stamp(h.mem, block, c), pools', h.carved[block := c], h.live[block := size],
                                       h.lists, h.place)
  {
    hide BytesOf, Stamp;
    var h1 := Refilled(h, t, c, chunk);
    assert h1.pools[t := PoolOf(h1, t)] ==
      if PoolOf(h, t).left < BytesOf(c) then h1.pools else h.pools[t := PoolOf(h, t)];
    assert Carve(h1, t, c, size).pools == pools';
  }

  lemma CarveInv(h: Heap, t: nat, c: nat, size: nat)
    requires CanCarve(h, t, c) && size + HEADER <= BytesOf(c)
    ensures Inv(Carve(h, t, c, size)) && h.pools[t].arena !in h.carved
  {
    hide Blocks, Arenas, Places, Lists, Links, Headers, ListOf, PoolOf, Word, Head, Stamp, Linked;
    hide BytesOf, Distinct, ListPlaced, BlockOk, Apart;
    FrontIsNew(h, t, c);
    var b := h.pools[t].arena;
    var h' := Carve(h, t, c, size);
    assert PoolOf(h, t) == h.pools[t] by { PoolIs(h, t); }
    NewStampFrame(h, b, c);
    CarveShape(h, t, c, size);
    CarveBlocks(h, h', b, c);
    BytesPositive(c);
    CarveArenas(h, h', t, c, BytesOf(c));
    CarvePlaces(h, h', b, c);
    CarveLinks(h, h');
    HeadersWith(h, h', b, c, size);
  }

  lemma PoolIs(h: Heap, t: nat)
    requires t in h.pools
    ensures PoolOf(h, t) == h.pools[t]
  {
  }

  // ---- writes by others ----

  lemma SameHeaders(h: Heap, h': Heap)
    requires Headers(h) && h'.live == h.live && h'.carved == h.carved
    requires forall b :: b in h.carved ==>
      Word(h'.mem, b) == Word(h.mem, b) && Word(h'.mem, b + 8) == Word(h.mem, b + 8)
    ensures Headers(h')
  {
    hide Word, BytesOf;
  }

  lemma SameShape(h: Heap, mem: map<nat, nat>)
    requires Blocks(h) && Arenas(h) && Places(h)
    ensures var h' := h.(mem := mem);
      && Blocks(h') && Arenas(h') && Places(h')
      && (forall u: nat, d: nat :: ListOf(h', u, d) == ListOf(h, u, d))
      && (forall u: nat :: PoolOf(h', u) == PoolOf(h, u))
  {
    hide BytesOf, Apart, BlockOk, PoolOk;
  }

  /** A write that changes no header and no link leaves the invariant. */
  lemma WriteInv(h: Heap, a: nat, word: nat)
    requires Inv(h) && a % 8 == 0 && forall b :: b in h.carved ==> a != b && a != b + 8
    ensures Inv(h.(mem := h.mem[a := word]))
  {
    hide Blocks, Arenas, Places, Lists, Links, Headers, ListOf, PoolOf;
    var h' := h.(mem := h.mem[a := word]);
    assert forall b :: b in h.carved ==> Word(h'.mem, b) == Word(h.mem, b) && Word(h'.mem, b + 8) == Word(h.mem, b + 8);
    SameShape(h, h'.mem);
    SameHeaders(h, h');
    CarveLinks(h, h');
  }

  lemma AlignedSum(b: nat, offset: nat)
    requires b % 16 == 0 && offset % 8 == 0
    ensures (b + HEADER + offset) % 8 == 0
  {
    var q, r := b / 16, offset / 8;
    assert b == 16 * q && offset == 8 * r;
    EightTimes(2 * q + 2 + r);
  }

  lemma EightTimes(k: nat)
    ensures 8 * k % 8 == 0
  {
  }

  /** The owner of a block writes past its header and within what it asked for. */
  lemma PayloadIsNoHeader(h: Heap, b: nat, offset: nat)
    requires Inv(h) && b in h.live && offset % 8 == 0 && offset + 8 <= h.live[b]
    ensures (b + HEADER + offset) % 8 == 0
    ensures forall a :: a in h.carved ==> b + HEADER + offset != a && b + HEADER + offset != a + 8
  {
    hide Arenas, Lists, Links, Places;
    assert BlockOk(b, h.carved[b]);
    AlignedSum(b, offset);
    forall a | a in h.carved
      ensures b + HEADER + offset != a && b + HEADER + offset != a + 8
    {
      BytesPositive(h.carved[a]);
      if a != b {
        assert Apart(a, BytesOf(h.carved[a]), b, BytesOf(h.carved[b]));
      }
    }
  }

  function EmptyHeap(): Heap {
    Heap(map[], map[], map[], map[], map[], map[])
  }

  lemma EmptyInv()
    ensures Inv(EmptyHeap())
  {
    var h := EmptyHeap();
    forall t: nat, c: nat
      ensures ListPlaced(h, t, c) && Distinct(ListOf(h, t, c))
    {
      assert ListOf(h, t, c) == [];
    }
    forall t: nat, c: nat | c < CLASSES
      ensures |PoolOf(h, t).heads| == CLASSES && Linked(h.mem, Head(PoolOf(h, t), c), ListOf(h, t, c))
    {
      assert ListOf(h, t, c) == [] && Head(NoPool(), c) == 0;
    }
  }

  // ---- the hooks ----

  /** The block that an allocation gives; none if it is passed on. */
  function Given(h: Heap, t: nat, size: nat, chunk: Option<nat>): Option<nat> {
    var c := ClassOf(size);
    if c == CLASSES then None
    else if ListOf(h, t, c) != [] then Some(ListOf(h, t, c)[0])
    else if PoolOf(h, t).left < BytesOf(c) && chunk == None then None
    else Some(PoolOf(Refilled(h, t, c, chunk), t).arena)
  }

  predicate Recycles(h: Heap, t: nat, size: nat) {
    ClassOf(size) != CLASSES && ListOf(h, t, ClassOf(size)) != []
  }

  /** No block of the class is free on the thread's list, its arena is too short, and there is a new chunk. */
  predicate Refills(h: Heap, t: nat, size: nat, chunk: Option<nat>) {
    && ClassOf(size) != CLASSES && ListOf(h, t, ClassOf(size)) == []
    && PoolOf(h, t).left < BytesOf(ClassOf(size)) && chunk.Some?
  }

  /** The heap after an allocation: a free block reused, a new one carved, or nothing changed. */
  function Allocated(h: Heap, t: nat, size: nat, chunk: Option<nat>): Heap {
    if Given(h, t, size, chunk) == None then h
    else if Recycles(h, t, size) then Pop(h, t, ClassOf(size), size)
    else Carve(Refilled(h, t, ClassOf(size), chunk), t, ClassOf(size), size)
  }

  class Allocator {
    var mem: map<nat, nat>
    var pools: map<nat, Pool>
    var served: nat
    var recycled: nat
    var arenaBytes: nat
    var passthrough: nat
    ghost var carved: map<nat, nat>
    ghost var live: map<nat, nat>
    ghost var lists: map<(nat, nat), seq<nat>>
    ghost var place: map<nat, (nat, nat)>

    ghost function View(): Heap
      reads this
    {
      Heap(mem, pools, carved, live, lists, place)
    }

    /** The invariant of the heap; and every block carved was served once without being recycled. */
    ghost predicate Valid()
      reads this
    {
      Inv(View()) && served == recycled + |carved|
    }

    constructor ()
      ensures Valid() && live == map[] && carved == map[]
    {
      mem, pools, served, recycled, arenaBytes, passthrough := map[], map[], 0, 0, 0, 0;
      carved, live, lists, place := map[], map[], map[], map[];
      new;
      EmptyInv();
      hide Inv;
    }

    /** The front of the thread's arena, refilled if it is too short; zero if mmap fails. */
    method CarveFor(t: nat, want: nat, chunk: Option<nat>) returns (block: nat)
      requires want <= ARENA_CHUNK
      modifies this`pools, this`arenaBytes
      ensures CarvedFrom(PoolOf(old(View()), t), old(pools), pools, t, want, chunk, block)
      ensures arenaBytes ==
        old(arenaBytes) + (if PoolOf(old(View()), t).left < want && chunk.Some? then 0x40_0000 else 0)
    {
      var pool := if t in pools then pools[t] else NoPool();
      if pool.left < want {
        if chunk == None {
          return 0;
        }
        pool := pool.(arena := chunk.value, left := ARENA_CHUNK);
        arenaBytes := arenaBytes + ARENA_CHUNK;
      }
      block := pool.arena;
      pools := pools[t := pool.(arena := pool.arena + want, left := pool.left - want)];
    }

    /** Writes the header of a block that is about to be handed out. */
    method Serve(block: nat, cls: nat, size: nat)
      modifies this`mem, this`live, this`served
      ensures mem == Stamp(old(mem), block, cls) && live == old(live)[block := size] && served == old(served) + 1
    {
      mem := mem[block := MAGIC];
      mem := mem[block + 8 := cls];
      live := live[block := size];
      served := served + 1;
    }

    /** Takes the first free block of the class. */
    method Recycle(t: nat, cls: nat, size: nat) returns (block: nat)
      requires Valid() && cls < CLASSES && ListOf(View(), t, cls) != [] && size + HEADER <= BytesOf(cls)
      modifies this`mem, this`pools, this`live, this`lists, this`place, this`served, this`recycled
      ensures Valid() && View() == Pop(old(View()), t, cls, size) && block == ListOf(old(View()), t, cls)[0]
      ensures block % 16 == 0 && block !in old(live) && served == old(served) + 1 && recycled == old(recycled) + 1
    {
      hide Inv, BytesOf, ListOf, Linked, Stamp, NoPool, Word, Tail;
      ghost var h := View();
      HeadTells(h, t, cls);
      PopInv(h, t, cls, size);
      FirstBlock(h, t, cls);
      var pool := if t in pools then pools[t] else NoPool();
      block := pool.heads[cls];
      lists := lists[(t, cls) := Tail(ListOf(h, t, cls))];
      place := place - {block};
      pools := pools[t := pool.(heads := pool.heads[cls := Word(mem, block)])];
      recycled := recycled + 1;
      Serve(block, cls, size);
    }

    /** Carves a new block of the class; zero, and nothing changed, if there is no room and no chunk. */
    method Fresh(t: nat, cls: nat, size: nat, chunk: Option<nat>) returns (block: nat)
      requires Valid() && cls < CLASSES && size + HEADER <= BytesOf(cls)
      requires chunk.Some? ==> Unused(View(), chunk.value, ARENA_CHUNK)
      modifies this`mem, this`pools, this`carved, this`live, this`served, this`arenaBytes
      ensures Valid()
      ensures block == 0 <==> PoolOf(old(View()), t).left < BytesOf(cls) && chunk == None
      ensures block == 0 ==> View() == old(View()) && served == old(served)
      ensures arenaBytes ==
        old(arenaBytes) + (if PoolOf(old(View()), t).left < BytesOf(cls) && chunk.Some? then 0x40_0000 else 0)
      ensures var h := old(View());
        block != 0 ==>
          && View() == Carve(Refilled(h, t, cls, chunk), t, cls, size)
          && block == PoolOf(Refilled(h, t, cls, chunk), t).arena
          && block % 16 == 0 && block !in h.carved && block !in h.live && served == old(served) + 1
    {
      hide Inv, BytesOf, ListOf, Linked, Unused, Carve, Refilled, Stamp, NoPool;
      ghost var h := View();
      SmallEnough(cls);
      var short := (if t in pools then pools[t] else NoPool()).left < BytesOf(cls);
      block := CarveFor(t, BytesOf(cls), chunk);
      if short && chunk == None {
        return 0;
      }
      CarveFacts(h, t, cls, size, chunk);
      CarvedShape(h, t, cls, size, chunk, pools, block);
      carved := carved[block := cls];
      Serve(block, cls, size);
    }

    /**
     Serves a request from thread `t`. `chunk` is what mmap would give and
     `foreign` what the real allocator would.
    */
    method AllocHook(t: nat, size: nat, chunk: Option<nat>, foreign: nat) returns (ptr: nat)
      requires Valid() && size + HEADER < TWO_64
      requires chunk.Some? ==> Unused(View(), chunk.value, ARENA_CHUNK)
      modifies this
      ensures Valid()
      ensures View() == Allocated(old(View()), t, size, chunk)
      ensures var given := Given(old(View()), t, size, chunk);
        && ptr == (if given.Some? then given.value + 16 else foreign)
        && served == old(served) + (if given.Some? then 1 else 0)
        && (given.Some? ==> ptr % 16 == 0 && given.value !in old(live) && live == old(live)[given.value := size])
      ensures recycled == old(recycled) + (if Recycles(old(View()), t, size) then 1 else 0)
      ensures passthrough == old(passthrough) + (if size + 16 > 0x2_0000 then 1 else 0)
      ensures arenaBytes == old(arenaBytes) + (if Refills(old(View()), t, size, chunk) then 0x40_0000 else 0)
    {
      hide Inv, BytesOf, ListOf, Linked;
      var cls := FindClass(size);
      PassedOn(size);
      if cls >= CLASSES {
        passthrough := passthrough + 1;
        return foreign;
      }
      ClassHoldsIff(size);
      HeadTells(View(), t, cls);
      var pool := if t in pools then pools[t] else NoPool();
      var block := 0;
      if pool.heads[cls] != 0 {
        block := Recycle(t, cls, size);
        FirstOfList(old(View()), t, cls);
      } else {
        block := Fresh(t, cls, size, chunk);
        if block == 0 {
          return foreign;
        }
        FirstOfArena(Refilled(old(View()), t, cls, chunk), t, cls, size);
      }
      return block + HEADER;
    }

    /**
     Frees on thread `t`. What is not in use as a block of ours, a block freed
     twice among it, is passed to the real allocator.
    */
    method FreeHook(t: nat, ptr: nat) returns (passed: bool)
      requires Valid() && ptr % 8 == 0 && (ptr == 0 || ptr >= HEADER)
      requires ptr != 0 && ptr - HEADER !in carved ==> Word(mem, ptr - HEADER) != MAGIC
      modifies this`mem, this`pools, this`live, this`lists, this`place
      ensures Valid()
      ensures passed == (ptr != 0 && ptr - 16 !in old(live))
      ensures View() == if ptr == 0 || passed then old(View()) else Push(old(View()), t, ptr - 16)
    {
      hide Inv, BytesOf, Linked, Distinct;
      if ptr == 0 {
        return false;
      }
      ghost var h := View();
      var block := ptr - HEADER;
      if block in carved && block !in live {
        FreeHasNoMagic(h, block);
      }
      if Word(mem, block) != MAGIC {
        assert block !in live by {
          if block in live {
            LiveIsCarved(h, block);
          }
        }
        return true;
      }
      assert block in live by { MagicIsLive(h, block); }
      LiveIsCarved(h, block);
      var cls := Word(mem, block + 8);
      if cls >= CLASSES {
        assert false;
      }
      PushInv(h, t, block);
      HeadTells(h, t, cls);
      mem := mem[block := 0];
      var pool := if t in pools then pools[t] else NoPool();
      mem := mem[block := pool.heads[cls]];
      pools := pools[t := pool.(heads := pool.heads[cls := block])];
      live := live - {block};
      lists := lists[(t, cls) := [block] + ListOf(h, t, cls)];
      place := place[block := (t, cls)];
      TwiceWritten(h.mem, block, 0, pool.heads[cls]);
      return false;
    }

    /** The engine writes a word within the payload it asked for. */
    method StorePayload(block: nat, offset: nat, word: nat)
      requires Valid() && block in live && offset % 8 == 0 && offset + 8 <= live[block]
      modifies this`mem
      ensures Valid() && View() == old(View()).(mem := old(mem)[block + HEADER + offset := word])
    {
      hide Inv;
      PayloadIsNoHeader(View(), block, offset);
      WriteInv(View(), block + HEADER + offset, word);
      mem := mem[block + HEADER + offset := word];
    }

    /** Anyone writes a word outside every header of ours. */
    method StoreElsewhere(a: nat, word: nat)
      requires Valid() && a % 8 == 0 && forall b :: b in carved ==> a != b && a != b + 8
      modifies this`mem
      ensures Valid() && View() == old(View()).(mem := old(mem)[a := word])
    {
      hide Inv;
      WriteInv(View(), a, word);
      mem := mem[a := word];
    }
  }

  lemma TwiceWritten(mem: map<nat, nat>, a: nat, first: nat, second: nat)
    ensures mem[a := first][a := second] == mem[a := second]
  {
  }

  lemma MagicIsLive(h: Heap, b: nat)
    requires Inv(h) && b in h.carved && Word(h.mem, b) == MAGIC
    ensures b in h.live
  {
    hide Inv;
    if b !in h.live {
      FreeHasNoMagic(h, b);
    }
  }

  lemma SmallEnough(c: nat)
    requires c < CLASSES
    ensures BytesOf(c) <= ARENA_CHUNK
  {
    LargestClass();
    Pow2Mono(c, CLASSES - 1);
  }

  /** A list's head is null exactly when the list is empty. */
  lemma HeadTells(h: Heap, t: nat, c: nat)
    requires Inv(h) && c < CLASSES
    ensures |PoolOf(h, t).heads| == CLASSES
    ensures PoolOf(h, t).heads[c] == 0 <==> ListOf(h, t, c) == []
  {
    PoolsOk(h);
    hide Blocks, Arenas, Places, Lists, Headers, PoolOf, ListOf;
    assert Linked(h.mem, Head(PoolOf(h, t), c), ListOf(h, t, c));
  }

  lemma FirstBlock(h: Heap, t: nat, c: nat)
    requires CanPop(h, t, c)
    ensures var b := Head(PoolOf(h, t), c);
      b == ListOf(h, t, c)[0] && b > 0 && b % 16 == 0 && b in h.carved && b !in h.live
  {
    hide Arenas, Places, Lists, Links, Headers, ListOf, PoolOf, Head;
    HeadIsFirst(h, t, c);
    assert BlockOk(ListOf(h, t, c)[0], c);
  }

  lemma PoolHas(h: Heap, t: nat, c: nat)
    requires Inv(h) && c < CLASSES && PoolOf(h, t).left >= BytesOf(c)
    ensures CanCarve(h, t, c) && PoolOf(h, t) == h.pools[t]
  {
    BytesPositive(c);
    hide Inv, BytesOf;
  }

  lemma LiveWithin(h: Heap)
    requires Inv(h)
    ensures h.live.Keys <= h.carved.Keys
  {
    hide Blocks, Arenas, Lists, Links, Headers;
  }

  lemma FirstOfList(h: Heap, t: nat, c: nat)
    requires CanPop(h, t, c)
    ensures Head(PoolOf(h, t), c) == ListOf(h, t, c)[0]
  {
    hide Inv;
    FirstBlock(h, t, c);
  }

  lemma FirstOfArena(h: Heap, t: nat, c: nat, size: nat)
    ensures Carve(h, t, c, size).live == h.live[PoolOf(h, t).arena := size]
  {
  }
}
