/** What allocations and frees give, step by step, told by sizes and places (src/fast_alloc.cpp). */
module AllocLaws {
  import opened BitStrings
  import opened FastAlloc
  import opened Wrappers

  /** A block is the first of 16 bytes times a power of two that holds the request and its 16 bytes of header. */
  lemma ClassLaw(size: nat)
    requires size + 16 < 0x1_0000_0000_0000_0000
    ensures var c := ClassOf(size);
      if size > 131056 then c == 14
      else c < 14 && size + 16 <= 16 * Pow2(c) && (c > 0 ==> size + 16 > 16 * Pow2(c - 1))
  {
    hide Pow2;
    PassedOn(size);
  }

  predicate OtherWords(mem: map<nat, nat>, mem': map<nat, nat>, b: nat) {
    forall a :: a in mem.Keys + mem'.Keys && a != b && a != b + 8 ==> Word(mem', a) == Word(mem, a)
  }

  lemma StampLaw(mem: map<nat, nat>, b: nat, c: nat)
    ensures var mem' := Stamp(mem, b, c);
      Word(mem', b) == 0x4247_3354_454D_5031 && Word(mem', b + 8) == c && OtherWords(mem, mem', b)
  {
  }

  lemma StampedIs(h: Heap, t: nat, size: nat, chunk: Option<nat>)
    requires Inv(h) && Given(h, t, size, chunk).Some?
    ensures Allocated(h, t, size, chunk).mem == Stamp(h.mem, Given(h, t, size, chunk).value, ClassOf(size))
  {
    assert ClassOf(size) <= CLASSES;
    hide Inv, BytesOf, ListOf, ClassOf, Stamp, Word, Head, Carve, Pop, Refilled, PoolOf;
    HeadOf(h, t, ClassOf(size));
    PopStamps(h, t, ClassOf(size), size);
    CarveStamps(h, t, ClassOf(size), size, chunk);
  }

  lemma PopStamps(h: Heap, t: nat, c: nat, size: nat)
    ensures Pop(h, t, c, size).mem == Stamp(h.mem, Head(PoolOf(h, t), c), c)
  {
    hide Stamp;
  }

  lemma CarveStamps(h: Heap, t: nat, c: nat, size: nat, chunk: Option<nat>)
    ensures var h1 := Refilled(h, t, c, chunk);
      Carve(h1, t, c, size).mem == Stamp(h.mem, PoolOf(h1, t).arena, c)
  {
    hide Stamp, BytesOf;
  }

  /** The header of a block that is given: "BG3TEMP1" and the class; no other word is written. */
  lemma HeaderLaw(h: Heap, t: nat, size: nat, chunk: Option<nat>)
    requires Inv(h) && Given(h, t, size, chunk).Some?
    ensures var b, mem' := Given(h, t, size, chunk).value, Allocated(h, t, size, chunk).mem;
      Word(mem', b) == 0x4247_3354_454D_5031 && Word(mem', b + 8) == ClassOf(size) && OtherWords(h.mem, mem', b)
  {
    hide Inv, Given, Allocated, ClassOf, Stamp, Word, OtherWords;
    StampedIs(h, t, size, chunk);
    StampLaw(h.mem, Given(h, t, size, chunk).value, ClassOf(size));
  }

  lemma HeadOf(h: Heap, t: nat, c: nat)
    requires Inv(h)
    ensures c < CLASSES && ListOf(h, t, c) != [] ==> Head(PoolOf(h, t), c) == ListOf(h, t, c)[0]
  {
    hide Blocks, Arenas, Places, Lists, Headers, PoolOf, ListOf;
    if c < CLASSES && ListOf(h, t, c) != [] {
      assert Linked(h.mem, Head(PoolOf(h, t), c), ListOf(h, t, c));
    }
  }

  /** A thread that frees a block is given it at its next request of that class; no other list changes. */
  lemma FreedIsNext(h: Heap, t: nat, b: nat, size: nat, chunk: Option<nat>, u: nat, c: nat)
    requires Inv(h) && b in h.live && b in h.carved && ClassOf(size) == h.carved[b] < 14
    ensures Given(Push(h, t, b), t, size, chunk) == Some(b)
    ensures (u, c) != (t, h.carved[b]) ==> ListOf(Push(h, t, b), u, c) == ListOf(h, u, c)
    ensures ListOf(Push(h, t, b), t, h.carved[b])[1..] == ListOf(h, t, h.carved[b])
  {
    hide Inv, BytesOf, ClassOf;
  }

  /** A free block is given before any new one, the last that was freed first. */
  lemma ReusedFirst(h: Heap, t: nat, size: nat, chunk: Option<nat>, u: nat, c: nat)
    requires Inv(h) && ClassOf(size) < 14 && ListOf(h, t, ClassOf(size)) != []
    ensures Given(h, t, size, chunk) == Some(ListOf(h, t, ClassOf(size))[0])
    ensures var h' := Allocated(h, t, size, chunk);
      && h'.carved == h.carved && ListOf(h', t, ClassOf(size)) == ListOf(h, t, ClassOf(size))[1..]
      && ((u, c) != (t, ClassOf(size)) ==> ListOf(h', u, c) == ListOf(h, u, c))
      && PoolOf(h', u).left == PoolOf(h, u).left && PoolOf(h', u).arena == PoolOf(h, u).arena
  {
    hide Inv, BytesOf, ClassOf, Word;
  }

  /**
   With no block free, one is carved off the front of the thread's arena, which
   is replaced by a chunk of 4 MB if it is shorter than the block, and only then.
  */
  lemma CarvedLaw(h: Heap, t: nat, size: nat, chunk: Option<nat>)
    requires Inv(h) && ClassOf(size) < 14 && ListOf(h, t, ClassOf(size)) == []
    ensures var n, p := 16 * Pow2(ClassOf(size)), PoolOf(h, t);
      var h', p' := Allocated(h, t, size, chunk), PoolOf(Allocated(h, t, size, chunk), t);
      && (n <= p.left ==>
            Given(h, t, size, chunk) == Some(p.arena) && p'.arena == p.arena + n && p'.left == p.left - n)
      && (n > p.left && chunk == None ==> Given(h, t, size, chunk) == None && h' == h)
      && (n > p.left && chunk.Some? ==>
            && Given(h, t, size, chunk) == Some(chunk.value) && p'.arena == chunk.value + n
            && p'.left == 0x40_0000 - n)
  {
    SmallEnough(ClassOf(size));
    hide Inv, ClassOf, ListOf, Word, Pow2;
  }
}
