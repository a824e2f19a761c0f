/**
 Whole runs of the allocator of src/fast_alloc.cpp: any threads allocating and
 freeing in any order, and anyone writing outside the headers. What is in use
 stays apart and is written by nobody else, and every block carved is in use or
 on one list.
*/
module AllocRuns {
  import opened FastAlloc
  import opened Sequences
  import opened Wrappers

  /** The heap and the two counts that matter. */
  datatype State = State(heap: Heap, served: nat, recycled: nat)

  /**
   What happens: thread `t` allocates, with what mmap would give it; thread `t`
   frees a block in use, whoever allocated it; somebody writes a word.
  */
  datatype Event = Malloc(t: nat, size: nat, chunk: Option<nat>) | Free(t: nat, block: nat) | Store(at: nat, word: nat)

  function Init(): State {
    State(EmptyHeap(), 0, 0)
  }

  /** Sizes that do not wrap, chunks that are new, blocks in use, and whole words outside the headers. */
  ghost predicate Allowed(s: State, e: Event) {
    match e
    case Malloc(_, size, chunk) => size + HEADER < TWO_64 && (chunk.Some? ==> Unused(s.heap, chunk.value, ARENA_CHUNK))
    case Free(_, block) => block in s.heap.live
    case Store(at, _) => at % 8 == 0 && forall b :: b in s.heap.carved ==> at != b && at != b + 8
  }

  function Do(s: State, e: Event): State {
    match e
    case Malloc(t, size, chunk) =>
      State(Allocated(s.heap, t, size, chunk),
            s.served + (if Given(s.heap, t, size, chunk).Some? then 1 else 0),
            s.recycled + (if Recycles(s.heap, t, size) then 1 else 0))
    case Free(t, block) => s.(heap := Push(s.heap, t, block))
    case Store(at, word) => s.(heap := s.heap.(mem := s.heap.mem[at := word]))
  }

  ghost predicate Good(s: State) {
    Inv(s.heap) && s.served == s.recycled + |s.heap.carved|
  }

  lemma InitGood()
    ensures Good(Init())
  {
    EmptyInv();
    hide Inv;
  }

  /** A request that is served is held by its class, and its block is what `Given` says. */
  lemma Held(size: nat)
    requires size + HEADER < TWO_64
    ensures ClassOf(size) <= CLASSES && (ClassOf(size) < CLASSES ==> size + HEADER <= BytesOf(ClassOf(size)))
  {
    ClassHoldsIff(size);
  }

  lemma PopIs(h: Heap, t: nat, c: nat, size: nat)
    requires CanPop(h, t, c) && size + HEADER <= BytesOf(c)
    ensures var b := ListOf(h, t, c)[0];
      && Inv(Pop(h, t, c, size)) && b in h.carved && b !in h.live
      && Pop(h, t, c, size).carved == h.carved && Pop(h, t, c, size).live == h.live[b := size]
      && Pop(h, t, c, size).mem == Stamp(h.mem, b, c)
  {
    PopInv(h, t, c, size);
    hide Inv, Stamp, BytesOf;
    HeadIsFirst(h, t, c);
  }

  lemma CarveIs(h: Heap, t: nat, c: nat, size: nat, chunk: Option<nat>)
    requires Inv(h) && c < CLASSES && (PoolOf(h, t).left < BytesOf(c) ==> chunk.Some?)
    requires chunk.Some? ==> Unused(h, chunk.value, ARENA_CHUNK)
    requires size + HEADER <= BytesOf(c)
    ensures var h' := Carve(Refilled(h, t, c, chunk), t, c, size);
      var b := PoolOf(Refilled(h, t, c, chunk), t).arena;
      && Inv(h') && b !in h.carved && b !in h.live && |h'.carved| == |h.carved| + 1
      && h'.carved == h.carved[b := c] && h'.live == h.live[b := size] && h'.mem == Stamp(h.mem, b, c)
  {
    CarveFacts(h, t, c, size, chunk);
    hide Inv, BytesOf, Stamp, Unused;
  }

  lemma PushIs(h: Heap, t: nat, b: nat)
    requires Inv(h) && b in h.live
    ensures var h' := Push(h, t, b);
      && Inv(h') && h'.carved == h.carved && h'.live == h.live - {b} && b in h.carved
      && h'.mem == h.mem[b := Head(PoolOf(h, t), h.carved[b])]
  {
    PushInv(h, t, b);
    hide Inv;
  }

  /** Every event keeps the heap and the counts as they must be. */
  lemma StepGood(s: State, e: Event)
    requires Good(s) && Allowed(s, e)
    ensures Good(Do(s, e))
  {
    hide Inv, ListOf, PoolOf, BytesOf, ClassOf, Carve, Pop, Push, Refilled, Unused;
    match e
    case Malloc(t, size, chunk) =>
      var c := ClassOf(size);
      Held(size);
      if Given(s.heap, t, size, chunk).Some? {
        if ListOf(s.heap, t, c) != [] {
          PopIs(s.heap, t, c, size);
        } else {
          CarveIs(s.heap, t, c, size, chunk);
        }
      }
    case Free(t, block) =>
      PushIs(s.heap, t, block);
    case Store(at, word) =>
      WriteInv(s.heap, at, word);
  }

  // ---- what is in use is left alone ----

  /** A word of the payload of block `b`. */
  predicate InPayload(h: Heap, b: nat, a: nat) {
    b in h.live && a % 8 == 0 && b + HEADER <= a && a + 8 <= b + HEADER + h.live[b]
  }

  /** The header of a block is no word of another block's payload. */
  lemma OtherHeader(h: Heap, b: nat, a: nat, other: nat)
    requires Inv(h) && InPayload(h, b, a) && other in h.carved && other != b
    ensures a != other && a != other + 8
  {
    assert b in h.carved && h.live[b] + HEADER <= BytesOf(h.carved[b]);
    assert Apart(b, BytesOf(h.carved[b]), other, BytesOf(h.carved[other]));
    assert BytesOf(h.carved[other]) >= 16;
    hide Arenas, Places, Lists, Links, BytesOf;
  }

  lemma StampedElsewhere(mem: map<nat, nat>, b: nat, c: nat, a: nat)
    requires a != b && a != b + 8
    ensures Word(Stamp(mem, b, c), a) == Word(mem, a)
  {
  }

  /** The block is in use as it was, and the word in its payload is what it was. */
  predicate Undisturbed(h: Heap, h': Heap, b: nat, a: nat) {
    b in h.live && b in h'.live && h'.live[b] == h.live[b] && Word(h'.mem, a) == Word(h.mem, a)
  }

  lemma KeptByMalloc(s: State, t: nat, size: nat, chunk: Option<nat>, b: nat, a: nat)
    requires Good(s) && Allowed(s, Malloc(t, size, chunk)) && InPayload(s.heap, b, a)
    ensures Undisturbed(s.heap, Do(s, Malloc(t, size, chunk)).heap, b, a)
  {
    hide Inv, ListOf, PoolOf, BytesOf, ClassOf, Carve, Pop, Refilled, Unused, Stamp, Word;
    var h := s.heap;
    var c := ClassOf(size);
    Held(size);
    if Given(h, t, size, chunk).Some? {
      var given := Given(h, t, size, chunk).value;
      if ListOf(h, t, c) != [] {
        PopIs(h, t, c, size);
        OtherHeader(Pop(h, t, c, size), b, a, given);
      } else {
        CarveIs(h, t, c, size, chunk);
        OtherHeader(Carve(Refilled(h, t, c, chunk), t, c, size), b, a, given);
      }
      StampedElsewhere(h.mem, given, c, a);
    }
  }

  lemma KeptByFree(s: State, t: nat, block: nat, b: nat, a: nat)
    requires Good(s) && block in s.heap.live && InPayload(s.heap, b, a) && block != b
    ensures Undisturbed(s.heap, Do(s, Free(t, block)).heap, b, a)
  {
    hide Inv, PoolOf, Push;
    PushIs(s.heap, t, block);
    OtherHeader(s.heap, b, a, block);
  }

  /** An event that is not a block's own freeing or writing leaves the block in use, and its payload as it is. */
  lemma PayloadKept(s: State, e: Event, b: nat, a: nat)
    requires Good(s) && Allowed(s, e) && InPayload(s.heap, b, a)
    requires e.Free? ==> e.block != b
    requires e.Store? ==> e.at != a
    ensures Undisturbed(s.heap, Do(s, e).heap, b, a)
  {
    hide Inv, Allocated, Push, Good, Unused;
    match e
    case Malloc(t, size, chunk) => KeptByMalloc(s, t, size, chunk, b, a);
    case Free(t, block) => KeptByFree(s, t, block, b, a);
    case Store(at, word) =>
  }

  // ---- runs ----

  ghost predicate Runs(s: State, events: seq<Event>)
    decreases |events|
  {
    events != [] ==> Allowed(s, events[0]) && Runs(Do(s, events[0]), events[1..])
  }

  function After(s: State, events: seq<Event>): State
    decreases |events|
  {
    if events == [] then s else After(Do(s, events[0]), events[1..])
  }

  lemma {:induction false} RunGood(s: State, events: seq<Event>)
    requires Good(s) && Runs(s, events)
    ensures Good(After(s, events))
    decreases |events|
  {
    hide Do, Allowed, Good;
    if events != [] {
      StepGood(s, events[0]);
      RunGood(Do(s, events[0]), events[1..]);
    }
  }

  /**
   What is in use is aligned, as large as asked for and apart from everything
   else; a block that was carved is in use, or free and on a thread's list; and
   as many blocks were carved as requests were served without recycling.
  */
  ghost predicate Safe(s: State, a: nat, b: nat) {
    && s.served - s.recycled == |s.heap.carved|
    && Aligned(s.heap, a)
    && (a in s.heap.live && b in s.heap.live && a != b ==>
          Apart(a, HEADER + s.heap.live[a], b, HEADER + s.heap.live[b]))
    && (a in s.heap.carved ==> (a !in s.heap.live <==> exists t, c :: OnList(s.heap, t, c, a)))
  }

  predicate Aligned(h: Heap, a: nat) {
    a in h.live ==> a in h.carved && (a + HEADER) % 16 == 0 && HEADER + h.live[a] <= BytesOf(h.carved[a])
  }

  lemma GoodIsSafe(s: State, a: nat, b: nat)
    requires Good(s)
    ensures Safe(s, a, b)
  {
    hide Inv, OnList, Aligned;
    if a in s.heap.live && b in s.heap.live && a != b {
      PayloadsDisjoint(s.heap, a, b);
    }
    InUseIsAligned(s.heap, a);
    if a in s.heap.carved {
      FreeIffListed(s.heap, a);
    }
  }

  /** Every run is safe. */
  lemma RunSafe(events: seq<Event>, a: nat, b: nat)
    requires Runs(Init(), events)
    ensures Safe(After(Init(), events), a, b)
  {
    hide After, Runs, Good, Safe, Init;
    InitGood();
    RunGood(Init(), events);
    GoodIsSafe(After(Init(), events), a, b);
  }

  predicate OnList(h: Heap, t: nat, c: nat, b: nat) {
    b in ListOf(h, t, c)
  }

  lemma InUseIsAligned(h: Heap, a: nat)
    requires Inv(h)
    ensures Aligned(h, a)
  {
    hide Arenas, Places, Lists, Links, BytesOf;
    if a in h.live {
      assert BlockOk(a, h.carved[a]);
    }
  }

  /** A block that was carved is free exactly if it is on a list, and then on one list alone. */
  lemma FreeIffListed(h: Heap, b: nat)
    requires Inv(h) && b in h.carved
    ensures b !in h.live <==> exists t, c :: OnList(h, t, c, b)
    ensures forall t, c, t', c' :: OnList(h, t, c, b) && OnList(h, t', c', b) ==> t == t' && c == c' == h.carved[b]
  {
    hide Arenas, Links, Blocks, Headers, ListOf;
    forall t: nat, c: nat | OnList(h, t, c, b)
      ensures b in h.place && h.place[b] == (t, c)
    {
      assert ListPlaced(h, t, c) && Distinct(ListOf(h, t, c));
    }
    if b !in h.live {
      assert OnList(h, h.place[b].0, h.place[b].1, b);
    }
  }

  /** While nobody frees a block or writes a word of it, the word stays through any run of everyone else's. */
  lemma {:induction false} PayloadLasts(s: State, events: seq<Event>, b: nat, a: nat)
    requires Good(s) && Runs(s, events) && InPayload(s.heap, b, a)
    requires forall i :: 0 <= i < |events| ==> !(events[i].Free? && events[i].block == b)
    requires forall i :: 0 <= i < |events| ==> !(events[i].Store? && events[i].at == a)
    ensures Undisturbed(s.heap, After(s, events).heap, b, a)
    decreases |events|
  {
    hide Do, Allowed, Good, Word;
    if events != [] {
      StepGood(s, events[0]);
      PayloadKept(s, events[0], b, a);
      PayloadLasts(Do(s, events[0]), events[1..], b, a);
    }
  }
}
