/** kernel/mm/heap/heap.c: kmalloc and kfree. */
module Heap {
  import opened Machine
  import opened Pmm
  import opened HeapSpec
  import opened HeapTiles
  import opened HeapInvariant

  /** The frame behind an address of the direct map. */
  function FrameOf(hhdm: nat, a: nat): nat
    requires a >= hhdm
  {
    (a - hhdm) / PAGE
  }

  /** The pages of small blocks and the runs of large blocks are frames in use, and no two share a frame.
      `large` gives the page count of each live large block. */
  ghost predicate Owned(hhdm: nat, used: set<nat>, pages: set<nat>, large: map<nat, nat>) {
    && (forall p :: p in pages ==> p >= hhdm && p % PAGE == 0 && FrameOf(hhdm, p) in used)
    && (forall a :: a in large ==> LargeRun(hhdm, large, a) <= used && a >= hhdm && a % PAGE == 0 && large[a] >= 2 &&
                                   FrameOf(hhdm, a) > 0)
    && (forall a, p :: a in large && p in pages ==> FrameOf(hhdm, p) !in LargeRun(hhdm, large, a))
    && (forall a, b :: a in large && b in large && a != b ==> LargeRun(hhdm, large, a) !! LargeRun(hhdm, large, b))
  }

  ghost function LargeRun(hhdm: nat, large: map<nat, nat>, a: nat): set<nat>
    requires a in large
  {
    if a >= hhdm then Range(FrameOf(hhdm, a), large[a]) else {}
  }

  /** The heap has frame f. */
  ghost predicate InHeap(hhdm: nat, pages: set<nat>, large: map<nat, nat>, f: nat) {
    || (exists p :: p in pages && p >= hhdm && FrameOf(hhdm, p) == f)
    || (exists a :: a in large && f in LargeRun(hhdm, large, a))
  }

  /** The frames in use that the heap does not have. */
  ghost function Others(used: set<nat>, hhdm: nat, pages: set<nat>, large: map<nat, nat>): set<nat> {
    set f | f in used && !InHeap(hhdm, pages, large, f)
  }

  lemma HeapInUse(hhdm: nat, used: set<nat>, pages: set<nat>, large: map<nat, nat>, f: nat)
    requires Owned(hhdm, used, pages, large) && InHeap(hhdm, pages, large, f)
    ensures f in used
  {
    hide LargeRun, FrameOf;
  }

  lemma OthersPage(hhdm: nat, used: set<nat>, pages: set<nat>, large: map<nat, nat>, f: nat, page: nat)
    requires Owned(hhdm, used, pages, large) && f !in used && page == hhdm + f * PAGE
    ensures Others(used + {f}, hhdm, pages + {page}, large) == Others(used, hhdm, pages, large)
  {
    hide LargeRun, Owned;
    assert FrameOf(hhdm, page) == f;
    forall g | g in used ensures InHeap(hhdm, pages + {page}, large, g) <==> InHeap(hhdm, pages, large, g) {
      if exists p :: p in pages && p >= hhdm && FrameOf(hhdm, p) == g {
        var p :| p in pages && p >= hhdm && FrameOf(hhdm, p) == g;
        assert p in pages + {page};
      }
    }
    assert page in pages + {page} && InHeap(hhdm, pages + {page}, large, f);
  }

  lemma OthersLarge(hhdm: nat, used: set<nat>, pages: set<nat>, large: map<nat, nat>, a: nat, n: nat)
    requires Owned(hhdm, used, pages, large) && a !in large && a >= hhdm && Range(FrameOf(hhdm, a), n) !! used
    ensures Others(used + Range(FrameOf(hhdm, a), n), hhdm, pages, large[a := n]) == Others(used, hhdm, pages, large)
  {
    hide Range, FrameOf, Owned;
    var large', run := large[a := n], Range(FrameOf(hhdm, a), n);
    assert LargeRun(hhdm, large', a) == run;
    forall g | g in used ensures InHeap(hhdm, pages, large', g) <==> InHeap(hhdm, pages, large, g) {
      LargeRunsKept(hhdm, large, large', a, g);
    }
    forall g | g in run ensures InHeap(hhdm, pages, large', g) {
      assert a in large' && g in LargeRun(hhdm, large', a);
    }
  }

  lemma LargeRunsKept(hhdm: nat, large: map<nat, nat>, large': map<nat, nat>, a: nat, g: nat)
    requires a !in large && a in large' && large' == large[a := large'[a]] && g !in LargeRun(hhdm, large', a)
    ensures (exists b :: b in large' && g in LargeRun(hhdm, large', b)) <==> exists b :: b in large && g in LargeRun(hhdm, large, b)
  {
    hide Range, FrameOf;
    if exists b :: b in large && g in LargeRun(hhdm, large, b) {
      var b :| b in large && g in LargeRun(hhdm, large, b);
      assert b in large' && g in LargeRun(hhdm, large', b);
    }
    if exists b :: b in large' && g in LargeRun(hhdm, large', b) {
      var b :| b in large' && g in LargeRun(hhdm, large', b);
      assert b in large && g in LargeRun(hhdm, large, b);
    }
  }

  lemma OthersLess(hhdm: nat, used: set<nat>, pages: set<nat>, large: map<nat, nat>, a: nat)
    requires Owned(hhdm, used, pages, large) && a in large
    ensures Others(used - LargeRun(hhdm, large, a), hhdm, pages, large - {a}) == Others(used, hhdm, pages, large)
  {
    hide Range, FrameOf, Owned;
    var large', run := large - {a}, LargeRun(hhdm, large, a);
    assert large == large'[a := large[a]];
    forall g | g in used && g !in run ensures InHeap(hhdm, pages, large', g) <==> InHeap(hhdm, pages, large, g) {
      LargeRunsKept(hhdm, large', large, a, g);
    }
    forall g | g in run ensures InHeap(hhdm, pages, large, g) {
      assert a in large && g in LargeRun(hhdm, large, a);
    }
  }

  /** Large blocks say in their header how many pages they have. */
  ghost predicate LargeHeaders(hdr: Headers, large: map<nat, nat>) {
    forall a :: a in large ==> a in hdr && hdr[a].size == large[a] * PAGE - HEADER
  }

  /** No large block starts where a small block does. */
  lemma LargeIsNoBlock(hhdm: nat, used: set<nat>, hdr: Headers, blocks: set<nat>, pages: set<nat>, large: map<nat, nat>)
    requires Owned(hhdm, used, pages, large) && Tiles(hdr, blocks, pages)
    ensures large.Keys !! blocks
  {
    forall a | a in large ensures a !in blocks {
      SameBase(a, a);
      assert a in blocks ==> BlockOk(hdr, blocks, pages, a);
      assert FrameOf(hhdm, a) in LargeRun(hhdm, large, a);
    }
  }

  /** A page of a frame that was free joins. */
  lemma OwnedPage(hhdm: nat, used: set<nat>, pages: set<nat>, large: map<nat, nat>, f: nat, page: nat)
    requires Owned(hhdm, used, pages, large) && f !in used && page == hhdm + f * PAGE && hhdm % PAGE == 0
    ensures Owned(hhdm, used + {f}, pages + {page}, large) && page !in pages && page !in large && page % PAGE == 0
  {
    hide Range;
    assert FrameOf(hhdm, page) == f;
    forall a | a in large ensures f !in LargeRun(hhdm, large, a) {
      assert LargeRun(hhdm, large, a) <= used;
    }
    LargeStarts(hhdm, used, pages, large);
  }

  lemma LargeStarts(hhdm: nat, used: set<nat>, pages: set<nat>, large: map<nat, nat>)
    requires Owned(hhdm, used, pages, large)
    ensures forall a :: a in large ==> a >= hhdm && FrameOf(hhdm, a) in LargeRun(hhdm, large, a)
  {
  }

  lemma LargeApart(hdr: Headers, list: seq<nat>, head: nat, other: seq<nat>, otherHead: nat, live: set<nat>,
                   pages: set<nat>, hhdm: nat, used: set<nat>, large: map<nat, nat>)
    requires Core(hdr, list, head, other, otherHead, live, pages) && Owned(hhdm, used, pages, large)
    ensures large.Keys !! live + Elems(list) + Elems(other)
    ensures forall a :: a in large ==> a !in list && a !in other && a !in live
  {
    hide Owned, Linked, Tiles;
    LargeIsNoBlock(hhdm, used, hdr, live + Elems(list) + Elems(other), pages, large);
    forall a | a in large ensures a !in list && a !in other {
      assert a !in Elems(list) && a !in Elems(other);
    }
  }

  lemma CoreFacts(hdr: Headers, list: seq<nat>, head: nat, other: seq<nat>, otherHead: nat, live: set<nat>,
                  pages: set<nat>)
    requires Core(hdr, list, head, other, otherHead, live, pages)
    ensures 0 !in hdr && live <= hdr.Keys && (head == 0 || (head in hdr && head in list))
    ensures forall b :: b in live ==> b !in list && b !in other
  {
    hide NodeOk, BlockOk, Apart;
    LinkedMembers(hdr, list, head);
    forall b | b in live ensures b !in list && b !in other {
      assert b !in Elems(list) && b !in Elems(other);
    }
    assert list != [] ==> list[0] in Elems(list);
  }

  /** A run of frames that was free becomes a large block. */
  lemma OwnedLarge(hhdm: nat, used: set<nat>, pages: set<nat>, large: map<nat, nat>, f: nat, n: nat)
    requires Owned(hhdm, used, pages, large) && hhdm % PAGE == 0 && Range(f, n) !! used && f > 0 && n >= 2
    ensures var a := hhdm + f * PAGE;
            && Owned(hhdm, used + Range(f, n), pages, large[a := n]) && a !in large
            && a % PAGE == 0 && a !in pages && FrameOf(hhdm, a) == f
  {
    hide Range;
    var a := hhdm + f * PAGE;
    assert FrameOf(hhdm, a) == f && LargeRun(hhdm, large[a := n], a) == Range(f, n);
    LargeStarts(hhdm, used, pages, large);
    RangeStarts(f, n);
    forall b | b in large ensures LargeRun(hhdm, large[a := n], b) == LargeRun(hhdm, large, b) <= used {
    }
    forall p | p in pages ensures FrameOf(hhdm, p) !in Range(f, n) {
      assert FrameOf(hhdm, p) in used;
    }
  }

  lemma RangeStarts(f: nat, n: nat)
    requires n > 0
    ensures f in Range(f, n)
  {
  }

  /** A large block is given up together with its run. */
  lemma OwnedFree(hhdm: nat, used: set<nat>, pages: set<nat>, large: map<nat, nat>, a: nat)
    requires Owned(hhdm, used, pages, large) && a in large
    ensures Owned(hhdm, used - LargeRun(hhdm, large, a), pages, large - {a})
  {
    hide Range;
    var large' := large - {a};
    forall b | b in large' ensures LargeRun(hhdm, large', b) == LargeRun(hhdm, large, b) {
    }
  }

  /** No block starts at a page that the allocator still has. */
  lemma FreeIsNoBlock(hdr: Headers, list: seq<nat>, head: nat, other: seq<nat>, otherHead: nat, live: set<nat>,
                      pages: set<nat>, p: nat)
    requires Core(hdr, list, head, other, otherHead, live, pages) && p % PAGE == 0 && p !in pages
    ensures p !in live + Elems(list) + Elems(other)
  {
    hide Linked, Tiles;
    NewPageIsNew(hdr, live + Elems(list) + Elems(other), pages, p);
  }

  /** kmalloc works with the size rounded up to whole headers. */
  function Rounded(size: nat): nat {
    AlignUp64(size, HEADER)
  }

  /** Rounding never shrinks a request, except that the last 31 sizes wrap to 0. */
  lemma RoundedSize(size: nat)
    requires size < TWO64
    ensures Rounded(size) % HEADER == 0 && Rounded(size) < TWO64 && (size > TWO64 - HEADER ==> Rounded(size) == 0)
    ensures Rounded(size) >= size <==> size <= TWO64 - HEADER
  {
  }

  /** Pages a large block takes, header included; 0 when the sum wraps. */
  function LargePages(size: nat): nat
    requires size < TWO64
  {
    AlignUp64(Add64(size, HEADER), PAGE) / PAGE
  }

  lemma PageAligned(x: nat)
    requires x < TWO64
    ensures var r := AlignUp64(x, PAGE); r < TWO64 && r % PAGE == 0 && (r == 0 || r >= x)
  {
    var q := x / PAGE + 1;
    assert x % PAGE != 0 ==> x + PAGE - x % PAGE == q * PAGE;
    assert q * PAGE <= TWO64 && (q * PAGE == TWO64 || q * PAGE < TWO64);
  }

  lemma LargePagesSize(size: nat)
    requires SMALL_MAX < size < TWO64
    ensures LargePages(size) > 0 && size + HEADER < TWO64 ==>
              LargePages(size) >= 2 && size <= LargePages(size) * PAGE - HEADER
    ensures size + HEADER == TWO64 ==> LargePages(size) == 0
    ensures LargePages(size) * PAGE == AlignUp64(Add64(size, HEADER), PAGE) < TWO64
  {
    hide AlignUp64;
    PageAligned(Add64(size, HEADER));
    assert size + HEADER == TWO64 ==> AlignUp64(0, PAGE) == 0 by {
      ZeroAligned();
    }
  }

  lemma ZeroAligned()
    ensures AlignUp64(0, PAGE) == 0
  {
  }

  /** The result of kmalloc: a block, the kernel's panic, or an address behind which there is no memory. */
  datatype Outcome = Block(addr: nat) | Panic | Wild(addr: nat)

  ghost predicate FitAt(hdr: Headers, list: seq<nat>, size: nat, k: nat)
    requires k < |list|
  {
    list[k] in hdr && hdr[list[k]].size >= size && forall i :: 0 <= i < k ==> list[i] in hdr && hdr[list[i]].size < size
  }

  /** b is the first block of the list that can hold `size`. */
  ghost predicate FirstFit(hdr: Headers, list: seq<nat>, size: nat, b: nat) {
    exists k :: 0 <= k < |list| && FitAt(hdr, list, size, k) && list[k] == b
  }

  /** No block of the list can hold `size`. */
  ghost predicate TooSmall(hdr: Headers, list: seq<nat>, size: nat) {
    forall i :: 0 <= i < |list| ==> list[i] in hdr && hdr[list[i]].size < size
  }

  lemma FitIsFirst(hdr: Headers, list: seq<nat>, size: nat, k: nat)
    requires k < |list| && FitAt(hdr, list, size, k)
    ensures FirstFit(hdr, list, size, list[k]) && !TooSmall(hdr, list, size)
  {
  }

  /** What is handed out of a block of `had` bytes: a rest too small to be worth a header goes with it. */
  function Cut(had: nat, size: nat): nat {
    if had <= size + 2 * HEADER then had else size
  }

  /** A list after block k of it has served a request. */
  ghost function Served(list: seq<nat>, k: nat, had: nat, size: nat): seq<nat>
    requires k < |list|
  {
    if had <= size + 2 * HEADER then Without(list, k) else list[k := list[k] + HEADER + size]
  }

  datatype HeapOp = Malloc(size: nat) | Free(a: nat)

  class KernelHeap {
    const pmm: PhysicalMemory
    const hhdm: nat
    var hdr: Headers
    var superHead: nat
    var freeHead: nat
    var freeTail: nat

    ghost var frees: seq<nat>
    ghost var supers: seq<nat>
    /** Headers of the small blocks that are handed out. */
    ghost var live: set<nat>
    /** Addresses of the pages acquired for small blocks. */
    ghost var pages: set<nat>
    /** Page counts of the large blocks that are handed out. */
    ghost var large: map<nat, nat>

    ghost predicate Lists()
      reads this
    {
      && Linked(hdr, frees, freeHead) && Linked(hdr, supers, superHead) && freeTail == Last(frees)
      && Elems(frees) !! Elems(supers) && 0 !in hdr
    }

    /** The list a block is taken from. */
    ghost function List(fromFree: bool): seq<nat>
      reads this
    {
      if fromFree then frees else supers
    }

    /** Both lists are linked as `frees` and `supers` say, and blocks tile the pages. */
    ghost predicate Shape()
      reads this
    {
      Core(hdr, frees, freeHead, supers, superHead, live, pages) && freeTail == Last(frees)
    }

    ghost predicate Valid()
      reads this, pmm.bitmap, pmm.bitmap.bytes
    {
      && pmm.Valid() && hhdm > 0 && hhdm % PAGE == 0 && hhdm + pmm.Frames() * PAGE <= TWO64 && 0 in pmm.Used()
      && Shape() && Owned(hhdm, pmm.Used(), pages, large) && LargeHeaders(hdr, large)
    }

    /** init_kernel_heap; without a free page it would write through NULL. */
    constructor (pmm: PhysicalMemory, hhdm: nat)
      requires pmm.Valid() && hhdm > 0 && hhdm % PAGE == 0 && hhdm + pmm.Frames() * PAGE <= TWO64 && 0 in pmm.Used()
      requires pmm.Free() != {}
      modifies pmm.bitmap, pmm.bitmap.bytes
      ensures Valid() && live == {} && large == map[] && this.pmm == pmm && this.hhdm == hhdm
      ensures |pages| == 1 && exists f :: f in old(pmm.Free()) && pmm.Used() == old(pmm.Used()) + {f}
    {
      this.pmm, this.hhdm := pmm, hhdm;
      hdr, superHead, freeHead, freeTail := map[], 0, 0, 0;
      frees, supers, live, pages, large := [], [], {}, {}, map[];
      new;
      var frame := pmm.AllocPage();
      PushSuper(frame + hhdm, frame / PAGE, old(pmm.Used()));
    }

    /** A page joins the super list as one block (heap.c:76-85, and 43-46 where the list is empty). */
    method PushSuper(buffer: nat, ghost f: nat, ghost used: set<nat>)
      requires Shape() && Owned(hhdm, used, pages, large) && LargeHeaders(hdr, large)
      requires hhdm > 0 && hhdm % PAGE == 0 && f !in used && buffer == hhdm + f * PAGE
      modifies `hdr, `superHead, `supers, `pages
      ensures Shape() && supers == [buffer] + old(supers) && pages == old(pages) + {buffer}
      ensures superHead == buffer && buffer in hdr && hdr[buffer].size == SMALL_MAX && buffer !in old(pages)
      ensures Owned(hhdm, used + {f}, pages, large) && LargeHeaders(hdr, large)
      ensures forall b :: b in live ==> b in hdr && b in old(hdr) && hdr[b] == old(hdr[b])
    {
      hide Core, Owned;
      OwnedPage(hhdm, used, pages, large, f, buffer);
      CoreSwap(hdr, frees, freeHead, supers, superHead, live, pages);
      AddPage(hdr, supers, superHead, frees, freeHead, live, pages, buffer);
      LargeApart(hdr, frees, freeHead, supers, superHead, live, pages, hhdm, used, large);
      CoreFacts(hdr, supers, superHead, frees, freeHead, live, pages);
      hdr := hdr[buffer := Header(SMALL_MAX, superHead, 0)];
      if superHead != 0 {
        hdr := hdr[superHead := hdr[superHead].(prev := buffer)];
      }
      superHead := buffer;
      supers, pages := [buffer] + supers, pages + {buffer};
      CoreSwap(hdr, supers, superHead, frees, freeHead, live, pages);
    }

    /** find_big_enough_block: the first block of the list that is large enough. */
    method FindFit(head: nat, size: nat, ghost list: seq<nat>) returns (b: nat, ghost k: nat)
      requires Linked(hdr, list, head)
      ensures b == 0 <==> TooSmall(hdr, list, size)
      ensures b != 0 ==> b in hdr && k < |list| && b == list[k] && FitAt(hdr, list, size, k)
    {
      b, k := head, 0;
      while b != 0
        invariant k <= |list| && b == if k < |list| then list[k] else 0
        invariant forall i :: 0 <= i < k ==> list[i] in hdr && hdr[list[i]].size < size
        decreases |list| - k
      {
        assert NodeOk(hdr, list, k);
        if hdr[b].size >= size {
          return;
        }
        b, k := hdr[b].next, k + 1;
      }
      assert k < |list| ==> NodeOk(hdr, list, k);
    }

    /** remove_memory_block_from_list; the "Unknown memory block" panic cannot be reached. */
    method RemoveBlock(block: nat, ghost fromFree: bool, ghost k: nat)
      requires Lists() && k < |List(fromFree)| && block == List(fromFree)[k]
      modifies `hdr, `freeHead, `superHead, `freeTail
      ensures hdr == Unlink(old(hdr), List(fromFree), k)
      ensures freeHead == if fromFree && k == 0 then NextOf(frees, k) else old(freeHead)
      ensures superHead == if !fromFree && k == 0 then NextOf(supers, k) else old(superHead)
      ensures freeTail == if fromFree then Last(Without(frees, k)) else old(freeTail)
    {
      Neighbours(hdr, List(fromFree), if fromFree then freeHead else superHead, k);
      OneListOnly(frees, supers, fromFree, k);
      if fromFree {
        WithoutElems(frees, k);
      }
      var header := hdr[block];
      if header.prev == 0 {
        if block == freeHead {
          freeHead := header.next;
          if freeHead != 0 {
            hdr := hdr[freeHead := hdr[freeHead].(prev := 0)];
          } else {
            freeTail := 0;
          }
          return;
        }
        if block == superHead {
          superHead := header.next;
          if superHead != 0 {
            hdr := hdr[superHead := hdr[superHead].(prev := 0)];
          }
          return;
        }
        assert false;
      }
      hdr := hdr[header.prev := hdr[header.prev].(next := header.next)];
      if header.next != 0 {
        hdr := hdr[header.next := hdr[header.next].(prev := header.prev)];
      } else if block == freeTail {
        freeTail := header.prev;
      }
    }

    /** replace_memory_block_in_list; here too the panic cannot be reached. */
    method ReplaceBlock(block: nat, other: nat, ghost fromFree: bool, ghost k: nat)
      requires Lists() && k < |List(fromFree)| && block == List(fromFree)[k]
      requires other in hdr && other !in frees && other !in supers
      modifies `hdr, `freeHead, `superHead, `freeTail
      ensures hdr == Relink(old(hdr), List(fromFree), k, other, old(hdr)[other].size)
      ensures freeHead == if fromFree && k == 0 then other else old(freeHead)
      ensures superHead == if !fromFree && k == 0 then other else old(superHead)
      ensures freeTail == if fromFree then Last(frees[k := other]) else old(freeTail)
    {
      Neighbours(hdr, List(fromFree), if fromFree then freeHead else superHead, k);
      OneListOnly(frees, supers, fromFree, k);
      if fromFree {
        UpdateElems(frees, k, other);
      }
      var header := hdr[block];
      hdr := hdr[other := hdr[other].(next := header.next, prev := header.prev)];
      if header.prev != 0 {
        hdr := hdr[header.prev := hdr[header.prev].(next := other)];
      } else if block == freeHead {
        freeHead := other;
      } else if block == superHead {
        superHead := other;
      } else {
        assert false;
      }
      if header.next != 0 {
        hdr := hdr[header.next := hdr[header.next].(prev := other)];
      } else if block == freeTail {
        freeTail := other;
      }
    }

    /** The block a call of malloc_from_block is about. */
    ghost predicate Chosen(block: nat, size: nat, fromFree: bool, k: nat)
      reads this
    {
      && k < |List(fromFree)| && block == List(fromFree)[k] && block in hdr && hdr[block].size >= size
      && size % HEADER == 0
    }

    /** Large blocks' headers are in place, and no small block is one. */
    ghost predicate LargeSafe(used: set<nat>)
      reads this
    {
      Owned(hhdm, used, pages, large) && LargeHeaders(hdr, large)
    }

    /** malloc_from_block, the branch that hands out the block whole. */
    method TakeBlock(block: nat, ghost size: nat, ghost fromFree: bool, ghost k: nat, ghost used: set<nat>)
      requires Shape() && Chosen(block, size, fromFree, k) && LargeSafe(used)
      modifies `hdr, `freeHead, `superHead, `freeTail, `frees, `supers, `live
      ensures Shape() && LargeSafe(used) && live == old(live) + {block} && block !in old(live)
      ensures block in hdr && hdr[block].size == old(hdr)[block].size
      ensures frees == (if fromFree then Without(old(frees), k) else old(frees))
      ensures supers == if fromFree then old(supers) else Without(old(supers), k)
      ensures forall b :: b in old(live) ==> b in hdr && b in old(hdr) && hdr[b] == old(hdr[b])
    {
      hide Core, Owned, Unlink;
      CoreLists(hdr, frees, freeHead, supers, superHead, live, pages, fromFree, k);
      LargeApart(hdr, frees, freeHead, supers, superHead, live, pages, hhdm, used, large);
      CoreSwap(hdr, frees, freeHead, supers, superHead, live, pages);
      if fromFree {
        TakeWhole(hdr, frees, freeHead, supers, superHead, live, pages, k);
      } else {
        TakeWhole(hdr, supers, superHead, frees, freeHead, live, pages, k);
      }
      RemoveBlock(block, fromFree, k);
      live := live + {block};
      if fromFree {
        frees := Without(frees, k);
      } else {
        supers := Without(supers, k);
        CoreSwap(hdr, supers, superHead, frees, freeHead, live, pages);
      }
    }

    /** A header written inside the payload of a block. */
    method NewHeader(b: nat, size: nat)
      requires Lists() && b != 0 && b !in frees && b !in supers
      modifies `hdr
      ensures Lists() && hdr == old(hdr)[b := Header(size, 0, 0)]
    {
      ghost var was := hdr;
      LinkedMembers(hdr, frees, freeHead);
      LinkedMembers(hdr, supers, superHead);
      hdr := hdr[b := Header(size, 0, 0)];
      LinkedFrame(was, hdr, frees, freeHead);
      LinkedFrame(was, hdr, supers, superHead);
    }

    /** malloc_from_block, the branch that splits the block. */
    method SplitBlock(block: nat, size: nat, ghost fromFree: bool, ghost k: nat, ghost used: set<nat>)
      requires Shape() && Chosen(block, size, fromFree, k) && LargeSafe(used) && hdr[block].size > size + 2 * HEADER
      modifies `hdr, `freeHead, `superHead, `freeTail, `frees, `supers, `live
      ensures Shape() && LargeSafe(used) && live == old(live) + {block} && block !in old(live)
      ensures block in hdr && hdr[block].size == size
      ensures frees == (if fromFree then old(frees)[k := block + HEADER + size] else old(frees))
      ensures supers == if fromFree then old(supers) else old(supers)[k := block + HEADER + size]
      ensures forall b :: b in old(live) ==> b in hdr && b in old(hdr) && hdr[b] == old(hdr[b])
    {
      hide Core, Owned, Relink, LargeHeaders, SplitHeaders;
      CoreLists(hdr, frees, freeHead, supers, superHead, live, pages, fromFree, k);
      CoreSwap(hdr, frees, freeHead, supers, superHead, live, pages);
      if fromFree {
        SplitKeeps(hdr, frees, freeHead, supers, superHead, live, pages, k, size, hhdm, used, large);
      } else {
        SplitKeeps(hdr, supers, superHead, frees, freeHead, live, pages, k, size, hhdm, used, large);
      }
      var rest := SplitOffRest(block, size, fromFree, k);
      live := live + {block};
      if fromFree {
        frees := frees[k := rest];
      } else {
        supers := supers[k := rest];
        CoreSwap(hdr, supers, superHead, frees, freeHead, live, pages);
      }
    }

    /** The writes of that branch. */
    method SplitOffRest(block: nat, size: nat, ghost fromFree: bool, ghost k: nat) returns (rest: nat)
      requires Lists() && Chosen(block, size, fromFree, k) && hdr[block].size > size + 2 * HEADER
      requires block + HEADER + size !in frees && block + HEADER + size !in supers
      modifies `hdr, `freeHead, `superHead, `freeTail
      ensures rest == block + HEADER + size
      ensures hdr == SplitHeaders(old(hdr), List(fromFree), k, rest, size)
      ensures freeHead == if fromFree && k == 0 then rest else old(freeHead)
      ensures superHead == if !fromFree && k == 0 then rest else old(superHead)
      ensures freeTail == if fromFree then Last(frees[k := rest]) else old(freeTail)
    {
      hide Linked, Relink;
      var left := hdr[block].size - (size + HEADER);
      rest := block + HEADER + size;
      RelinkTwice(hdr, List(fromFree), k, rest, left);
      NewHeader(rest, left);
      ReplaceBlock(block, rest, fromFree, k);
      hdr := hdr[block := hdr[block].(size := size)];
    }

    /** malloc_from_block */
    method MallocFromBlock(block: nat, size: nat, ghost fromFree: bool, ghost k: nat, ghost used: set<nat>)
      returns (addr: nat)
      requires Shape() && Chosen(block, size, fromFree, k) && LargeSafe(used)
      modifies `hdr, `freeHead, `superHead, `freeTail, `frees, `supers, `live
      ensures Shape() && LargeSafe(used) && live == old(live) + {block} && block !in old(live)
      ensures block in hdr && hdr[block].size == Cut(old(hdr)[block].size, size) && addr == block + HEADER
      ensures frees == (if fromFree then Served(old(frees), k, old(hdr)[block].size, size) else old(frees))
      ensures supers == if fromFree then old(supers) else Served(old(supers), k, old(hdr)[block].size, size)
      ensures forall b :: b in old(live) ==> b in hdr && b in old(hdr) && hdr[b] == old(hdr[b])
    {
      hide Core, Owned;
      if hdr[block].size <= size + 2 * HEADER {
        TakeBlock(block, size, fromFree, k, used);
      } else {
        SplitBlock(block, size, fromFree, k, used);
      }
      addr := block + HEADER;
    }

    /** No listed block can hold `size`. */
    ghost predicate NoFit(size: nat)
      reads this
    {
      TooSmall(hdr, frees, size) && TooSmall(hdr, supers, size)
    }

    /** Headers of blocks handed out before are as they were. */
    ghost predicate HeldKept(hdr0: Headers, live0: set<nat>, large0: map<nat, nat>)
      reads this
    {
      SizesKept(hdr0, hdr, live0, large0)
    }

    /** malloc_largeblock */
    method MallocLarge(size: nat) returns (out: Outcome)
      requires Valid() && SMALL_MAX < size && size + HEADER <= TWO64
      modifies pmm.bitmap, pmm.bitmap.bytes, `hdr, `large
      ensures !out.Wild? ==> Valid()
      ensures LargePages(size) <= pmm.Frames() ==>
                (out == Panic <==> LargePages(size) == 0 || old(NoRun(pmm.Used(), pmm.Frames(), LargePages(size)))) &&
                !out.Wild?
      ensures LargePages(size) > pmm.Frames() ==> out == Wild((TWO64 - LargePages(size) * PAGE + hhdm) % TWO64)
      ensures out != Panic || (hdr == old(hdr) && large == old(large) && pmm.Used() == old(pmm.Used()))
      ensures out.Block? ==>
                var b := out.addr - HEADER;
                && b >= 0 && b !in old(large) && large == old(large)[b := LargePages(size)] && b in hdr
                && hdr[b].size >= size && LargeRun(hhdm, large, b) !! old(pmm.Used())
                && pmm.Used() == old(pmm.Used()) + LargeRun(hhdm, large, b)
                && HeldKept(old(hdr), live, old(large))
      ensures !out.Wild? ==> Others(pmm.Used(), hhdm, pages, large) == old(Others(pmm.Used(), hhdm, pages, large))
    {
      hide Core, Owned, AlignUp64, NoRun, FreeRun, Others;
      LargePagesSize(size);
      var total := AlignUp64(Add64(size, HEADER), PAGE);
      var count := total / PAGE;
      if count == 0 {
        return Panic;
      }
      ghost var used0, hdr0 := pmm.Used(), hdr;
      var phys := pmm.AllocPages(count);
      WildAddress(count);
      if phys == 0 {
        NoRunAtZero(used0, pmm.Frames(), count);
        return Panic;
      }
      if count > pmm.bitmap.bitCount {
        return Wild((phys + hhdm) % TWO64);
      }
      var b := phys + hhdm;
      ghost var f := phys / PAGE;
      LowestRunFacts(used0, pmm.Frames(), count, f);
      OwnedLarge(hhdm, used0, pages, large, f, count);
      OthersLarge(hhdm, used0, pages, large, b, count);
      FreeIsNoBlock(hdr, frees, freeHead, supers, superHead, live, pages, b);
      CoreOutside(hdr, frees, freeHead, supers, superHead, live, pages, b, Header(total - HEADER, 0, 0));
      CoreFacts(hdr, frees, freeHead, supers, superHead, live, pages);
      hdr := hdr[b := Header(total - HEADER, 0, 0)];
      large := large[b := count];
      out := Block(b + HEADER);
    }

    /** The part of kmalloc for sizes that fit a page. */
    method MallocSmall(size: nat) returns (out: Outcome)
      requires Valid() && size <= SMALL_MAX && size % HEADER == 0
      modifies pmm.bitmap, pmm.bitmap.bytes, `hdr, `freeHead, `superHead, `freeTail, `frees, `supers, `live, `pages
      ensures Valid() && !out.Wild?
      ensures out == Panic <==> old(NoFit(size)) && old(pmm.Free()) == {}
      ensures out == Panic ==> hdr == old(hdr) && live == old(live) && pages == old(pages)
      ensures out.Block? ==>
                var b := out.addr - HEADER;
                && b >= 0 && b !in old(live) && live == old(live) + {b} && b in hdr && hdr[b].size >= size
                && HeldKept(old(hdr), old(live), large)
      // First fit: freed blocks first, then the rests of pages, then a new page.
      ensures out.Block? ==>
                var b := out.addr - HEADER;
                if !TooSmall(old(hdr), old(frees), size) then
                  FirstFit(old(hdr), old(frees), size, b) && b in old(hdr) && hdr[b].size == Cut(old(hdr)[b].size, size)
                else if !TooSmall(old(hdr), old(supers), size) then
                  FirstFit(old(hdr), old(supers), size, b) && b in old(hdr) && hdr[b].size == Cut(old(hdr)[b].size, size)
                else pages == old(pages) + {b} && b !in old(pages) && hdr[b].size == Cut(SMALL_MAX, size)
      // Frames are taken only for whole new pages, and only when nothing fits.
      ensures (out == Panic || !old(NoFit(size))) ==> pmm.Used() == old(pmm.Used()) && pages == old(pages)
      ensures out.Block? && old(NoFit(size)) ==>
                exists f :: f in old(pmm.Free()) && pmm.Used() == old(pmm.Used()) + {f} &&
                            pages == old(pages) + {hhdm + f * PAGE}
      ensures Others(pmm.Used(), hhdm, pages, large) == old(Others(pmm.Used(), hhdm, pages, large))
    {
      hide Core, Owned, FirstFit, TooSmall, Others;
      ghost var used := pmm.Used();
      HeldHeaders(hdr, frees, freeHead, supers, superHead, live, pages, large);
      assert LargeSafe(used);
      BothLinked(hdr, frees, freeHead, supers, superHead, live, pages);
      var block, k := FindFit(freeHead, size, frees);
      if block != 0 {
        FitIsFirst(hdr, frees, size, k);
        var addr := MallocFromBlock(block, size, true, k, used);
        return Block(addr);
      }
      block, k := FindFit(superHead, size, supers);
      if block != 0 {
        FitIsFirst(hdr, supers, size, k);
        var addr := MallocFromBlock(block, size, false, k, used);
        return Block(addr);
      }
      out := MallocFromNewPage(size);
    }

    /** ... when no block fits. */
    method MallocFromNewPage(size: nat) returns (out: Outcome)
      requires Valid() && size <= SMALL_MAX && size % HEADER == 0
      modifies pmm.bitmap, pmm.bitmap.bytes, `hdr, `freeHead, `superHead, `freeTail, `frees, `supers, `live, `pages
      ensures Valid() && !out.Wild?
      ensures out == Panic <==> old(pmm.Free()) == {}
      ensures out == Panic ==> hdr == old(hdr) && live == old(live) && pages == old(pages) && pmm.Used() == old(pmm.Used())
      ensures out.Block? ==>
                var b := out.addr - HEADER;
                && b >= 0 && b !in old(live) && live == old(live) + {b} && b in hdr && hdr[b].size >= size
                && HeldKept(old(hdr), old(live), large)
      ensures out.Block? ==>
                pages == old(pages) + {out.addr - HEADER} && out.addr - HEADER !in old(pages) &&
                hdr[out.addr - HEADER].size == Cut(SMALL_MAX, size)
      ensures out.Block? ==> exists f :: f in old(pmm.Free()) && pmm.Used() == old(pmm.Used()) + {f} &&
                                         pages == old(pages) + {hhdm + f * PAGE}
      ensures Others(pmm.Used(), hhdm, pages, large) == old(Others(pmm.Used(), hhdm, pages, large))
    {
      hide Core, Owned, NoRun, FreeRun, Others;
      ghost var used := pmm.Used();
      HeldHeaders(hdr, frees, freeHead, supers, superHead, live, pages, large);
      SomeFrameExists(used, pmm.Frames());
      OneFrameRun(used, pmm.Frames());
      NoRunAtZero(used, pmm.Frames(), 1);
      var phys := pmm.AllocPages(1);
      if phys == 0 {
        return Panic;
      }
      ghost var f := phys / PAGE;
      OneFrame(used, pmm.Frames(), f);
      OthersPage(hhdm, used, pages, large, f, phys + hhdm);
      PushSuper(phys + hhdm, f, used);
      var addr := MallocFromBlock(superHead, size, false, 0, used + {f});
      return Block(addr);
    }

    /** kmalloc; a request of 0 bytes is a failed assertion. */
    method Kmalloc(size: nat) returns (out: Outcome)
      requires Valid() && size < TWO64
      modifies this, pmm.bitmap, pmm.bitmap.bytes
      ensures !out.Wild? ==> Valid()
      // Exactly when it gives up, and that nothing has changed then.
      ensures size > 0 && Rounded(size) <= SMALL_MAX ==>
                !out.Wild? && (out == Panic <==> old(NoFit(Rounded(size))) && old(pmm.Free()) == {})
      ensures size > 0 && Rounded(size) > SMALL_MAX && LargePages(Rounded(size)) <= pmm.Frames() ==>
                !out.Wild? && (out == Panic <==> LargePages(Rounded(size)) == 0 ||
                                                 old(NoRun(pmm.Used(), pmm.Frames(), LargePages(Rounded(size)))))
      ensures size > 0 && Rounded(size) > SMALL_MAX && LargePages(Rounded(size)) > pmm.Frames() ==>
                out == Wild((TWO64 - LargePages(Rounded(size)) * PAGE + hhdm) % TWO64)
      ensures size == 0 ==> out == Panic
      ensures out == Panic ==> hdr == old(hdr) && live == old(live) && large == old(large) && pages == old(pages) &&
                               pmm.Used() == old(pmm.Used())
      // The block is new, large enough unless rounding wrapped, and no block handed out before has changed.
      ensures out.Block? ==>
                var b := out.addr - HEADER;
                && b >= 0 && b !in old(live) && b !in old(large) && b in hdr
                && (hdr[b].size >= size <==> size <= TWO64 - HEADER)
                && HeldKept(old(hdr), old(live), old(large))
                && if Rounded(size) <= SMALL_MAX then live == old(live) + {b} && large == old(large)
                   else live == old(live) && pages == old(pages) && large == old(large)[b := LargePages(Rounded(size))] &&
                        LargeRun(hhdm, large, b) !! old(pmm.Used()) &&
                        pmm.Used() == old(pmm.Used()) + LargeRun(hhdm, large, b)
      // Only frames of the heap come and go.
      ensures !out.Wild? ==> Others(pmm.Used(), hhdm, pages, large) == old(Others(pmm.Used(), hhdm, pages, large))
    {
      hide Core, Owned, NoRun, LargePages, Rounded, Others;
      if size == 0 {
        return Panic;
      }
      RoundedSize(size);
      var rounded := AlignUp64(size, HEADER);
      RoundedIs(size);
      if rounded > SMALL_MAX {
        RoundedRoom(rounded);
        out := MallocLarge(rounded);
      } else {
        out := MallocSmall(rounded);
      }
      if out.Block? {
        HeldDiffer(hdr, frees, freeHead, supers, superHead, live, pages, hhdm, pmm.Used(), large);
      }
    }

    /** kfree of a block that is handed out. */
    method Kfree(addr: nat)
      requires Valid() && addr >= HEADER && (addr - HEADER in live || addr - HEADER in large)
      modifies this, pmm.bitmap, pmm.bitmap.bytes
      ensures Valid() && HeldKept(old(hdr), live, large) && supers == old(supers) && pages == old(pages)
      ensures addr - HEADER in old(live) ==>
                && live == old(live) - {addr - HEADER} && large == old(large) && frees == old(frees) + [addr - HEADER]
                && pmm.Used() == old(pmm.Used())
      ensures addr - HEADER in old(large) ==>
                && live == old(live) && large == old(large) - {addr - HEADER} && frees == old(frees)
                && pmm.Used() == old(pmm.Used()) - old(LargeRun(hhdm, large, addr - HEADER))
      ensures Others(pmm.Used(), hhdm, pages, large) == old(Others(pmm.Used(), hhdm, pages, large))
    {
      hide Core, Owned, Others;
      var b := addr - HEADER;
      HeldHeaders(hdr, frees, freeHead, supers, superHead, live, pages, large);
      HeldDiffer(hdr, frees, freeHead, supers, superHead, live, pages, hhdm, pmm.Used(), large);
      if hdr[b].size > SMALL_MAX {
        OthersLess(hhdm, pmm.Used(), pages, large, b);
        FreeLarge(addr);
        return;
      }
      FreeSmall(b);
    }

    /** The list part of kfree. */
    method FreeSmall(b: nat)
      requires Shape() && b in live
      modifies `hdr, `freeHead, `freeTail, `frees, `live
      ensures Shape() && live == old(live) - {b} && frees == old(frees) + [b]
      ensures SameSizes(old(hdr), hdr)
    {
      hide Core;
      CoreFacts(hdr, frees, freeHead, supers, superHead, live, pages);
      GiveBack(hdr, frees, freeHead, supers, superHead, live, pages, b);
      TailIn(hdr, frees, freeHead, supers, superHead, live, pages);
      ghost var was := hdr;
      hdr := hdr[b := hdr[b].(next := 0)];
      if freeHead == 0 {
        hdr := hdr[b := hdr[b].(prev := 0)];
        freeHead, freeTail := b, b;
      } else {
        hdr := hdr[b := hdr[b].(prev := freeTail)];
        hdr := hdr[freeTail := hdr[freeTail].(next := b)];
        freeTail := b;
      }
      assert hdr == Append(was, frees, b);
      frees, live := frees + [b], live - {b};
    }

    /** free_largeblock */
    method FreeLarge(addr: nat)
      requires Valid() && addr >= HEADER && addr - HEADER in large
      modifies pmm.bitmap, pmm.bitmap.bytes, `large
      ensures pmm.Used() == old(pmm.Used()) - old(LargeRun(hhdm, large, addr - HEADER))
      ensures Valid() && large == old(large) - {addr - HEADER}
    {
      hide Core, Owned, LargeHeaders, LargeRun, FrameOf;
      var b := addr - HEADER;
      LargeCount(hdr, large, b);
      var total := hdr[b].size + HEADER;
      var count := total / PAGE;
      var phys := b - hhdm;
      RunInside(hhdm, pmm.Used(), pages, large, b, pmm.Frames());
      OwnedFree(hhdm, pmm.Used(), pages, large, b);
      var ok := pmm.FreePages(phys, count);
      large := large - {b};
    }

    /** A large allocation followed by its kfree gives back exactly the frames it took. */
    method LargeRoundTrip(size: nat) returns (out: Outcome)
      requires Valid() && size < TWO64 && Rounded(size) > SMALL_MAX
      modifies this, pmm.bitmap, pmm.bitmap.bytes
      ensures out.Block? ==> Valid() && pmm.Used() == old(pmm.Used()) && large == old(large) && live == old(live)
    {
      hide Core, Owned, Rounded, LargePages, NoRun;
      RoundedSize(size);
      out := Kmalloc(size);
      if out.Block? {
        Kfree(out.addr);
        assert old(large)[out.addr - HEADER := LargePages(Rounded(size))] - {out.addr - HEADER} == old(large);
      }
    }

    /** kmalloc for a caller that already holds blocks. */
    method MallocMore(size: nat, ghost held: map<nat, nat>, ghost live0: set<nat>, ghost large0: map<nat, nat>)
      returns (out: Outcome)
      requires Valid() && size < TWO64 && Holds(hdr, live, large, held) && Outstanding(live, large, held, live0, large0)
      modifies this, pmm.bitmap, pmm.bitmap.bytes
      ensures out.Block? ==> Valid() && out.addr !in held
      ensures out.Block? ==>
                var held' := held[out.addr := SureSize(size)];
                Holds(hdr, live, large, held') && Outstanding(live, large, held', live0, large0)
      ensures out.Block? ==> Others(pmm.Used(), hhdm, pages, large) == old(Others(pmm.Used(), hhdm, pages, large))
    {
      hide Core, Owned, NoRun, Rounded, LargePages, LargeRun, Holds, Outstanding, SureSize, Others;
      ghost var hdr1, live1, large1 := hdr, live, large;
      out := Kmalloc(size);
      if out.Block? {
        HoldsMore(hdr1, live1, large1, held, hdr, live, large, out.addr, size, live0, large0);
      }
    }

    /** kfree of one of the blocks a caller holds. */
    method FreeOne(a: nat, ghost held: map<nat, nat>, ghost live0: set<nat>, ghost large0: map<nat, nat>)
      requires Valid() && a in held && Holds(hdr, live, large, held) && Outstanding(live, large, held, live0, large0)
      modifies this, pmm.bitmap, pmm.bitmap.bytes
      ensures Valid() && Holds(hdr, live, large, held - {a}) && Outstanding(live, large, held - {a}, live0, large0)
      ensures Others(pmm.Used(), hhdm, pages, large) == old(Others(pmm.Used(), hhdm, pages, large))
    {
      hide Core, Owned, LargeRun, Holds, Outstanding, Others;
      ghost var hdr1, live1, large1 := hdr, live, large;
      HeldNow(hdr, live, large, held, a);
      HeldDiffer(hdr, frees, freeHead, supers, superHead, live, pages, hhdm, pmm.Used(), large);
      Kfree(a);
      HoldsLess(hdr1, live1, large1, held, hdr, live, large, a, live0, large0);
    }

    lemma HeldDisjoint(held: map<nat, nat>)
      requires Valid() && Holds(hdr, live, large, held)
      ensures NoOverlap(held)
    {
      hide Core, Owned;
      HeldHeaders(hdr, frees, freeHead, supers, superHead, live, pages, large);
      forall a, c | a in held && c in held && a != c ensures a + held[a] <= c || c + held[c] <= a {
        assert Granted(hdr, live, large, a, held[a]) && Granted(hdr, live, large, c, held[c]);
        HeldApart(hdr, frees, freeHead, supers, superHead, live, pages, hhdm, pmm.Used(), large, a - HEADER, c - HEADER);
      }
    }

    /** Any run of kmalloc and kfree calls by somebody who holds the blocks `start`, up to the first that does not return a
        block; kfree of anything not held is left out of it. `addrs` are the results, call by call; live0 and large0 are
        what others hold. */
    method Session(ops: seq<HeapOp>, start: map<nat, nat>, ghost live0: set<nat>, ghost large0: map<nat, nat>)
      returns (held: map<nat, nat>, addrs: seq<nat>)
      requires Valid() && forall i :: 0 <= i < |ops| && ops[i].Malloc? ==> ops[i].size < TWO64
      requires Holds(hdr, live, large, start) && Outstanding(live, large, start, live0, large0)
      modifies this, pmm.bitmap, pmm.bitmap.bytes
      ensures |addrs| <= |ops| && (|addrs| < |ops| ==> ops[|addrs|].Malloc?)
      ensures |addrs| == |ops| ==> Valid() && Holds(hdr, live, large, held)
      ensures |addrs| == |ops| ==> Outstanding(live, large, held, live0, large0)
      ensures |addrs| == |ops| ==> held == Replay(start, ops, addrs, |ops|) && NoOverlap(held)
      ensures NewEachTime(start, ops, addrs)
      ensures |addrs| == |ops| ==> Others(pmm.Used(), hhdm, pages, large) == old(Others(pmm.Used(), hhdm, pages, large))
    {
      hide Core, Owned, Holds, Outstanding, NoOverlap, Others;
      held, addrs := start, [];
      for i := 0 to |ops|
        invariant Valid() && Holds(hdr, live, large, held) && Outstanding(live, large, held, live0, large0)
        invariant |addrs| == i && held == Replay(start, ops, addrs, i) && NewEachTime(start, ops, addrs)
        invariant Others(pmm.Used(), hhdm, pages, large) == old(Others(pmm.Used(), hhdm, pages, large))
      {
        ghost var before := addrs;
        match ops[i] {
          case Malloc(size) =>
            var out := MallocMore(size, held, live0, large0);
            if !out.Block? {
              return;
            }
            held, addrs := held[out.addr := SureSize(size)], addrs + [out.addr];
          case Free(a) =>
            if a in held {
              FreeOne(a, held, live0, large0);
            } else {
              assert held - {a} == held;
            }
            held, addrs := held - {a}, addrs + [0];
        }
        ReplayPrefix(start, ops, before, addrs, i);
        NewOnceMore(start, ops, before, addrs);
      }
      HeldDisjoint(held);
    }
  }

  ghost predicate Granted(hdr: Headers, live: set<nat>, large: map<nat, nat>, a: nat, size: nat) {
    a >= HEADER && (a - HEADER in live || a - HEADER in large) && a - HEADER in hdr && hdr[a - HEADER].size >= size
  }

  /** What a caller holds, by address with the size asked for, is handed out and large enough. */
  ghost predicate Holds(hdr: Headers, live: set<nat>, large: map<nat, nat>, held: map<nat, nat>) {
    forall a :: a in held ==> Granted(hdr, live, large, a, held[a])
  }

  ghost predicate HandedOut(live: set<nat>, large: map<nat, nat>, a: nat) {
    a >= HEADER && (a - HEADER in live || a - HEADER in large)
  }

  /** Besides what was handed out before, exactly what the caller holds is. */
  ghost predicate Outstanding(live: set<nat>, large: map<nat, nat>, held: map<nat, nat>, live0: set<nat>,
                              large0: map<nat, nat>) {
    && (forall a :: HandedOut(live, large, a) <==> HandedOut(live0, large0, a) || a in held)
    && (forall a :: a in held ==> !HandedOut(live0, large0, a))
  }

  lemma HoldsNothing(hdr: Headers, live: set<nat>, large: map<nat, nat>)
    ensures Holds(hdr, live, large, map[]) && Outstanding(live, large, map[], live, large)
  {
  }

  lemma HeldNow(hdr: Headers, live: set<nat>, large: map<nat, nat>, held: map<nat, nat>, a: nat)
    requires Holds(hdr, live, large, held) && a in held
    ensures Granted(hdr, live, large, a, held[a])
  {
  }

  /** The sizes of the blocks of one state are the same in another. */
  ghost predicate SizesKept(hdr: Headers, hdr': Headers, live: set<nat>, large: map<nat, nat>) {
    forall b :: b in live || b in large ==> b in hdr && b in hdr' && hdr'[b].size == hdr[b].size
  }

  lemma HoldsMore(hdr: Headers, live: set<nat>, large: map<nat, nat>, held: map<nat, nat>, hdr': Headers, live': set<nat>,
                  large': map<nat, nat>, a: nat, size: nat, live0: set<nat>, large0: map<nat, nat>)
    requires Holds(hdr, live, large, held) && Outstanding(live, large, held, live0, large0) && SizesKept(hdr, hdr', live, large)
    requires a >= HEADER && !HandedOut(live, large, a) && a - HEADER in hdr'
    requires size <= TWO64 - HEADER ==> hdr'[a - HEADER].size >= size
    requires (live' == live + {a - HEADER} && large' == large) ||
             (live' == live && a - HEADER in large' && large' == large[a - HEADER := large'[a - HEADER]])
    ensures a !in held
    ensures var held' := held[a := SureSize(size)];
            Holds(hdr', live', large', held') && Outstanding(live', large', held', live0, large0)
  {
    var held' := held[a := SureSize(size)];
    forall c | c in held' ensures Granted(hdr', live', large', c, held'[c]) {
      if c != a {
        assert Granted(hdr, live, large, c, held[c]);
      }
    }
    forall c ensures HandedOut(live', large', c) <==> HandedOut(live, large, c) || c == a {
    }
  }

  lemma HoldsLess(hdr: Headers, live: set<nat>, large: map<nat, nat>, held: map<nat, nat>, hdr': Headers, live': set<nat>,
                  large': map<nat, nat>, a: nat, live0: set<nat>, large0: map<nat, nat>)
    requires Holds(hdr, live, large, held) && Outstanding(live, large, held, live0, large0) && SizesKept(hdr, hdr', live', large')
    requires a in held && a >= HEADER && live' == live - {a - HEADER} && large' == large - {a - HEADER}
    ensures Holds(hdr', live', large', held - {a}) && Outstanding(live', large', held - {a}, live0, large0)
  {
    forall c | c in held - {a} ensures Granted(hdr', live', large', c, held[c]) {
      assert Granted(hdr, live, large, c, held[c]);
    }
    forall c ensures HandedOut(live', large', c) <==> HandedOut(live, large, c) && c != a {
    }
  }

  /** The ranges a caller holds do not overlap. */
  ghost predicate NoOverlap(held: map<nat, nat>) {
    forall a, c :: a in held && c in held && a != c ==> a + held[a] <= c || c + held[c] <= a
  }

  /** The bytes of a request that a block is sure to hold: all, unless rounding wraps. */
  function SureSize(size: nat): nat {
    if size <= TWO64 - HEADER then size else 0
  }

  /** What the caller of the first n operations holds, if they returned these addresses. */
  function Replay(start: map<nat, nat>, ops: seq<HeapOp>, addrs: seq<nat>, n: nat): map<nat, nat>
    requires n <= |addrs| && n <= |ops|
  {
    if n == 0 then start
    else
      var held := Replay(start, ops, addrs, n - 1);
      match ops[n - 1]
      case Malloc(size) => held[addrs[n - 1] := SureSize(size)]
      case Free(a) => held - {a}
  }

  /** No kmalloc returned an address that was held at the time. */
  ghost predicate NewEachTime(start: map<nat, nat>, ops: seq<HeapOp>, addrs: seq<nat>) {
    |addrs| <= |ops| && forall i :: 0 <= i < |addrs| && ops[i].Malloc? ==> addrs[i] !in Replay(start, ops, addrs, i)
  }

  lemma NewOnceMore(start: map<nat, nat>, ops: seq<HeapOp>, addrs: seq<nat>, addrs': seq<nat>)
    requires NewEachTime(start, ops, addrs) && |addrs'| == |addrs| + 1 <= |ops| && addrs <= addrs'
    requires ops[|addrs|].Malloc? ==> addrs'[|addrs|] !in Replay(start, ops, addrs, |addrs|)
    ensures NewEachTime(start, ops, addrs')
  {
    forall i | 0 <= i < |addrs'| && ops[i].Malloc? ensures addrs'[i] !in Replay(start, ops, addrs', i) {
      ReplayPrefix(start, ops, addrs, addrs', i);
    }
  }

  lemma {:induction false} ReplayPrefix(start: map<nat, nat>, ops: seq<HeapOp>, addrs: seq<nat>, addrs': seq<nat>, n: nat)
    requires n <= |addrs| && n <= |ops| && addrs <= addrs'
    ensures Replay(start, ops, addrs', n) == Replay(start, ops, addrs, n)
  {
    if n > 0 {
      ReplayPrefix(start, ops, addrs, addrs', n - 1);
    }
  }

  /** What the links of node k say about its place in the list. */
  lemma Neighbours(hdr: Headers, list: seq<nat>, head: nat, k: nat)
    requires Linked(hdr, list, head) && k < |list|
    ensures list[k] in hdr && list[k] != 0
    ensures hdr[list[k]].prev == 0 <==> k == 0
    ensures hdr[list[k]].next == 0 <==> k + 1 == |list|
    ensures k > 0 ==> hdr[list[k]].prev == list[k - 1] && list[k - 1] in hdr
    ensures k + 1 < |list| ==> hdr[list[k]].next == list[k + 1] && list[k + 1] in hdr
    ensures head == list[0] && (list[k] == head <==> k == 0) && (list[k] == Last(list) <==> k + 1 == |list|)
    ensures k > 0 && k + 1 < |list| ==> list[k - 1] != list[k + 1]
  {
    assert NodeOk(hdr, list, k);
    if k > 0 {
      assert NodeOk(hdr, list, k - 1);
    }
    if k + 1 < |list| {
      assert NodeOk(hdr, list, k + 1);
    }
  }

  /** A block of one list is neither the head nor the tail of the other. */
  lemma OneListOnly(frees: seq<nat>, supers: seq<nat>, fromFree: bool, k: nat)
    requires Elems(frees) !! Elems(supers) && k < |if fromFree then frees else supers|
    ensures fromFree && supers != [] ==> frees[k] != supers[0]
    ensures !fromFree && frees != [] ==> supers[k] != frees[0] && supers[k] != Last(frees)
  {
    if fromFree {
      assert frees[k] in Elems(frees);
      if supers != [] {
        assert supers[0] in Elems(supers);
      }
    } else {
      assert supers[k] in Elems(supers);
      if frees != [] {
        assert frees[0] in Elems(frees) && frees[|frees| - 1] in Elems(frees);
      }
    }
  }

  /** What taking block k out of one list may rely on. */
  lemma CoreLists(hdr: Headers, frees: seq<nat>, freeHead: nat, supers: seq<nat>, superHead: nat, live: set<nat>,
                  pages: set<nat>, fromFree: bool, k: nat)
    requires Core(hdr, frees, freeHead, supers, superHead, live, pages)
    requires k < |if fromFree then frees else supers|
    ensures Linked(hdr, frees, freeHead) && Linked(hdr, supers, superHead) && Elems(frees) !! Elems(supers) && 0 !in hdr
    ensures (if fromFree then frees else supers)[k] !in live && live <= hdr.Keys
    ensures forall b :: b in live ==> b !in frees && b !in supers
  {
    hide NodeOk, BlockOk, Apart;
    CoreFacts(hdr, frees, freeHead, supers, superHead, live, pages);
    assert (if fromFree then frees else supers)[k] in (if fromFree then frees else supers);
  }

  /** Relinking overwrites the header it found. */
  lemma RelinkTwice(hdr: Headers, list: seq<nat>, k: nat, n: nat, size: nat)
    requires k < |list| && list[k] in hdr
    ensures Relink(hdr[n := Header(size, 0, 0)], list, k, n, size) == Relink(hdr, list, k, n, size)
    ensures list[k] in Relink(hdr, list, k, n, size)
  {
    var header := Header(size, NextOf(list, k), PrevOf(list, k));
    assert hdr[n := Header(size, 0, 0)][n := header] == hdr[n := header];
  }

  /** A split keeps the invariant and every header that is not part of the list. */
  lemma SplitKeeps(hdr: Headers, list: seq<nat>, head: nat, other: seq<nat>, otherHead: nat, live: set<nat>,
                   pages: set<nat>, k: nat, size: nat, hhdm: nat, used: set<nat>, large: map<nat, nat>)
    requires Core(hdr, list, head, other, otherHead, live, pages) && k < |list| && list[k] in hdr
    requires hdr[list[k]].size > size + 2 * HEADER && size % HEADER == 0
    requires Owned(hhdm, used, pages, large) && LargeHeaders(hdr, large)
    ensures var n := list[k] + HEADER + size;
            var hdr' := SplitHeaders(hdr, list, k, n, size);
            && n !in list && n !in other && list[k] in hdr' && hdr'[list[k]].size == size
            && Core(hdr', list[k := n], if k == 0 then n else head, other, otherHead, live + {list[k]}, pages)
            && LargeHeaders(hdr', large) && forall b :: b in live ==> b in hdr && b in hdr' && hdr'[b] == hdr[b]
  {
    hide Core, Owned, SplitHeaders;
    var n := list[k] + HEADER + size;
    SplitOff(hdr, list, head, other, otherHead, live, pages, k, size);
    CoreFacts(hdr, list, head, other, otherHead, live, pages);
    LargeApart(hdr, list, head, other, otherHead, live, pages, hhdm, used, large);
    LargeApart(SplitHeaders(hdr, list, k, n, size), list[k := n], if k == 0 then n else head, other, otherHead,
               live + {list[k]}, pages, hhdm, used, large);
    assert list[k := n][k] == n;
    assert n !in Elems(list) && n !in Elems(other);
  }

  /** Where the wrapped search of the page allocator ends up. */
  lemma WildAddress(count: nat)
    requires 0 < count * PAGE < TWO64
    ensures (TWO64 - count) * PAGE % TWO64 == TWO64 - count * PAGE
  {
    assert (TWO64 - count) * PAGE == (PAGE - 1) * TWO64 + (TWO64 - count * PAGE);
  }

  lemma LowestRunFacts(used: set<nat>, frames: nat, count: nat, f: nat)
    requires LowestRun(used, frames, f, count) && count > 0 && 0 in used
    ensures Range(f, count) !! used && f > 0 && !NoRun(used, frames, count)
  {
    RangeStarts(f, count);
    assert FreeRun(used, frames, f, count);
  }

  /** Blocks handed out have headers. */
  lemma HeldHeaders(hdr: Headers, list: seq<nat>, head: nat, other: seq<nat>, otherHead: nat, live: set<nat>,
                    pages: set<nat>, large: map<nat, nat>)
    requires Core(hdr, list, head, other, otherHead, live, pages) && LargeHeaders(hdr, large)
    ensures forall b :: b in live || b in large ==> b in hdr
  {
    CoreFacts(hdr, list, head, other, otherHead, live, pages);
  }

  /** Every byte of a block that is handed out lies in a frame of the heap. */
  lemma HeldInHeap(hdr: Headers, list: seq<nat>, head: nat, other: seq<nat>, otherHead: nat, live: set<nat>, pages: set<nat>,
                   hhdm: nat, used: set<nat>, large: map<nat, nat>, a: nat, size: nat, k: nat)
    requires Core(hdr, list, head, other, otherHead, live, pages) && Owned(hhdm, used, pages, large) && hhdm % PAGE == 0
    requires LargeHeaders(hdr, large) && Granted(hdr, live, large, a, size) && k < size
    ensures a + k >= hhdm && InHeap(hhdm, pages, large, FrameOf(hhdm, a + k))
  {
    hide Linked, NodeOk;
    var b := a - HEADER;
    if b in large {
      LargeByte(hhdm, b, large[b], HEADER + k);
      assert FrameOf(hhdm, a + k) in LargeRun(hhdm, large, b);
    } else {
      var blocks := live + Elems(list) + Elems(other);
      assert BlockOk(hdr, blocks, pages, b);
      assert Base(b) in pages && Base(b) <= a + k < Base(b) + PAGE;
      PageByte(hhdm, Base(b), a + k);
    }
  }

  lemma HeldAbove(hdr: Headers, list: seq<nat>, head: nat, other: seq<nat>, otherHead: nat, live: set<nat>, pages: set<nat>,
                  hhdm: nat, used: set<nat>, large: map<nat, nat>, a: nat)
    requires Core(hdr, list, head, other, otherHead, live, pages) && Owned(hhdm, used, pages, large)
    requires Granted(hdr, live, large, a, 0)
    ensures a >= hhdm
  {
    hide Linked, NodeOk;
    var b := a - HEADER;
    if b !in large {
      assert BlockOk(hdr, live + Elems(list) + Elems(other), pages, b);
      assert Base(b) in pages && Base(b) <= b;
    }
  }

  lemma LargeByte(hhdm: nat, b: nat, n: nat, k: nat)
    requires b >= hhdm && b % PAGE == 0 && hhdm % PAGE == 0 && k < n * PAGE
    ensures FrameOf(hhdm, b) <= FrameOf(hhdm, b + k) < FrameOf(hhdm, b) + n
  {
    var d := (b - hhdm) / PAGE;
    assert b - hhdm == d * PAGE;
    assert (b + k - hhdm) / PAGE == d + k / PAGE;
  }

  lemma PageByte(hhdm: nat, page: nat, a: nat)
    requires page >= hhdm && page % PAGE == 0 && hhdm % PAGE == 0 && page <= a < page + PAGE
    ensures FrameOf(hhdm, a) == FrameOf(hhdm, page)
  {
  }

  lemma BothLinked(hdr: Headers, list: seq<nat>, head: nat, other: seq<nat>, otherHead: nat, live: set<nat>, pages: set<nat>)
    requires Core(hdr, list, head, other, otherHead, live, pages)
    ensures Linked(hdr, list, head) && Linked(hdr, other, otherHead)
  {
  }

  /** A run of one frame is a free frame. */
  lemma OneFrameRun(used: set<nat>, frames: nat)
    ensures NoRun(used, frames, 1) <==> Range(0, frames) - used == {}
  {
    if !NoRun(used, frames, 1) {
      var f: nat :| FreeRun(used, frames, f, 1);
      assert f in Range(f, 1) && f in Range(0, frames) - used;
    } else {
      forall f: nat | f in Range(0, frames) ensures f in used {
        assert !FreeRun(used, frames, f, 1);
      }
    }
  }

  lemma OneFrame(used: set<nat>, frames: nat, f: nat)
    requires LowestRun(used, frames, f, 1)
    ensures f !in used && f in Range(0, frames) && Range(f, 1) == {f}
  {
    assert f in Range(f, 1);
  }

  lemma SomeFrameExists(used: set<nat>, frames: nat)
    requires 0 in used && used <= Range(0, frames)
    ensures frames >= 1
  {
  }

  lemma RoundedIs(size: nat)
    ensures Rounded(size) == AlignUp64(size, HEADER)
  {
  }

  lemma RoundedRoom(rounded: nat)
    requires rounded % HEADER == 0 && rounded < TWO64
    ensures rounded + HEADER <= TWO64
  {
  }

  /** Small blocks have at most SMALL_MAX bytes and large ones more, so the header tells which a block is. */
  lemma HeldDiffer(hdr: Headers, list: seq<nat>, head: nat, other: seq<nat>, otherHead: nat, live: set<nat>,
                   pages: set<nat>, hhdm: nat, used: set<nat>, large: map<nat, nat>)
    requires Core(hdr, list, head, other, otherHead, live, pages)
    requires Owned(hhdm, used, pages, large) && LargeHeaders(hdr, large)
    ensures forall b :: b in live ==> b in hdr && b !in large && hdr[b].size <= SMALL_MAX
    ensures forall a :: a in large ==> a in hdr && hdr[a].size > SMALL_MAX
  {
    hide Linked, Apart, Range;
    forall b | b in live ensures b in hdr && hdr[b].size <= SMALL_MAX {
      assert BlockOk(hdr, live + Elems(list) + Elems(other), pages, b);
    }
  }

  lemma TailIn(hdr: Headers, list: seq<nat>, head: nat, other: seq<nat>, otherHead: nat, live: set<nat>, pages: set<nat>)
    requires Core(hdr, list, head, other, otherHead, live, pages)
    ensures head == 0 <==> list == []
    ensures list != [] ==> Last(list) in hdr && Last(list) in list && Last(list) != 0
  {
    hide Tiles;
    assert list != [] ==> NodeOk(hdr, list, 0) && NodeOk(hdr, list, |list| - 1);
  }

  /** The frames of a large block are frames of the allocator. */
  lemma RunInside(hhdm: nat, used: set<nat>, pages: set<nat>, large: map<nat, nat>, a: nat, frames: nat)
    requires Owned(hhdm, used, pages, large) && a in large && used <= Range(0, frames) && 0 in used && hhdm % PAGE == 0
    ensures a >= hhdm && (a - hhdm) % PAGE == 0 && (a - hhdm) / PAGE + large[a] <= frames
    ensures LargeRun(hhdm, large, a) == Range((a - hhdm) / PAGE, large[a]) && 0 !in LargeRun(hhdm, large, a)
  {
    hide Range;
    var f, n := FrameOf(hhdm, a), large[a];
    assert LargeRun(hhdm, large, a) == Range(f, n) <= used;
    RangeEnds(f, n, frames);
    SameOffset(a, hhdm);
  }

  lemma RangeEnds(f: nat, n: nat, frames: nat)
    requires n > 0 && Range(f, n) <= Range(0, frames)
    ensures f + n <= frames && (f > 0 ==> 0 !in Range(f, n))
  {
    assert f + n - 1 in Range(f, n);
  }

  lemma SameOffset(a: nat, b: nat)
    requires a >= b && a % PAGE == 0 && b % PAGE == 0
    ensures (a - b) % PAGE == 0
  {
    assert a - b == PAGE * (a / PAGE - b / PAGE);
  }

  lemma LargeCount(hdr: Headers, large: map<nat, nat>, a: nat)
    requires LargeHeaders(hdr, large) && a in large
    ensures a in hdr && (hdr[a].size + HEADER) / PAGE == large[a] && LargeHeaders(hdr, large - {a})
  {
    assert hdr[a].size + HEADER == large[a] * PAGE;
  }

  /** No two blocks handed out, small or large, share an address. */
  lemma HeldApart(hdr: Headers, list: seq<nat>, head: nat, other: seq<nat>, otherHead: nat, live: set<nat>,
                  pages: set<nat>, hhdm: nat, used: set<nat>, large: map<nat, nat>, b: nat, c: nat)
    requires Core(hdr, list, head, other, otherHead, live, pages) && Owned(hhdm, used, pages, large)
    requires LargeHeaders(hdr, large) && hhdm % PAGE == 0 && b != c
    requires b in hdr && c in hdr && (b in live || b in large) && (c in live || c in large)
    ensures Apart(hdr, b, c)
  {
    hide Owned, Linked, Base, LargeRun, Range;
    if b !in live || c !in live {
      var x := if b < c then c else b;
      if !Apart(hdr, b, c) {
        SharedAddress(hdr, live + Elems(list) + Elems(other), pages, hhdm, used, large, b, c, x);
      }
    }
  }

  lemma SharedAddress(hdr: Headers, blocks: set<nat>, pages: set<nat>, hhdm: nat, used: set<nat>, large: map<nat, nat>,
                      b: nat, c: nat, x: nat)
    requires Tiles(hdr, blocks, pages) && Owned(hhdm, used, pages, large) && LargeHeaders(hdr, large)
    requires hhdm % PAGE == 0 && b != c && b in hdr && c in hdr && (b in large || c in large)
    requires (b in blocks || b in large) && (c in blocks || c in large)
    requires b <= x < End(hdr, b)
    ensures !(c <= x < End(hdr, c))
  {
    hide Owned, Tiles, LargeRun, LargeHeaders;
    if c <= x < End(hdr, c) {
      var a, d := if b in large then b else c, if b in large then c else b;
      InRun(hhdm, used, pages, hdr, large, a, x);
      if d in large {
        InRun(hhdm, used, pages, hdr, large, d, x);
        RunsApart(hhdm, used, pages, large, a, d);
      } else {
        InPage(hhdm, used, pages, large, hdr, blocks, d, x, a);
      }
    }
  }

  /** An address inside a large block lies on a frame of its run. */
  lemma InRun(hhdm: nat, used: set<nat>, pages: set<nat>, hdr: Headers, large: map<nat, nat>, a: nat, x: nat)
    requires Owned(hhdm, used, pages, large) && LargeHeaders(hdr, large) && hhdm % PAGE == 0
    requires a in large && a in hdr && a <= x < End(hdr, a)
    ensures x >= hhdm && FrameOf(hhdm, x) in LargeRun(hhdm, large, a)
  {
    var d, n := x - a, large[a];
    SameOffset(a, hhdm);
    assert x - hhdm == PAGE * FrameOf(hhdm, a) + d && d < n * PAGE;
    assert FrameOf(hhdm, x) == FrameOf(hhdm, a) + d / PAGE && d / PAGE < n;
  }

  lemma RunsApart(hhdm: nat, used: set<nat>, pages: set<nat>, large: map<nat, nat>, a: nat, b: nat)
    requires Owned(hhdm, used, pages, large) && a in large && b in large && a != b
    ensures LargeRun(hhdm, large, a) !! LargeRun(hhdm, large, b)
  {
  }

  /** An address inside a small block lies on one of the small-block pages, so in no large block's run. */
  lemma InPage(hhdm: nat, used: set<nat>, pages: set<nat>, large: map<nat, nat>, hdr: Headers, blocks: set<nat>,
               b: nat, x: nat, a: nat)
    requires Owned(hhdm, used, pages, large) && Tiles(hdr, blocks, pages) && hhdm % PAGE == 0
    requires b in blocks && b in hdr && b <= x < End(hdr, b) && a in large && x >= hhdm
    ensures FrameOf(hhdm, x) !in LargeRun(hhdm, large, a)
  {
    hide Base, Range, Apart;
    assert BlockOk(hdr, blocks, pages, b);
    var p := Base(b);
    SameOffset(p, hhdm);
    assert x - hhdm == PAGE * FrameOf(hhdm, p) + (x - p);
    assert FrameOf(hhdm, x) == FrameOf(hhdm, p);
  }

  /** A request above 2^64 - 32 rounds to 0 and is answered with whatever block comes first. */
  lemma RoundingWraps()
    ensures Rounded(TWO64 - 1) == 0 && Rounded(TWO64 - HEADER) == TWO64 - HEADER
  {
  }
}
