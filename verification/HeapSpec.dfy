/** The shape of the kernel heap: intrusive doubly linked lists, and blocks tiling the pages. */
module HeapSpec {
  import opened Machine

  const HEADER: nat := 32
  /** Largest payload of a block that shares a page. */
  const SMALL_MAX: nat := PAGE - HEADER

  /** struct memory_block; 0 is NULL. */
  datatype Header = Header(size: nat, next: nat, prev: nat)

  type Headers = map<nat, Header>

  // ---- Lists.

  ghost function PrevOf(list: seq<nat>, i: nat): nat
    requires i < |list|
  {
    if i == 0 then 0 else list[i - 1]
  }

  ghost function NextOf(list: seq<nat>, i: nat): nat
    requires i < |list|
  {
    if i + 1 < |list| then list[i + 1] else 0
  }

  /** Node i of the list is linked to its neighbours. */
  ghost predicate NodeOk(hdr: Headers, list: seq<nat>, i: nat)
    requires i < |list|
  {
    list[i] != 0 && list[i] in hdr && hdr[list[i]].prev == PrevOf(list, i) && hdr[list[i]].next == NextOf(list, i)
  }

  /** The headers link exactly this list, forwards and backwards, from `head` to NULL. */
  ghost predicate Linked(hdr: Headers, list: seq<nat>, head: nat) {
    NoDup(list) && head == (if list == [] then 0 else list[0]) && forall i :: 0 <= i < |list| ==> NodeOk(hdr, list, i)
  }

  ghost function Last(list: seq<nat>): nat {
    if list == [] then 0 else list[|list| - 1]
  }

  ghost function Elems(list: seq<nat>): set<nat> {
    set b | b in list
  }

  ghost function Without(list: seq<nat>, k: nat): seq<nat>
    requires k < |list|
  {
    list[..k] + list[k + 1..]
  }

  /** Same sizes everywhere. */
  ghost predicate SameSizes(hdr: Headers, hdr': Headers) {
    hdr.Keys <= hdr'.Keys && forall b :: b in hdr ==> hdr'[b].size == hdr[b].size
  }

  /** Only the links of blocks in `touched` changed. */
  ghost predicate LinksOnly(hdr: Headers, hdr': Headers, touched: set<nat>) {
    SameSizes(hdr, hdr') && forall b :: b in hdr && b !in touched ==> hdr'[b] == hdr[b]
  }

  lemma LinkedFrame(hdr: Headers, hdr': Headers, list: seq<nat>, head: nat)
    requires Linked(hdr, list, head) && forall b :: b in list ==> b in hdr' && b in hdr && hdr'[b] == hdr[b]
    ensures Linked(hdr', list, head)
  {
    forall i | 0 <= i < |list| ensures NodeOk(hdr', list, i) {
      assert NodeOk(hdr, list, i) && list[i] in list;
    }
  }

  lemma LinkedMembers(hdr: Headers, list: seq<nat>, head: nat)
    requires Linked(hdr, list, head)
    ensures Elems(list) <= hdr.Keys && 0 !in list
  {
    forall b | b in list ensures b in hdr && b != 0 {
      var i :| 0 <= i < |list| && list[i] == b;
      assert NodeOk(hdr, list, i);
    }
  }

  /** One header rewritten. */
  ghost function SetNext(hdr: Headers, b: nat, next: nat): Headers {
    if b in hdr then hdr[b := hdr[b].(next := next)] else hdr
  }

  ghost function SetPrev(hdr: Headers, b: nat, prev: nat): Headers {
    if b in hdr then hdr[b := hdr[b].(prev := prev)] else hdr
  }

  /** The headers after block k of a list is unlinked: its neighbours point at each other. */
  ghost function Unlink(hdr: Headers, list: seq<nat>, k: nat): Headers
    requires k < |list|
  {
    var hdr1 := if k == 0 then hdr else SetNext(hdr, list[k - 1], NextOf(list, k));
    if k + 1 == |list| then hdr1 else SetPrev(hdr1, list[k + 1], PrevOf(list, k))
  }

  lemma UnlinkLinks(hdr: Headers, list: seq<nat>, head: nat, k: nat)
    requires Linked(hdr, list, head) && k < |list|
    ensures Linked(Unlink(hdr, list, k), Without(list, k), if k == 0 then NextOf(list, k) else head)
    ensures LinksOnly(hdr, Unlink(hdr, list, k), Elems(list))
    ensures Unlink(hdr, list, k).Keys == hdr.Keys
  {
    var list', hdr' := Without(list, k), Unlink(hdr, list, k);
    forall i | 0 <= i < |list'| ensures NodeOk(hdr', list', i) {
      UnlinkNode(hdr, list, k, i);
    }
  }

  lemma UnlinkNode(hdr: Headers, list: seq<nat>, k: nat, i: nat)
    requires NoDup(list) && k < |list| && forall j :: 0 <= j < |list| ==> NodeOk(hdr, list, j)
    requires i < |list| - 1
    ensures NodeOk(Unlink(hdr, list, k), Without(list, k), i)
  {
    var j := if i < k then i else i + 1;
    assert NodeOk(hdr, list, j) && Without(list, k)[i] == list[j];
    if k > 0 {
      assert NodeOk(hdr, list, k - 1);
    }
    if k + 1 < |list| {
      assert NodeOk(hdr, list, k + 1);
    }
  }

  /** The headers after block n, just created, takes the place of block k. */
  ghost function Relink(hdr: Headers, list: seq<nat>, k: nat, n: nat, size: nat): Headers
    requires k < |list|
  {
    var hdr0: Headers := hdr[n := Header(size, NextOf(list, k), PrevOf(list, k))];
    var hdr1 := if k == 0 then hdr0 else SetNext(hdr0, list[k - 1], n);
    if k + 1 == |list| then hdr1 else SetPrev(hdr1, list[k + 1], n)
  }

  lemma RelinkNode(hdr: Headers, list: seq<nat>, k: nat, n: nat, size: nat, i: nat)
    requires NoDup(list) && k < |list| && n !in list && n != 0 && forall j :: 0 <= j < |list| ==> NodeOk(hdr, list, j)
    requires i < |list|
    ensures NodeOk(Relink(hdr, list, k, n, size), list[k := n], i)
  {
    assert NodeOk(hdr, list, i);
    if k > 0 {
      assert NodeOk(hdr, list, k - 1);
    }
    if k + 1 < |list| {
      assert NodeOk(hdr, list, k + 1);
    }
  }

  lemma RelinkLinks(hdr: Headers, list: seq<nat>, head: nat, k: nat, n: nat, size: nat)
    requires Linked(hdr, list, head) && k < |list| && n !in list && n != 0
    ensures Linked(Relink(hdr, list, k, n, size), list[k := n], if k == 0 then n else head)
    ensures AddedBlock(hdr, Relink(hdr, list, k, n, size), n, size, Elems(list))
  {
    var list', hdr' := list[k := n], Relink(hdr, list, k, n, size);
    forall i | 0 <= i < |list'| ensures NodeOk(hdr', list', i) {
      RelinkNode(hdr, list, k, n, size, i);
    }
  }

  /** Header n was written; of the others only links of blocks in `touched` changed. */
  ghost predicate AddedBlock(hdr: Headers, hdr': Headers, n: nat, size: nat, touched: set<nat>) {
    && hdr'.Keys == hdr.Keys + {n} && hdr'[n].size == size
    && (forall b :: b in hdr && b != n ==> hdr'[b].size == hdr[b].size)
    && (forall b :: b in hdr && b != n && b !in touched ==> hdr'[b] == hdr[b])
  }

  ghost function Append(hdr: Headers, list: seq<nat>, b: nat): Headers
    requires b in hdr
  {
    SetNext(hdr[b := hdr[b].(next := 0, prev := Last(list))], Last(list), b)
  }

  lemma AppendLinks(hdr: Headers, list: seq<nat>, head: nat, b: nat)
    requires Linked(hdr, list, head) && b !in list && b != 0 && b in hdr && 0 !in hdr
    ensures Linked(Append(hdr, list, b), list + [b], if list == [] then b else head)
    ensures LinksOnly(hdr, Append(hdr, list, b), Elems(list) + {b}) && Append(hdr, list, b).Keys == hdr.Keys
  {
    var list', hdr' := list + [b], Append(hdr, list, b);
    forall i | 0 <= i < |list'| ensures NodeOk(hdr', list', i) {
      if i < |list| {
        assert NodeOk(hdr, list, i) && NodeOk(hdr, list, |list| - 1);
      }
    }
    if list != [] {
      assert NodeOk(hdr, list, |list| - 1) && Last(list) in list;
    }
  }

  ghost function Push(hdr: Headers, head: nat, b: nat, size: nat): Headers {
    SetPrev(hdr[b := Header(size, head, 0)], head, b)
  }

  lemma PushLinks(hdr: Headers, list: seq<nat>, head: nat, b: nat, size: nat)
    requires Linked(hdr, list, head) && b !in list && b != 0 && 0 !in hdr
    ensures Linked(Push(hdr, head, b, size), [b] + list, b)
    ensures AddedBlock(hdr, Push(hdr, head, b, size), b, size, Elems(list))
  {
    var list', hdr' := [b] + list, Push(hdr, head, b, size);
    forall i | 0 <= i < |list'| ensures NodeOk(hdr', list', i) {
      if i > 0 {
        assert NodeOk(hdr, list, i - 1) && NodeOk(hdr, list, 0);
      }
    }
    if list != [] {
      assert NodeOk(hdr, list, 0) && head in list;
    }
  }
}

/** Blocks tile the pages the heap took from the allocator. */
module HeapTiles {
  import opened Machine
  import opened HeapSpec

  /** The page an address lies on. */
  function Base(a: nat): (p: nat)
    ensures p <= a < p + PAGE
  {
    a - a % PAGE
  }

  lemma SameBase(a: nat, p: nat)
    requires p % PAGE == 0
    ensures Base(a) == p <==> p <= a < p + PAGE
  {
  }

  /** First address after the block, header and payload. */
  ghost function End(hdr: Headers, b: nat): nat
    requires b in hdr
  {
    b + HEADER + hdr[b].size
  }

  /** The block is aligned, stays on its page, and ends where the page or another block does. */
  ghost predicate BlockOk(hdr: Headers, blocks: set<nat>, pages: set<nat>, b: nat) {
    && b in hdr && b % HEADER == 0 && hdr[b].size % HEADER == 0 && Base(b) in pages
    && End(hdr, b) <= Base(b) + PAGE && (End(hdr, b) == Base(b) + PAGE || End(hdr, b) in blocks)
  }

  ghost predicate Apart(hdr: Headers, b: nat, c: nat)
    requires b in hdr && c in hdr
  {
    End(hdr, b) <= c || End(hdr, c) <= b
  }

  /** The blocks tile the pages: every page starts with one, each is followed by the next, none overlap. */
  ghost predicate Tiles(hdr: Headers, blocks: set<nat>, pages: set<nat>) {
    && blocks <= hdr.Keys
    && (forall b {:trigger BlockOk(hdr, blocks, pages, b)} :: b in blocks ==> BlockOk(hdr, blocks, pages, b))
    && (forall p :: p in pages ==> p in blocks && p % PAGE == 0)
    && (forall b, c {:trigger Apart(hdr, b, c)} :: b in blocks && c in blocks && b != c ==> Apart(hdr, b, c))
  }

  /** Every address of a page lies in a block. */
  lemma {:induction false} NoGap(hdr: Headers, blocks: set<nat>, pages: set<nat>, a: nat, b: nat) returns (c: nat)
    requires Tiles(hdr, blocks, pages) && b in blocks && Base(b) == Base(a) && b <= a
    ensures c in blocks && c <= a < End(hdr, c)
    decreases Base(a) + PAGE - b
  {
    assert BlockOk(hdr, blocks, pages, b);
    if a < End(hdr, b) {
      c := b;
    } else {
      assert BlockOk(hdr, blocks, pages, End(hdr, b));
      BasesAligned(b);
      SameBase(End(hdr, b), Base(b));
      c := NoGap(hdr, blocks, pages, a, End(hdr, b));
    }
  }

  lemma BasesAligned(a: nat)
    ensures Base(a) % PAGE == 0
  {
  }

  /** Every address of an acquired page lies in exactly one block. */
  lemma TiledExactly(hdr: Headers, blocks: set<nat>, pages: set<nat>, a: nat)
    requires Tiles(hdr, blocks, pages) && Base(a) in pages
    ensures exists b :: b in blocks && b <= a < End(hdr, b)
    ensures forall b, c :: b in blocks && c in blocks && b <= a < End(hdr, b) && c <= a < End(hdr, c) ==> b == c
  {
    BasesAligned(a);
    SameBase(Base(a), Base(a));
    var b := NoGap(hdr, blocks, pages, a, Base(a));
    forall b, c | b in blocks && c in blocks && b <= a < End(hdr, b) && c <= a < End(hdr, c) ensures b == c {
      assert b != c ==> Apart(hdr, b, c);
    }
  }

  /** Tiling depends only on the sizes of the blocks. */
  lemma TilesFrame(hdr: Headers, hdr': Headers, blocks: set<nat>, pages: set<nat>)
    requires Tiles(hdr, blocks, pages)
    requires forall b :: b in blocks ==> b in hdr' && hdr'[b].size == hdr[b].size
    ensures Tiles(hdr', blocks, pages)
  {
    hide Base;
    forall b | b in blocks ensures BlockOk(hdr', blocks, pages, b) {
      assert BlockOk(hdr, blocks, pages, b);
    }
    forall b, c | b in blocks && c in blocks && b != c ensures Apart(hdr', b, c) {
      assert Apart(hdr, b, c);
    }
  }

  lemma TilesSizes(hdr: Headers, hdr': Headers, blocks: set<nat>, pages: set<nat>)
    requires Tiles(hdr, blocks, pages) && SameSizes(hdr, hdr')
    ensures Tiles(hdr', blocks, pages)
  {
    TilesFrame(hdr, hdr', blocks, pages);
  }

  /** hdr' gives block b the size `size` and block n what is left of b behind it. */
  ghost predicate Split(hdr: Headers, hdr': Headers, b: nat, n: nat, size: nat) {
    && b in hdr && n == b + HEADER + size && hdr[b].size > size + 2 * HEADER && size % HEADER == 0
    && hdr.Keys + {n} <= hdr'.Keys && hdr'[b].size == size && hdr'[n].size == hdr[b].size - (size + HEADER)
    && forall c :: c in hdr && c != b && c != n ==> hdr'[c].size == hdr[c].size
  }

  lemma SplitIsNew(hdr: Headers, blocks: set<nat>, pages: set<nat>, b: nat, n: nat)
    requires Tiles(hdr, blocks, pages) && b in blocks && b in hdr && b < n < End(hdr, b)
    ensures n !in blocks
  {
    assert n in blocks ==> BlockOk(hdr, blocks, pages, n) && Apart(hdr, b, n);
  }

  lemma SplitTiles(hdr: Headers, hdr': Headers, blocks: set<nat>, pages: set<nat>, b: nat, n: nat, size: nat)
    requires Tiles(hdr, blocks, pages) && b in blocks && Split(hdr, hdr', b, n, size)
    ensures n !in blocks && Tiles(hdr', blocks + {n}, pages)
  {
    hide Base;
    assert BlockOk(hdr, blocks, pages, b);
    SplitIsNew(hdr, blocks, pages, b, n);
    BasesAligned(b);
    SameBase(n, Base(b));
    forall c | c in blocks + {n} ensures BlockOk(hdr', blocks + {n}, pages, c) {
      SplitBlockOk(hdr, hdr', blocks, pages, b, n, size, c);
    }
    forall c, d | c in blocks + {n} && d in blocks + {n} && c != d ensures Apart(hdr', c, d) {
      SplitApart(hdr, hdr', blocks, pages, b, n, size, c, d);
    }
  }

  lemma SplitBlockOk(hdr: Headers, hdr': Headers, blocks: set<nat>, pages: set<nat>, b: nat, n: nat, size: nat, c: nat)
    requires forall d {:trigger BlockOk(hdr, blocks, pages, d)} :: d in blocks ==> BlockOk(hdr, blocks, pages, d)
    requires b in blocks && Split(hdr, hdr', b, n, size)
    requires n !in blocks && Base(n) == Base(b) && c in blocks + {n}
    ensures BlockOk(hdr', blocks + {n}, pages, c)
  {
    hide Base;
    assert BlockOk(hdr, blocks, pages, b);
    if c != n {
      assert BlockOk(hdr, blocks, pages, c);
    }
  }

  lemma SplitApart(hdr: Headers, hdr': Headers, blocks: set<nat>, pages: set<nat>, b: nat, n: nat, size: nat,
                   c: nat, d: nat)
    requires Tiles(hdr, blocks, pages) && b in blocks && Split(hdr, hdr', b, n, size) && n !in blocks
    requires c in blocks + {n} && d in blocks + {n} && c != d
    ensures c in hdr' && d in hdr' && Apart(hdr', c, d)
  {
    hide Base;
    var (c0, d0) := (if c == n then b else c, if d == n then b else d);
    assert BlockOk(hdr, blocks, pages, c0) && BlockOk(hdr, blocks, pages, d0);
    if c0 != d0 {
      assert Apart(hdr, c0, d0);
    }
  }

  /** A page fresh from the allocator, one block from end to end. */
  lemma PageTiles(hdr: Headers, hdr': Headers, blocks: set<nat>, pages: set<nat>, p: nat)
    requires Tiles(hdr, blocks, pages) && p % PAGE == 0 && p !in pages
    requires p in hdr' && hdr'[p].size == SMALL_MAX
    requires forall b :: b in hdr && b != p ==> b in hdr' && hdr'[b].size == hdr[b].size
    ensures p !in blocks && Tiles(hdr', blocks + {p}, pages + {p})
  {
    hide Base;
    SameBase(p, p);
    PagesAligned(p);
    assert p in blocks ==> BlockOk(hdr, blocks, pages, p);
    forall b | b in blocks + {p} ensures BlockOk(hdr', blocks + {p}, pages + {p}, b) {
      if b == p {
        assert hdr'[p].size % HEADER == 0;
      } else {
        assert BlockOk(hdr, blocks, pages, b);
        assert End(hdr', b) == End(hdr, b);
      }
    }
    forall b, c | b in blocks + {p} && c in blocks + {p} && b != c ensures Apart(hdr', b, c) {
      PageApart(hdr, hdr', blocks, pages, p, b, c);
    }
  }

  lemma PagesAligned(p: nat)
    requires p % PAGE == 0
    ensures p % HEADER == 0
  {
    var q := p / PAGE;
    assert p == HEADER * (128 * q);
  }

  lemma PageApart(hdr: Headers, hdr': Headers, blocks: set<nat>, pages: set<nat>, p: nat, b: nat, c: nat)
    requires Tiles(hdr, blocks, pages) && p % PAGE == 0 && p !in pages && p !in blocks
    requires p in hdr' && hdr'[p].size == SMALL_MAX
    requires forall d :: d in hdr && d != p ==> d in hdr' && hdr'[d].size == hdr[d].size
    requires b in blocks + {p} && c in blocks + {p} && b != c
    ensures b in hdr' && c in hdr' && Apart(hdr', b, c)
  {
    hide Base;
    if b != p && c != p {
      assert BlockOk(hdr, blocks, pages, b) && BlockOk(hdr, blocks, pages, c) && Apart(hdr, b, c);
    } else {
      var d := if b == p then c else b;
      assert BlockOk(hdr, blocks, pages, d);
      OtherPage(d, p, End(hdr, d));
    }
  }

  /** What ends on another page lies before or behind page p. */
  lemma OtherPage(b: nat, p: nat, end: nat)
    requires p % PAGE == 0 && Base(b) != p && end <= Base(b) + PAGE
    ensures end <= p || p + PAGE <= b
  {
    BasesAligned(b);
  }

  /** Payloads of two blocks share no byte, and no payload byte is a header byte of another block. */
  lemma LivePayloadsDisjoint(hdr: Headers, blocks: set<nat>, pages: set<nat>, b: nat, c: nat, x: nat)
    requires Tiles(hdr, blocks, pages) && b in blocks && c in blocks && b != c
    requires b in hdr && c in hdr && b + HEADER <= x < End(hdr, b)
    ensures !(c <= x < End(hdr, c))
  {
    assert Apart(hdr, b, c);
  }
}

/** What every heap operation keeps: two disjoint lists over blocks that tile the pages. */
module HeapInvariant {
  import opened Machine
  import opened HeapSpec
  import opened HeapTiles

  /** Seen from one list (`list`) beside the other, with `live` the small blocks handed out. */
  ghost predicate Core(hdr: Headers, list: seq<nat>, head: nat, other: seq<nat>, otherHead: nat, live: set<nat>,
                       pages: set<nat>) {
    && Linked(hdr, list, head) && Linked(hdr, other, otherHead) && 0 !in hdr
    && live !! Elems(list) && live !! Elems(other) && Elems(list) !! Elems(other)
    && Tiles(hdr, live + Elems(list) + Elems(other), pages)
  }

  lemma CoreSwap(hdr: Headers, list: seq<nat>, head: nat, other: seq<nat>, otherHead: nat, live: set<nat>, pages: set<nat>)
    requires Core(hdr, list, head, other, otherHead, live, pages)
    ensures Core(hdr, other, otherHead, list, head, live, pages)
  {
    hide Linked, Tiles;
    assert live + Elems(list) + Elems(other) == live + Elems(other) + Elems(list);
  }

  lemma WithoutElems(list: seq<nat>, k: nat)
    requires k < |list| && NoDup(list)
    ensures Elems(Without(list, k)) == Elems(list) - {list[k]} && list[k] in list
    ensures Last(Without(list, k)) == if k + 1 == |list| then PrevOf(list, k) else Last(list)
  {
    var list' := Without(list, k);
    forall b | b in Elems(list) - {list[k]} ensures b in list' {
      var i :| 0 <= i < |list| && list[i] == b;
      assert list'[if i < k then i else i - 1] == b;
    }
    forall b | b in list' ensures b in Elems(list) - {list[k]} {
      var i :| 0 <= i < |list'| && list'[i] == b;
      assert list[if i < k then i else i + 1] == b;
    }
  }

  /** Block k leaves its list and is handed out whole. */
  lemma TakeWhole(hdr: Headers, list: seq<nat>, head: nat, other: seq<nat>, otherHead: nat, live: set<nat>,
                  pages: set<nat>, k: nat)
    requires Core(hdr, list, head, other, otherHead, live, pages) && k < |list|
    ensures Core(Unlink(hdr, list, k), Without(list, k), if k == 0 then NextOf(list, k) else head, other, otherHead,
                 live + {list[k]}, pages)
    ensures SameSizes(hdr, Unlink(hdr, list, k)) && Unlink(hdr, list, k).Keys == hdr.Keys
    ensures forall b :: b in hdr && b !in list ==> Unlink(hdr, list, k)[b] == hdr[b]
  {
    hide Tiles, NodeOk, Unlink;
    var hdr' := Unlink(hdr, list, k);
    UnlinkLinks(hdr, list, head, k);
    LinkedMembers(hdr, other, otherHead);
    LinkedFrame(hdr, hdr', other, otherHead);
    WithoutElems(list, k);
    assert live + {list[k]} + Elems(Without(list, k)) + Elems(other) == live + Elems(list) + Elems(other);
    TilesSizes(hdr, hdr', live + Elems(list) + Elems(other), pages);
  }

  lemma UpdateElems(list: seq<nat>, k: nat, n: nat)
    requires k < |list| && NoDup(list) && n !in list
    ensures Elems(list[k := n]) == Elems(list) - {list[k]} + {n} && list[k] in list
    ensures Last(list[k := n]) == if k + 1 == |list| then n else Last(list)
  {
    var list' := list[k := n];
    forall b | b in Elems(list) - {list[k]} + {n} ensures b in list' {
      if b == n {
        assert list'[k] == n;
      } else {
        var i :| 0 <= i < |list| && list[i] == b;
        assert list'[i] == b;
      }
    }
  }

  /** The headers after a split: n takes over the rest of block k, which keeps `size`. */
  ghost function SplitHeaders(hdr: Headers, list: seq<nat>, k: nat, n: nat, size: nat): Headers
    requires k < |list| && list[k] in hdr && hdr[list[k]].size >= size + HEADER
  {
    var hdr1 := Relink(hdr, list, k, n, hdr[list[k]].size - (size + HEADER));
    if list[k] in hdr1 then hdr1[list[k] := hdr1[list[k]].(size := size)] else hdr1
  }

  /** Block k is handed out with `size` bytes, and what is left of it takes its place in the list. */
  lemma SplitOff(hdr: Headers, list: seq<nat>, head: nat, other: seq<nat>, otherHead: nat, live: set<nat>,
                 pages: set<nat>, k: nat, size: nat)
    requires Core(hdr, list, head, other, otherHead, live, pages) && k < |list| && list[k] in hdr
    requires hdr[list[k]].size > size + 2 * HEADER && size % HEADER == 0
    ensures var n := list[k] + HEADER + size;
            var hdr' := SplitHeaders(hdr, list, k, n, size);
            && n !in live + Elems(list) + Elems(other)
            && Core(hdr', list[k := n], if k == 0 then n else head, other, otherHead, live + {list[k]}, pages)
            && list[k] in hdr' && hdr'[list[k]].size == size && hdr.Keys <= hdr'.Keys && hdr'.Keys == hdr.Keys + {n}
            && (forall b :: b in hdr && b != n && b !in list ==> hdr'[b] == hdr[b])
  {
    hide Tiles, Base, Linked, SplitHeaders;
    var b, n := list[k], list[k] + HEADER + size;
    var blocks := live + Elems(list) + Elems(other);
    var hdr' := SplitHeaders(hdr, list, k, n, size);
    assert b in list;
    SplitIsNew(hdr, blocks, pages, b, n);
    SplitLinks(hdr, list, head, k, n, size);
    LinkedMembers(hdr, other, otherHead);
    forall c | c in other ensures c in hdr && c != n && c !in list {
      assert c in Elems(other) && c !in Elems(list);
    }
    LinkedFrame(hdr, hdr', other, otherHead);
    SplitTiles(hdr, hdr', blocks, pages, b, n, size);
    assert live + {b} + Elems(list[k := n]) + Elems(other) == blocks + {n};
  }

  lemma SplitLinks(hdr: Headers, list: seq<nat>, head: nat, k: nat, n: nat, size: nat)
    requires Linked(hdr, list, head) && k < |list| && list[k] in hdr && n !in list && n != 0
    requires hdr[list[k]].size >= size + HEADER
    ensures var hdr' := SplitHeaders(hdr, list, k, n, size);
            && Linked(hdr', list[k := n], if k == 0 then n else head)
            && hdr'.Keys == hdr.Keys + {n} && hdr'[list[k]].size == size
            && hdr'[n].size == hdr[list[k]].size - (size + HEADER)
            && (forall c :: c in hdr && c != list[k] && c != n ==> hdr'[c].size == hdr[c].size)
            && (forall c :: c in hdr && c != n && c !in list ==> hdr'[c] == hdr[c])
    ensures Elems(list[k := n]) == Elems(list) - {list[k]} + {n} && list[k] in list
    ensures Last(list[k := n]) == if k + 1 == |list| then n else Last(list)
  {
    hide NodeOk, Relink;
    var b := list[k];
    var hdr1 := Relink(hdr, list, k, n, hdr[b].size - (size + HEADER));
    RelinkLinks(hdr, list, head, k, n, hdr[b].size - (size + HEADER));
    UpdateElems(list, k, n);
    assert b !in Elems(list[k := n]);
    LinkedMembers(hdr1, list[k := n], if k == 0 then n else head);
    LinkedFrame(hdr1, SplitHeaders(hdr, list, k, n, size), list[k := n], if k == 0 then n else head);
  }

  /** A fresh page joins the front of `list` as one block. */
  lemma AddPage(hdr: Headers, list: seq<nat>, head: nat, other: seq<nat>, otherHead: nat, live: set<nat>,
                pages: set<nat>, p: nat)
    requires Core(hdr, list, head, other, otherHead, live, pages) && p % PAGE == 0 && p !in pages && p != 0
    ensures Core(Push(hdr, head, p, SMALL_MAX), [p] + list, p, other, otherHead, live, pages + {p})
    ensures var hdr' := Push(hdr, head, p, SMALL_MAX);
            && p !in live + Elems(list) + Elems(other) && p in hdr' && hdr'[p].size == SMALL_MAX
            && hdr'.Keys == hdr.Keys + {p} && forall b :: b in hdr && b != p && b !in list ==> hdr'[b] == hdr[b]
  {
    hide NodeOk, Base, BlockOk;
    var hdr', blocks := Push(hdr, head, p, SMALL_MAX), live + Elems(list) + Elems(other);
    NewPageIsNew(hdr, blocks, pages, p);
    PushLinks(hdr, list, head, p, SMALL_MAX);
    LinkedMembers(hdr, other, otherHead);
    LinkedFrame(hdr, hdr', other, otherHead);
    PageTiles(hdr, hdr', blocks, pages, p);
    assert Elems([p] + list) == Elems(list) + {p};
    assert live + Elems([p] + list) + Elems(other) == blocks + {p};
  }

  lemma NewPageIsNew(hdr: Headers, blocks: set<nat>, pages: set<nat>, p: nat)
    requires Tiles(hdr, blocks, pages) && p % PAGE == 0 && p !in pages
    ensures p !in blocks
  {
    SameBase(p, p);
    assert p in blocks ==> BlockOk(hdr, blocks, pages, p);
  }

  /** A live block goes back, to the end of `list`. */
  lemma GiveBack(hdr: Headers, list: seq<nat>, head: nat, other: seq<nat>, otherHead: nat, live: set<nat>,
                 pages: set<nat>, b: nat)
    requires Core(hdr, list, head, other, otherHead, live, pages) && b in live && b in hdr
    ensures Core(Append(hdr, list, b), list + [b], if list == [] then b else head, other, otherHead, live - {b}, pages)
    ensures SameSizes(hdr, Append(hdr, list, b)) && Append(hdr, list, b).Keys == hdr.Keys
    ensures forall c :: c in hdr && c != b && c !in list ==> Append(hdr, list, b)[c] == hdr[c]
  {
    hide Tiles, NodeOk;
    var hdr' := Append(hdr, list, b);
    assert b !in list && b !in other by {
      assert b !in Elems(list) && b !in Elems(other);
    }
    AppendLinks(hdr, list, head, b);
    LinkedMembers(hdr, other, otherHead);
    LinkedFrame(hdr, hdr', other, otherHead);
    assert Elems(list + [b]) == Elems(list) + {b};
    assert live - {b} + Elems(list + [b]) + Elems(other) == live + Elems(list) + Elems(other);
    TilesSizes(hdr, hdr', live + Elems(list) + Elems(other), pages);
  }

  /** Headers of other addresses do not matter. */
  lemma CoreOutside(hdr: Headers, list: seq<nat>, head: nat, other: seq<nat>, otherHead: nat, live: set<nat>,
                    pages: set<nat>, a: nat, header: Header)
    requires Core(hdr, list, head, other, otherHead, live, pages) && a != 0
    requires a !in live + Elems(list) + Elems(other)
    ensures Core(hdr[a := header], list, head, other, otherHead, live, pages)
  {
    hide NodeOk, BlockOk, Apart;
    assert a !in Elems(list) && a !in Elems(other);
    LinkedMembers(hdr, list, head);
    LinkedMembers(hdr, other, otherHead);
    LinkedFrame(hdr, hdr[a := header], list, head);
    LinkedFrame(hdr, hdr[a := header], other, otherHead);
    TilesFrame(hdr, hdr[a := header], live + Elems(list) + Elems(other), pages);
  }
}
