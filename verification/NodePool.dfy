/** The fixed-size node allocator working in place on the bytes of memory.

The free list and the block chain live in the very blocks that hold the clients' buffers.  `Valid` ties the
bytes to the abstract pool of PoolModel; every method keeps it and moves the abstract pool as PoolModel says. */
module NodePool {
  import opened AddressSpace
  import opened Arithmetic
  import opened NodeLayout
  import M = PoolModel
  import opened Seqs

  /** The successor of element `i`, null behind the last. */
  function After(s: seq<nat>, i: nat): nat
    requires i < |s|
  {
    if i + 1 < |s| then s[i + 1] else 0
  }

  ghost predicate LinkTo(m: Memory, word: nat, a: nat, next: nat) {
    Mapped(m, a, word) && LoadWord(m, a, word) == next
  }

  /** From `head`, the link words of the listed addresses lead through the list to the null pointer. */
  ghost predicate Chain(m: Memory, word: nat, head: nat, s: seq<nat>) {
    && head == (if s == [] then 0 else s[0])
    && forall i {:trigger After(s, i)} :: 0 <= i < |s| ==> LinkTo(m, word, s[i], After(s, i))
  }

  lemma ChainFrame(m: Memory, m': Memory, word: nat, head: nat, s: seq<nat>)
    requires Chain(m, word, head, s)
    requires forall a :: a in s ==> SameOn(m, m', a, word)
    ensures Chain(m', word, head, s)
  {
    forall i | 0 <= i < |s| ensures LinkTo(m', word, s[i], After(s, i)) {
      assert s[i] in s;
      LoadFrame(m, m', s[i], word);
    }
  }

  lemma ChainPush(m: Memory, word: nat, head: nat, s: seq<nat>, a: nat)
    requires Chain(m, word, head, s) && LinkTo(m, word, a, head)
    ensures Chain(m, word, a, [a] + s)
  {
    var t := [a] + s;
    forall i | 0 <= i < |t| ensures LinkTo(m, word, t[i], After(t, i)) {
      if i > 0 { assert t[i] == s[i - 1] && After(t, i) == After(s, i - 1); }
    }
  }

  lemma ChainPop(m: Memory, word: nat, head: nat, s: seq<nat>)
    requires Chain(m, word, head, s) && s != []
    ensures Mapped(m, head, word) && Chain(m, word, LoadWord(m, head, word), s[1..])
  {
    var t := s[1..];
    assert LinkTo(m, word, s[0], After(s, 0));
    forall i | 0 <= i < |t| ensures LinkTo(m, word, t[i], After(t, i)) {
      assert t[i] == s[i + 1] && After(t, i) == After(s, i + 1);
    }
  }

  /** What the block allocator hands out: memory nobody has, with whatever bytes it holds. */
  datatype Region = Region(base: nat, bytes: seq<Byte>)

  ghost predicate FreshRegion(L: Layout, m: Memory, r: Region) {
    && 0 < r.base && r.base + L.blockBytes < WordLimit(L.word)
    && |r.bytes| == L.blockBytes
    && Unmapped(m, r.base, L.blockBytes)
  }

  function MapRegion(m: Memory, r: Region): (m': Memory)
    ensures forall a: nat :: a in m' <==> a in m || r.base <= a < r.base + |r.bytes|
    ensures forall a: nat :: a in m && !(r.base <= a < r.base + |r.bytes|) ==> a in m' && m'[a] == m[a]
  {
    m + map a: nat | r.base <= a < r.base + |r.bytes| && Inside(a, r) :: r.bytes[a - r.base]
  }

  predicate Inside(a: nat, r: Region) {
    r.base <= a < r.base + |r.bytes|
  }

  function UnmapRange(m: Memory, base: nat, n: nat): (m': Memory)
    ensures forall a: nat :: a in m' <==> a in m && !(base <= a < base + n)
    ensures forall a: nat :: a in m' ==> m'[a] == m[a]
  {
    map a: nat | a in m && !(base <= a < base + n) :: m[a]
  }

  ghost predicate ValidState(L: Layout, m: Memory, blockHeader: nat, freeHeader: nat, s: M.State) {
    && L.Valid()
    && M.Partition(L, s)
    && BlocksMapped(L, m, s.blocks)
    && Chain(m, L.word, blockHeader, s.blocks)
    && Chain(m, L.word, freeHeader, s.free)
  }

  /** A node of a valid pool: not null, a storable address, mapped from its link word to its end. */
  lemma NodeFacts(L: Layout, m: Memory, bh: nat, fh: nat, s: M.State, x: nat)
    requires ValidState(L, m, bh, fh, s) && (x in s.free || x in s.live)
    ensures L.IsNode(s.blocks, x)
    ensures 0 < x < WordLimit(L.word) && Mapped(m, x, L.stride)
  {
    assert L.IsNode(s.blocks, x);
    var b: nat, i: nat :| b in s.blocks && i < L.count && x == L.NodeAt(b, i);
    NodeInside(L, b, i);
  }

  lemma BlockLinkMapped(L: Layout, m: Memory, bh: nat, fh: nat, s: M.State, b: nat)
    requires ValidState(L, m, bh, fh, s) && b in s.blocks
    ensures Mapped(m, b, L.word)
  {
    NodeInside(L, b, 0);
    assert Mapped(m, b, L.blockBytes);
  }

  lemma HeaderFits(L: Layout, m: Memory, bh: nat, fh: nat, s: M.State)
    requires ValidState(L, m, bh, fh, s)
    ensures bh < WordLimit(L.word)
  {
    if s.blocks != [] { assert s.blocks[0] in s.blocks; }
  }

  /** The client of node `x` sees the same bytes in both memories. */
  ghost predicate SameBuffer(L: Layout, m: Memory, m': Memory, x: nat) {
    SameOn(m, m', x + L.word, L.nodeSize)
  }

  predicate BuffersApart(L: Layout, x: nat, y: nat) {
    Apart(x + L.word, L.nodeSize, y + L.word, L.nodeSize)
  }

  /** The buffer of node `x` does not touch the link word at `a`. */
  predicate BufferOffLink(L: Layout, x: nat, a: nat) {
    Apart(x + L.word, L.nodeSize, a, L.word)
  }

  /** A node's buffer against another node as a whole, and against any node's link word. */
  lemma BufferVersusNode(L: Layout, blocks: seq<nat>, x: nat, y: nat)
    requires L.Valid() && L.BlocksApart(blocks) && L.IsNode(blocks, x) && L.IsNode(blocks, y)
    ensures BufferOffLink(L, x, y)
    ensures x != y ==> BuffersApart(L, x, y)
  {
    if x != y { NodesApart(L, blocks, x, y); }
  }

  /** The headline: no two live buffers overlap, each lies inside one block, and no buffer overlaps any link
  word, be it of a node, free or live, or of a block. */
  lemma LiveBuffersAreApart(L: Layout, m: Memory, bh: nat, fh: nat, s: M.State, x: nat)
    requires ValidState(L, m, bh, fh, s) && x in s.live
    ensures forall y :: y in s.live && y != x ==> BuffersApart(L, x, y)
    ensures forall y :: y in s.free || y in s.live ==> BufferOffLink(L, x, y)
    ensures forall b :: b in s.blocks ==> BufferOffLink(L, x, b)
    ensures InsideSomeBlock(L, s.blocks, x + L.word, L.nodeSize)
  {
    assert L.IsNode(s.blocks, x);
    forall y | y in s.free || y in s.live
      ensures BufferOffLink(L, x, y)
      ensures x != y ==> BuffersApart(L, x, y)
    {
      assert L.IsNode(s.blocks, y);
      BufferVersusNode(L, s.blocks, x, y);
    }
    forall b | b in s.blocks ensures BufferOffLink(L, x, b) {
      NodeHeaderApart(L, s.blocks, x, b);
    }
    BufferInsideBlock(L, s.blocks, x);
  }

  ghost predicate InsideSomeBlock(L: Layout, blocks: seq<nat>, a: nat, n: nat) {
    exists b :: b in blocks && b <= a && a + n <= b + L.blockBytes
  }

  lemma BufferInsideBlock(L: Layout, blocks: seq<nat>, x: nat)
    requires L.Valid() && L.IsNode(blocks, x)
    ensures InsideSomeBlock(L, blocks, x + L.word, L.nodeSize)
  {
    var b: nat, i: nat :| b in blocks && i < L.count && x == L.NodeAt(b, i);
    NodeInside(L, b, i);
  }

  /** Bytes changed only inside one live buffer leave the pool as it was. */
  lemma WriteInsideBufferKeeps(L: Layout, m: Memory, m': Memory, bh: nat, fh: nat, s: M.State, x: nat)
    requires ValidState(L, m, bh, fh, s) && x in s.live
    requires m'.Keys == m.Keys
    requires forall a: nat :: a in m && !(x + L.word <= a < x + L.word + L.nodeSize) ==> m'[a] == m[a]
    ensures ValidState(L, m', bh, fh, s)
  {
    LiveBuffersAreApart(L, m, bh, fh, s, x);
    forall y | y in s.free ensures SameOn(m, m', y, L.word) {
      NodeFacts(L, m, bh, fh, s, y);
      assert BufferOffLink(L, x, y);
    }
    forall b | b in s.blocks ensures SameOn(m, m', b, L.word) {
      BlockLinkMapped(L, m, bh, fh, s, b);
      assert BufferOffLink(L, x, b);
    }
    ChainFrame(m, m', L.word, fh, s.free);
    ChainFrame(m, m', L.word, bh, s.blocks);
  }

  /** The first `n` nodes of the block at `base` are linked to their successors. */
  ghost predicate Threaded(L: Layout, m: Memory, base: nat, n: nat)
    requires n <= L.count
  {
    forall j {:trigger After(L.NodesOf(base), j)} :: 0 <= j < n ==>
      LinkTo(m, L.word, L.NodesOf(base)[j], After(L.NodesOf(base), j))
  }

  /** Storing node `i`'s link leaves those of the nodes before it. */
  lemma EarlierLinksStay(L: Layout, m: Memory, m': Memory, base: nat, i: nat)
    requires L.Valid() && i < L.count && Threaded(L, m, base, i) && m'.Keys == m.Keys && Mapped(m, base, L.blockBytes)
    requires forall a: nat :: a in m && !(L.NodeAt(base, i) <= a < L.NodeAt(base, i) + L.word) ==> m'[a] == m[a]
    ensures Threaded(L, m', base, i)
  {
    var nodes := L.NodesOf(base);
    forall j | 0 <= j < i ensures LinkTo(m', L.word, nodes[j], After(nodes, j)) {
      TimesStep(j, i, L.stride);
      NodeInside(L, base, j);
      LoadFrame(m, m', nodes[j], L.word);
    }
  }

  ghost predicate SameOutside(m: Memory, m': Memory, r: Region) {
    forall a: nat :: a in m && a in m' && !Inside(a, r) ==> m'[a] == m[a]
  }

  /** Serving a node in terms of the headers and of the client's pointer: from an empty free list the first node of
  the new block, which heads the blocks, with the second one next; otherwise the head of the free list. */
  predicate Served(L: Layout, bh: nat, fh: nat, base: nat, p: nat, bh': nat, fh': nat) {
    if fh == 0 then
      p == base + 2 * L.word && bh' == base && fh' == if L.count == 1 then 0 else base + L.word + L.stride
    else
      p == fh + L.word && bh' == bh
  }

  lemma ServedHeaders(L: Layout, m: Memory, bh: nat, fh: nat, s: M.State, base: nat, m': Memory, bh': nat, fh': nat)
    requires ValidState(L, m, bh, fh, s) && ValidState(L, m', bh', fh', M.Take(L, s, base))
    ensures Served(L, bh, fh, base, M.Refill(L, s, base).free[0] + L.word, bh', fh')
  {
    NullHeadIsEmpty(L, m, bh, fh, s);
    M.TakeIs(L, s, base);
  }

  class Pool {
    const layout: Layout
    var mem: Memory            // the address space the pool and its clients share
    var blockHeader: nat       // m_pMemBlockHeader
    var freeHeader: nat        // m_pFreeNodeHeader
    ghost var abs: M.State
    ghost var peak: nat        // the most nodes clients ever held at once

    ghost predicate Valid()
      reads this
    {
      && ValidState(layout, mem, blockHeader, freeHeader, abs)
      && M.Snug(layout, abs, peak)
    }

    /** The pool owns exactly as many blocks as the peak demand so far needs. */
    lemma OwnsWhatPeakNeeds()
      requires Valid()
      ensures |abs.blocks| == M.CeilDiv(peak, layout.count)
    {
      M.CeilDivIs(peak, layout.count, |abs.blocks|);
    }

    constructor (layout: Layout, mem: Memory)
      requires layout.Valid()
      ensures this.layout == layout && this.mem == mem && abs == M.EMPTY && peak == 0 && Valid()
    {
      this.layout := layout;
      this.mem := mem;
      blockHeader, freeHeader := 0, 0;
      abs, peak := M.EMPTY, 0;
    }

    /** One store of the fill loop: node `i` of the new block gets its link, nothing outside the block changes. */
    method LinkNode(region: Region, i: nat, next: nat)
      requires layout.Valid() && i < layout.count && next < WordLimit(layout.word)
      requires next == After(layout.NodesOf(region.base), i)
      requires |region.bytes| == layout.blockBytes && Mapped(mem, region.base, layout.blockBytes)
      requires Threaded(layout, mem, region.base, i)
      modifies `mem
      ensures mem.Keys == old(mem).Keys && SameOutside(old(mem), mem, region)
      ensures Threaded(layout, mem, region.base, i + 1)
    {
      var a := layout.NodeAt(region.base, i);
      NodeInside(layout, region.base, i);
      mem := StoreWord(mem, a, next, layout.word);
      LoadStore(old(mem), a, next, layout.word);
      EarlierLinksStay(layout, old(mem), mem, region.base, i);
    }

    /** The fill loop: the nodes of the new block are threaded in ascending order. */
    method ThreadNodes(region: Region)
      requires layout.Valid() && |region.bytes| == layout.blockBytes && Mapped(mem, region.base, layout.blockBytes)
      requires region.base + layout.blockBytes < WordLimit(layout.word)
      modifies `mem
      ensures mem.Keys == old(mem).Keys && SameOutside(old(mem), mem, region)
      ensures Chain(mem, layout.word, layout.NodeAt(region.base, 0), layout.NodesOf(region.base))
    {
      var newBlock, count := region.base, layout.count;
      var i := 0;
      while i < count - 1
        invariant 0 <= i <= count - 1
        invariant mem.Keys == old(mem).Keys && SameOutside(old(mem), mem, region)
        invariant Threaded(layout, mem, newBlock, i)
      {
        NodeInside(layout, newBlock, i + 1);
        LinkNode(region, i, layout.NodeAt(newBlock, i + 1));
        i := i + 1;
      }
      LinkNode(region, count - 1, 0);
    }

    /** The branch that adds a block: thread its nodes, then make it the head of both chains. */
    method Grow(region: Region)
      requires ValidState(layout, mem, blockHeader, freeHeader, abs)
      requires freeHeader == 0 && FreshRegion(layout, mem, region)
      modifies `mem, `blockHeader, `freeHeader, `abs
      ensures ValidState(layout, mem, blockHeader, freeHeader, abs)
      ensures abs == M.Refill(layout, old(abs), region.base) && abs.free != []
      ensures forall a: nat :: a in old(mem) ==> a in mem && mem[a] == old(mem)[a]
      ensures forall a: nat :: a in mem <==> a in old(mem) || Inside(a, region)
    {
      NullHeadIsEmpty(layout, mem, blockHeader, freeHeader, abs);
      NewBlockIsClear(layout, mem, blockHeader, freeHeader, abs, region);
      mem := MapRegion(mem, region);
      BlockHoldsLink(layout);
      ThreadNodes(region);
      ghost var threaded := mem;
      freeHeader := layout.NodeAt(region.base, 0);
      mem := StoreWord(mem, region.base, blockHeader, layout.word);
      GrowthIsValid(layout, old(mem), threaded, mem, blockHeader, region, abs);
      blockHeader := region.base;
      abs := M.Refill(layout, abs, region.base);
    }

    /** The tail of allocate: the top of the stack is served; memory is only read. */
    method Serve() returns (p: nat)
      requires ValidState(layout, mem, blockHeader, freeHeader, abs) && abs.free != []
      modifies `freeHeader, `abs
      ensures ValidState(layout, mem, blockHeader, freeHeader, abs)
      ensures abs == M.Pop(old(abs)) && p == old(abs).free[0] + layout.word
    {
      PopIsValid(layout, mem, blockHeader, freeHeader, abs);
      p := freeHeader + layout.word;
      freeHeader := LoadWord(mem, freeHeader, layout.word);
      abs := M.Pop(abs);
    }

    /** allocate for a request that fits. */
    method GrowAndServe(region: Region) returns (p: nat)
      requires ValidState(layout, mem, blockHeader, freeHeader, abs)
      requires freeHeader == 0 ==> FreshRegion(layout, mem, region)
      modifies `mem, `blockHeader, `freeHeader, `abs
      ensures ValidState(layout, mem, blockHeader, freeHeader, abs)
      ensures M.Legal(layout, old(abs), M.Alloc(region.base)) && abs == M.Take(layout, old(abs), region.base)
      ensures p == M.Refill(layout, old(abs), region.base).free[0] + layout.word
      ensures p - layout.word in abs.live && p - layout.word !in old(abs).live
      ensures forall a: nat :: a in old(mem) ==> a in mem && mem[a] == old(mem)[a]
      ensures old(freeHeader) != 0 ==> mem == old(mem)
    {
      NullHeadIsEmpty(layout, mem, blockHeader, freeHeader, abs);
      if freeHeader == 0 {
        NewBlockIsClear(layout, mem, blockHeader, freeHeader, abs, region);
        Grow(region);
      }
      M.PopKeepsPartition(layout, abs);
      p := Serve();
    }

    /** The node is served and the peak follows. */
    method ServeAndCount(region: Region) returns (p: nat)
      requires Valid()
      requires freeHeader == 0 ==> FreshRegion(layout, mem, region)
      modifies this
      ensures Valid()
      ensures M.Legal(layout, old(abs), M.Alloc(region.base)) && abs == M.Take(layout, old(abs), region.base)
      ensures peak == M.Max(old(peak), |abs.live|)
      ensures p == M.Refill(layout, old(abs), region.base).free[0] + layout.word
      ensures p - layout.word in abs.live && p - layout.word !in old(abs).live
      ensures forall a: nat :: a in old(mem) ==> a in mem && mem[a] == old(mem)[a]
      ensures old(freeHeader) != 0 ==> mem == old(mem)
      ensures Served(layout, old(blockHeader), old(freeHeader), region.base, p, blockHeader, freeHeader)
      ensures old(freeHeader) == 0 <==> old(abs).free == []
    {
      NullHeadIsEmpty(layout, mem, blockHeader, freeHeader, abs);
      p := GrowAndServe(region);
      ServedHeaders(layout, old(mem), old(blockHeader), old(freeHeader), old(abs), region.base,
                    mem, blockHeader, freeHeader);
      M.TakeKeepsSnug(layout, old(abs), region.base, abs, peak);
      peak := M.Max(peak, |abs.live|);
    }

    /** allocate: oversize requests change nothing; otherwise the top of the stack is served, a stack found
    empty being filled first.  No byte that was mapped before changes. */
    method Allocate(n: nat, region: Region) returns (p: nat)
      requires Valid()
      requires n <= layout.nodeSize && freeHeader == 0 ==> FreshRegion(layout, mem, region)
      modifies this
      ensures Valid()
      ensures n > layout.nodeSize ==> p == 0 && mem == old(mem) && abs == old(abs) && peak == old(peak)
      ensures n <= layout.nodeSize ==>
                && M.Legal(layout, old(abs), M.Alloc(region.base))
                && peak == M.Max(old(peak), |abs.live|)
                && abs == M.Take(layout, old(abs), region.base)
                && p == M.Refill(layout, old(abs), region.base).free[0] + layout.word
                && p - layout.word in abs.live && p - layout.word !in old(abs).live
      ensures n <= layout.nodeSize && old(abs).free == [] ==>
                && p == region.base + 2 * layout.word && blockHeader == region.base
                && freeHeader == if layout.count == 1 then 0 else region.base + layout.word + layout.stride
      ensures n <= layout.nodeSize && old(abs).free != [] ==>
                p == old(freeHeader) + layout.word && blockHeader == old(blockHeader)
      ensures forall a: nat :: a in old(mem) ==> a in mem && mem[a] == old(mem)[a]
      ensures old(freeHeader) != 0 ==> mem == old(mem)
    {
      if n > layout.nodeSize {
        return 0;
      }
      p := ServeAndCount(region);
    }

    /** deallocate: the node is recovered from the client's pointer and pushed; only its link word is written. */
    method Deallocate(p: nat)
      requires Valid() && p >= layout.word && p - layout.word in abs.live
      modifies this
      ensures Valid()
      ensures peak == old(peak) && abs == M.Give(old(abs), p - layout.word)
      ensures abs.free == [p - layout.word] + old(abs).free && abs.live == old(abs).live - {p - layout.word}
      ensures Mapped(mem, p - layout.word, layout.word)
      ensures LoadWord(mem, p - layout.word, layout.word) == old(freeHeader)
      ensures freeHeader == p - layout.word && blockHeader == old(blockHeader)
      ensures mem.Keys == old(mem).Keys
      ensures forall a: nat :: a in mem && !(p - layout.word <= a < p) ==> mem[a] == old(mem)[a]
      ensures forall y :: y in old(abs).live ==> SameBuffer(layout, old(mem), mem, y)
    {
      var node := p - layout.word;
      PushIsValid(layout, mem, blockHeader, freeHeader, abs, node);
      M.GiveKeepsSnug(layout, abs, node, peak);
      mem := StoreWord(mem, node, freeHeader, layout.word);
      freeHeader := node;
      abs := M.Give(abs, node);
    }

    /** A client stores any byte anywhere in a buffer it holds: the pool does not notice, and no other live
    buffer changes. */
    method ClientWrite(p: nat, offset: nat, value: Byte)
      requires Valid() && p >= layout.word && p - layout.word in abs.live && offset < layout.nodeSize
      modifies `mem
      ensures Valid()
      ensures p + offset in old(mem) && mem == old(mem)[p + offset := value]
      ensures forall y :: y in abs.live && y != p - layout.word ==> SameBuffer(layout, old(mem), mem, y)
    {
      WriteIsValid(layout, mem, blockHeader, freeHeader, abs, p - layout.word, offset, value);
      mem := mem[p + offset := value];
    }

    /** The loop of clear. */
    method ReleaseBlocks(ghost blocks: seq<nat>) returns (released: seq<nat>, ghost k: nat)
      requires layout.Valid() && layout.BlocksApart(blocks)
      requires Unreleased(layout, mem, mem, blockHeader, blocks, 0)
      modifies `mem, `blockHeader
      ensures k <= |blocks| && released == blocks[..k]
      ensures blockHeader == 0 && Unreleased(layout, old(mem), mem, 0, blocks, k)
    {
      k, released := 0, [];
      while blockHeader != 0
        invariant k <= |blocks| && released == blocks[..k]
        invariant Unreleased(layout, old(mem), mem, blockHeader, blocks, k)
        decreases |blocks| - k
      {
        ReleaseStep(layout, old(mem), mem, blockHeader, blocks, k);
        var next := LoadWord(mem, blockHeader, layout.word);
        mem := UnmapRange(mem, blockHeader, layout.blockBytes);
        released := released + [blockHeader];
        blockHeader, k := next, k + 1;
      }
    }

    /** clear: every block is released exactly once, in chain order, and nothing else is unmapped.  The free
    list header is left alone, so what remains is a pool again exactly when the free list was empty. */
    method Clear() returns (released: seq<nat>)
      requires Valid()
      modifies `mem, `blockHeader
      ensures released == abs.blocks && Distinct(released)
      ensures blockHeader == 0 && freeHeader == old(freeHeader)
      ensures GoneExactly(layout, old(mem), mem, released)
      ensures freeHeader != 0 ==> freeHeader !in mem
      ensures IsPool(layout, mem, blockHeader, freeHeader) <==> abs.free == []
    {
      assert abs.blocks[0..] == abs.blocks;
      ghost var k;
      released, k := ReleaseBlocks(abs.blocks);
      ClearDone(layout, old(mem), old(blockHeader), mem, freeHeader, abs, k);
    }
  }

  /** The loop of clear after `k` blocks: those are gone, the rest is chained from the header. */
  ghost predicate Unreleased(L: Layout, m0: Memory, m: Memory, bh: nat, blocks: seq<nat>, k: nat)
    requires k <= |blocks|
  {
    && Chain(m, L.word, bh, blocks[k..])
    && BlocksMapped(L, m, blocks[k..])
    && GoneExactly(L, m0, m, blocks[..k])
  }

  /** The released blocks are unmapped, everything else is as it was. */
  ghost predicate GoneExactly(L: Layout, m0: Memory, m: Memory, released: seq<nat>) {
    && (forall a: nat :: a in m <==> a in m0 && !InBlocks(L, released, a))
    && (forall a: nat :: a in m ==> m[a] == m0[a])
  }

  /** Memory and headers are those of some pool. */
  ghost predicate IsPool(L: Layout, m: Memory, bh: nat, fh: nat) {
    exists s :: ValidState(L, m, bh, fh, s)
  }

  lemma ReleaseStep(L: Layout, m0: Memory, m: Memory, bh: nat, blocks: seq<nat>, k: nat)
    requires L.Valid() && L.BlocksApart(blocks) && k <= |blocks|
    requires Unreleased(L, m0, m, bh, blocks, k) && bh != 0
    ensures k < |blocks| && bh == blocks[k] && Mapped(m, bh, L.word)
    ensures Unreleased(L, m0, UnmapRange(m, bh, L.blockBytes), LoadWord(m, bh, L.word), blocks, k + 1)
  {
    ChainPop(m, L.word, bh, blocks[k..]);
    ReleaseKeepsRest(L, m, UnmapRange(m, bh, L.blockBytes), LoadWord(m, bh, L.word), blocks, k);
    DropStep(blocks, k);
    TakeSnoc(blocks, k);
    InBlocksMore(L, blocks[..k], bh);
  }

  ghost predicate InBlocks(L: Layout, blocks: seq<nat>, a: nat) {
    exists b :: b in blocks && b <= a < b + L.blockBytes
  }

  lemma InBlocksMore(L: Layout, blocks: seq<nat>, b: nat)
    ensures forall a: nat :: InBlocks(L, blocks + [b], a) <==> InBlocks(L, blocks, a) || b <= a < b + L.blockBytes
  {
    forall a: nat ensures InBlocks(L, blocks + [b], a) <==> InBlocks(L, blocks, a) || b <= a < b + L.blockBytes {
      if InBlocks(L, blocks, a) {
        var c :| c in blocks && c <= a < c + L.blockBytes;
        assert c in blocks + [b];
      }
      assert b in blocks + [b];
    }
  }

  lemma DisjointBlocksDistinct(L: Layout, blocks: seq<nat>)
    requires L.Valid() && L.BlocksApart(blocks)
    ensures Distinct(blocks)
  {
    BlockHoldsLink(L);
    forall i, j | 0 <= i < j < |blocks| ensures blocks[i] != blocks[j] {
      assert Apart(blocks[i], L.blockBytes, blocks[j], L.blockBytes);
    }
  }

  /** Unmapping the first block of the remaining chain leaves the others mapped and chained. */
  lemma ReleaseKeepsRest(L: Layout, m: Memory, m': Memory, next: nat, blocks: seq<nat>, k: nat)
    requires L.Valid() && L.BlocksApart(blocks) && k < |blocks|
    requires BlocksMapped(L, m, blocks[k..]) && Chain(m, L.word, next, blocks[k..][1..])
    requires m' == UnmapRange(m, blocks[k], L.blockBytes)
    ensures BlocksMapped(L, m', blocks[k..][1..]) && Chain(m', L.word, next, blocks[k..][1..])
  {
    BlockHoldsLink(L);
    var rest := blocks[k..][1..];
    forall b | b in rest ensures b in blocks[k..] && SameOn(m, m', b, L.blockBytes) {
      var i :| 0 <= i < |rest| && rest[i] == b;
      assert b == blocks[k + 1 + i];
      assert Apart(blocks[k], L.blockBytes, blocks[k + 1 + i], L.blockBytes);
      assert b == blocks[k..][i + 1];
      assert Mapped(m, b, L.blockBytes);
    }
    ChainFrame(m, m', L.word, next, rest);
  }

  lemma NoBlocksNoNodes(L: Layout, m: Memory, fh: nat, t: M.State)
    ensures ValidState(L, m, 0, fh, t) ==> t.blocks == [] && t.free == [] && fh == 0
  {
    assert t.blocks != [] ==> t.blocks[0] in t.blocks;
    assert t.free != [] ==> t.free[0] in t.free;
  }

  /** After clear: every block is gone, a non-null free list header points into released memory, and then no
  pool state fits what is left. */
  lemma ClearDone(L: Layout, m0: Memory, bh: nat, m: Memory, fh: nat, s: M.State, k: nat)
    requires ValidState(L, m0, bh, fh, s) && k <= |s.blocks| && Unreleased(L, m0, m, 0, s.blocks, k)
    ensures s.blocks[..k] == s.blocks && Distinct(s.blocks)
    ensures fh != 0 ==> fh !in m
    ensures IsPool(L, m, 0, fh) <==> s.free == []
  {
    forall j | 0 <= j < |s.blocks| ensures s.blocks[j] != 0 {
      assert s.blocks[j] in s.blocks;
    }
    assert k == |s.blocks|;
    DisjointBlocksDistinct(L, s.blocks);
    NullHeadIsEmpty(L, m0, bh, fh, s);
    if s.free == [] {
      assert ValidState(L, m, 0, fh, M.EMPTY);
    } else {
      HeadReleased(L, m0, bh, fh, s);
      forall t ensures !ValidState(L, m, 0, fh, t) {
        NoBlocksNoNodes(L, m, fh, t);
      }
    }
  }

  lemma HeadReleased(L: Layout, m0: Memory, bh: nat, fh: nat, s: M.State)
    requires ValidState(L, m0, bh, fh, s) && s.free != []
    ensures InBlocks(L, s.blocks, fh)
  {
    NodeFacts(L, m0, bh, fh, s, fh);
    var b: nat, i: nat :| b in s.blocks && i < L.count && fh == L.NodeAt(b, i);
    NodeInside(L, b, i);
  }

  lemma FreeHeadFits(L: Layout, m: Memory, bh: nat, fh: nat, s: M.State)
    requires ValidState(L, m, bh, fh, s)
    ensures fh < WordLimit(L.word)
  {
    if s.free != [] { NodeFacts(L, m, bh, fh, s, s.free[0]); }
  }

  lemma PopIsValid(L: Layout, m: Memory, bh: nat, fh: nat, s: M.State)
    requires ValidState(L, m, bh, fh, s) && s.free != []
    ensures Mapped(m, fh, L.word) && ValidState(L, m, bh, LoadWord(m, fh, L.word), M.Pop(s))
    ensures fh == s.free[0] && fh !in s.live
  {
    ChainPop(m, L.word, fh, s.free);
    M.PopKeepsPartition(L, s);
  }

  lemma BuffersOffLink(L: Layout, m: Memory, m': Memory, bh: nat, fh: nat, s: M.State, node: nat)
    requires ValidState(L, m, bh, fh, s) && node in s.live && m'.Keys == m.Keys
    requires forall a: nat :: a in m && !(node <= a < node + L.word) ==> m'[a] == m[a]
    ensures forall y :: y in s.live ==> SameBuffer(L, m, m', y)
  {
    forall y | y in s.live ensures SameBuffer(L, m, m', y) {
      LiveBuffersAreApart(L, m, bh, fh, s, y);
      assert BufferOffLink(L, y, node);
    }
  }

  lemma PushIsValid(L: Layout, m: Memory, bh: nat, fh: nat, s: M.State, node: nat)
    requires ValidState(L, m, bh, fh, s) && node in s.live
    ensures Mapped(m, node, L.word)
    ensures ValidState(L, StoreWord(m, node, fh, L.word), bh, node, M.Give(s, node))
    ensures LoadWord(StoreWord(m, node, fh, L.word), node, L.word) == fh
    ensures forall y :: y in s.live ==> SameBuffer(L, m, StoreWord(m, node, fh, L.word), y)
  {
    NodeFacts(L, m, bh, fh, s, node);
    var m' := StoreWord(m, node, fh, L.word);
    M.GiveKeepsPartition(L, s, node);
    FreeHeadFits(L, m, bh, fh, s);
    LinkStoreKeepsChains(L, m, m', bh, fh, s, node);
    LoadStore(m, node, fh, L.word);
    ChainPush(m', L.word, fh, s.free, node);
    BuffersOffLink(L, m, m', bh, fh, s, node);
  }

  lemma WriteIsValid(L: Layout, m: Memory, bh: nat, fh: nat, s: M.State, node: nat, offset: nat, value: Byte)
    requires ValidState(L, m, bh, fh, s) && node in s.live && offset < L.nodeSize
    ensures node + L.word + offset in m
    ensures var m' := m[node + L.word + offset := value];
            && ValidState(L, m', bh, fh, s)
            && forall y :: y in s.live && y != node ==> SameBuffer(L, m, m', y)
  {
    NodeFacts(L, m, bh, fh, s, node);
    LiveBuffersAreApart(L, m, bh, fh, s, node);
    var m' := m[node + L.word + offset := value];
    WriteInsideBufferKeeps(L, m, m', bh, fh, s, node);
    forall y | y in s.live && y != node ensures SameBuffer(L, m, m', y) {
      NodeFacts(L, m, bh, fh, s, y);
      assert BuffersApart(L, node, y);
    }
  }

  /** Overwriting the link word of a live node touches no link of either chain. */
  lemma LinkStoreKeepsChains(L: Layout, m: Memory, m': Memory, bh: nat, fh: nat, s: M.State, node: nat)
    requires ValidState(L, m, bh, fh, s) && node in s.live
    requires m'.Keys == m.Keys
    requires forall a: nat :: a in m && !(node <= a < node + L.word) ==> m'[a] == m[a]
    ensures BlocksMapped(L, m', s.blocks) && Chain(m', L.word, bh, s.blocks) && Chain(m', L.word, fh, s.free)
  {
    assert L.IsNode(s.blocks, node);
    forall y | y in s.free ensures SameOn(m, m', y, L.word) {
      NodeFacts(L, m, bh, fh, s, y);
      NodesApart(L, s.blocks, node, y);
    }
    forall b | b in s.blocks ensures SameOn(m, m', b, L.word) {
      BlockLinkMapped(L, m, bh, fh, s, b);
      NodeHeaderApart(L, s.blocks, node, b);
    }
    ChainFrame(m, m', L.word, fh, s.free);
    ChainFrame(m, m', L.word, bh, s.blocks);
    forall b | b in s.blocks ensures Mapped(m', b, L.blockBytes) {
      assert Mapped(m, b, L.blockBytes);
    }
  }

  lemma BlockHoldsLink(L: Layout)
    requires L.Valid()
    ensures L.word < L.blockBytes
  {
    NodeInside(L, 0, 0);
  }

  lemma NullHeadIsEmpty(L: Layout, m: Memory, bh: nat, fh: nat, s: M.State)
    requires ValidState(L, m, bh, fh, s)
    ensures fh == 0 <==> s.free == []
  {
    if s.free != [] { NodeFacts(L, m, bh, fh, s, s.free[0]); }
  }

  lemma MappedVersusUnmapped(m: Memory, a: nat, n: nat, b: nat, k: nat)
    requires Unmapped(m, a, n) && Mapped(m, b, k) && n > 0 && k > 0
    ensures Apart(a, n, b, k)
  {
    assert a !in m && b in m;
  }

  lemma NewBlockIsClear(L: Layout, m: Memory, bh: nat, fh: nat, s: M.State, r: Region)
    requires ValidState(L, m, bh, fh, s) && FreshRegion(L, m, r)
    ensures M.ClearOf(L, s, r.base)
  {
    forall k | 0 <= k < |s.blocks| ensures Apart(r.base, L.blockBytes, s.blocks[k], L.blockBytes) {
      assert s.blocks[k] in s.blocks;
      MappedVersusUnmapped(m, r.base, L.blockBytes, s.blocks[k], L.blockBytes);
    }
  }

  ghost predicate BlocksMapped(L: Layout, m: Memory, blocks: seq<nat>) {
    forall b :: b in blocks ==> 0 < b && b + L.blockBytes < WordLimit(L.word) && Mapped(m, b, L.blockBytes)
  }

  lemma NewBlockChain(L: Layout, m0: Memory, m1: Memory, m2: Memory, bh: nat, r: Region, s: M.State)
    requires ValidState(L, m0, bh, 0, s) && FreshRegion(L, m0, r)
    requires forall a: nat :: a in m1 <==> a in m0 || Inside(a, r)
    requires forall a: nat :: a in m0 ==> m1[a] == m0[a]
    requires Mapped(m1, r.base, L.word) && m2 == StoreWord(m1, r.base, bh, L.word)
    ensures Chain(m2, L.word, r.base, [r.base] + s.blocks)
  {
    BlockHoldsLink(L);
    forall b | b in s.blocks ensures SameOn(m0, m2, b, L.word) {
      BlockLinkMapped(L, m0, bh, 0, s, b);
    }
    ChainFrame(m0, m2, L.word, bh, s.blocks);
    HeaderFits(L, m0, bh, 0, s);
    LoadStore(m1, r.base, bh, L.word);
    ChainPush(m2, L.word, bh, s.blocks, r.base);
  }

  /** The last step of growing: from threaded nodes and the stored block link to a valid pool. */
  lemma GrowthIsValid(L: Layout, m0: Memory, m1: Memory, m2: Memory, bh: nat, r: Region, s: M.State)
    requires ValidState(L, m0, bh, 0, s) && s.free == [] && FreshRegion(L, m0, r) && M.ClearOf(L, s, r.base)
    requires forall a: nat :: a in m1 <==> a in m0 || Inside(a, r)
    requires forall a: nat :: a in m0 ==> m1[a] == m0[a]
    requires Chain(m1, L.word, L.NodeAt(r.base, 0), L.NodesOf(r.base))
    requires Mapped(m1, r.base, L.word) && m2 == StoreWord(m1, r.base, bh, L.word)
    ensures ValidState(L, m2, r.base, L.NodeAt(r.base, 0), M.Refill(L, s, r.base))
  {
    M.RefillKeepsPartition(L, s, r.base);
    forall a | a in L.NodesOf(r.base) ensures SameOn(m1, m2, a, L.word) {
      var i :| 0 <= i < L.count && L.NodesOf(r.base)[i] == a;
      NodeInside(L, r.base, i);
    }
    ChainFrame(m1, m2, L.word, L.NodeAt(r.base, 0), L.NodesOf(r.base));
    NewBlockChain(L, m0, m1, m2, bh, r, s);
    assert BlocksMapped(L, m2, [r.base] + s.blocks) by {
      forall b | b in s.blocks ensures Mapped(m2, b, L.blockBytes) {
        assert Mapped(m0, b, L.blockBytes);
      }
    }
  }
}
