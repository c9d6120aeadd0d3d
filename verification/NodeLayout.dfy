/** Where the nodes of a block lie.

`MemBlock` is one link word followed by `count` nodes; `FreeNode` is one link word followed by the user's
buffer, padded by the compiler to a multiple of the word. */
module NodeLayout {
  import opened AddressSpace
  import opened Arithmetic

  /** The template's arguments as the compiler sees them: sizeof(void*), NODE_SIZE, MEMORY_BLOCK_SIZE. */
  datatype Template = Template(word: nat, nodeSize: nat, blockSize: nat) {
    /** Words and nodes are not empty and a block has at least one node. */
    predicate Valid() {
      word >= 1 && nodeSize >= 1 && blockSize >= word && Count() >= 1
    }

    /** BLOCK_NODE_COUNT. */
    function Count(): nat {
      if word + nodeSize == 0 || blockSize < word then 0 else (blockSize - word) / (nodeSize + word)
    }

    /** The padding the compiler adds behind a node's buffer, so that the next node's link is aligned. */
    function Padding(): nat
      requires Valid()
    {
      if nodeSize % word == 0 then 0 else word - nodeSize % word
    }

    function Compile(): Layout
      requires Valid()
    {
      var stride := word + nodeSize + Padding();
      Layout(word, nodeSize, Count(), stride, word + Times(Count(), stride))
    }
  }

  /** `stride` is sizeof(FreeNode), `blockBytes` sizeof(MemBlock). */
  datatype Layout = Layout(word: nat, nodeSize: nat, count: nat, stride: nat, blockBytes: nat) {
    predicate Valid() {
      word >= 1 && nodeSize >= 1 && count >= 1 && stride >= word + nodeSize && blockBytes == word + Times(count, stride)
    }

    function NodeAt(block: nat, i: nat): (a: nat) {
      block + word + Times(i, stride)
    }

    /** The nodes of a block in ascending index order. */
    function NodesOf(block: nat): (s: seq<nat>) {
      seq(count, (i: nat) => NodeAt(block, i))
    }

    /** `a` is a node of one of the blocks. */
    ghost predicate IsNode(blocks: seq<nat>, a: nat) {
      exists b: nat, i: nat :: b in blocks && i < count && a == NodeAt(b, i)
    }

    ghost predicate BlocksApart(blocks: seq<nat>) {
      forall j, k :: 0 <= j < k < |blocks| ==> Apart(blocks[j], blockBytes, blocks[k], blockBytes)
    }
  }

  /** A node lies wholly inside its block and behind the block's link word. */
  lemma NodeInside(L: Layout, block: nat, i: nat)
    requires L.Valid() && i < L.count
    ensures block + L.word <= L.NodeAt(block, i)
    ensures L.NodeAt(block, i) + L.stride <= block + L.blockBytes
  {
    TimesStep(i, L.count, L.stride);
  }

  /** The nodes follow the block's link word one stride apart, the user's buffer one word behind its node. */
  lemma NodesInARow(L: Layout, block: nat, i: nat, j: nat)
    requires i < j < L.count && L.stride > 0
    ensures L.NodeAt(block, 0) == block + L.word
    ensures L.NodeAt(block, i + 1) == L.NodeAt(block, i) + L.stride
    ensures L.NodeAt(block, i) == block + L.word + i * L.stride
    ensures L.NodeAt(block, i) < L.NodeAt(block, j)
    ensures |L.NodesOf(block)| == L.count && L.NodesOf(block)[i] == L.NodeAt(block, i)
  {
    TimesIsProduct(i, L.stride);
    TimesStep(i, j, L.stride);
  }

  /** Distinct nodes of non-overlapping blocks do not overlap. */
  lemma NodesApart(L: Layout, blocks: seq<nat>, x: nat, y: nat)
    requires L.Valid() && L.BlocksApart(blocks)
    requires L.IsNode(blocks, x) && L.IsNode(blocks, y) && x != y
    ensures Apart(x, L.stride, y, L.stride)
  {
    var b: nat, i: nat :| b in blocks && i < L.count && x == L.NodeAt(b, i);
    var c: nat, j: nat :| c in blocks && j < L.count && y == L.NodeAt(c, j);
    if b == c {
      if i < j { TimesStep(i, j, L.stride); } else { TimesStep(j, i, L.stride); }
    } else {
      NodeInside(L, b, i);
      NodeInside(L, c, j);
      var u, v :| 0 <= u < |blocks| && 0 <= v < |blocks| && blocks[u] == b && blocks[v] == c;
      assert u < v || v < u;
    }
  }

  /** No node overlaps the link word of any block. */
  lemma NodeHeaderApart(L: Layout, blocks: seq<nat>, x: nat, b: nat)
    requires L.Valid() && L.BlocksApart(blocks) && L.IsNode(blocks, x) && b in blocks
    ensures Apart(x, L.stride, b, L.word)
  {
    var c: nat, i: nat :| c in blocks && i < L.count && x == L.NodeAt(c, i);
    NodeInside(L, c, i);
    if b != c {
      var u, v :| 0 <= u < |blocks| && 0 <= v < |blocks| && blocks[u] == b && blocks[v] == c;
      assert u < v || v < u;
      NodeInside(L, b, 0);
    }
  }

  /** What the compiler makes of a template: a block has as many nodes as link and buffer fit into it behind its own
  link; a node takes the fewest bytes that hold link and buffer and keep the next link aligned; and a block is its
  link and its nodes. */
  lemma CompiledLayout(t: Template)
    requires t.Valid()
    ensures var L := t.Compile();
            && L.word == t.word && L.nodeSize == t.nodeSize
            && t.word + L.count * (t.word + t.nodeSize) <= t.blockSize < t.word + (L.count + 1) * (t.word + t.nodeSize)
            && L.stride % t.word == 0 && t.word + t.nodeSize <= L.stride < t.word + t.nodeSize + t.word
            && L.blockBytes == t.word + L.count * L.stride
  {
    var L := t.Compile();
    var unit := t.word + t.nodeSize;
    DivBounds(t.blockSize - t.word, unit);
    Distribute(L.count, 1, unit);
    TimesIsProduct(L.count, L.stride);
    DivBounds(t.nodeSize, t.word);
    var q := t.nodeSize / t.word + if t.nodeSize % t.word == 0 then 1 else 2;
    Distribute(t.nodeSize / t.word, 1, t.word);
    Distribute(t.nodeSize / t.word, 2, t.word);
    assert L.stride == q * t.word + 0;
    DivUnique(q, t.word, 0);
  }

  lemma CompiledIsValid(t: Template)
    requires t.Valid()
    ensures t.Compile().Valid()
  {
  }

  /** A block fits the configured size exactly when the padding of its nodes fits into what the division of
  the block size left over; without padding it always fits, and one more node never would. */
  lemma BlockFits(t: Template)
    requires t.Valid()
    ensures var L := t.Compile();
            && (L.blockBytes <= t.blockSize <==>
                  L.count * t.Padding() <= (t.blockSize - t.word) % (t.nodeSize + t.word))
            && (t.nodeSize % t.word == 0 ==> L.blockBytes <= t.blockSize)
            && L.blockBytes + L.stride > t.blockSize
  {
    var unit, n := t.nodeSize + t.word, t.Count();
    assert t.blockSize - t.word == n * unit + (t.blockSize - t.word) % unit;
    TimesIsProduct(n, t.Compile().stride);
    assert n * t.Compile().stride == n * unit + n * t.Padding();
    assert n * t.Padding() >= 0;
  }

  /** A node size that is not a multiple of the word can push a block past the configured size. */
  lemma BlockCanOutgrowItsSize()
    ensures var t := Template(8, 1, 8192); t.Valid() && t.Compile().blockBytes > t.blockSize
  {
    TimesIsProduct(909, 16);
  }
}
