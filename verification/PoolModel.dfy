/** The abstract node pool: a stack of free nodes, the set of nodes in clients' hands and the chain of
blocks, and what every run of it keeps. */
module PoolModel {
  import opened AddressSpace
  import opened Arithmetic
  import opened NodeLayout
  import opened Seqs

  datatype State = State(free: seq<nat>, live: set<nat>, blocks: seq<nat>)

  const EMPTY := State([], {}, [])

  /** Serving a node pops the stack; an empty stack is first filled with the nodes of the block at `base`. */
  function Refill(L: Layout, s: State, base: nat): State
    requires L.Valid()
  {
    if s.free == [] then State(L.NodesOf(base), s.live, [base] + s.blocks) else s
  }

  function Pop(s: State): State
    requires s.free != []
  {
    State(s.free[1..], s.live + {s.free[0]}, s.blocks)
  }

  function Take(L: Layout, s: State, base: nat): State
    requires L.Valid()
  {
    Pop(Refill(L, s, base))
  }

  /** What serving a node does to an empty stack and to one that is not. */
  lemma TakeIs(L: Layout, s: State, base: nat)
    requires L.Valid()
    ensures var t := Take(L, s, base);
            if s.free == [] then
              && Refill(L, s, base).free[0] == base + L.word && t.live == s.live + {base + L.word}
              && t.blocks == [base] + s.blocks
              && |t.free| == L.count - 1 && (t.free != [] ==> t.free[0] == base + L.word + L.stride)
            else
              && Refill(L, s, base).free[0] == s.free[0] && t.live == s.live + {s.free[0]}
              && t.blocks == s.blocks && t.free == s.free[1..]
  {
    assert Times(0, L.stride) == 0 && Times(1, L.stride) == Times(0, L.stride) + L.stride;
  }

  function Give(s: State, node: nat): State {
    State([node] + s.free, s.live - {node}, s.blocks)
  }

  /** Free and live nodes partition the nodes of all blocks: nothing is lost, nothing is served twice. */
  ghost predicate Partition(L: Layout, s: State) {
    && L.BlocksApart(s.blocks)
    && Distinct(s.free)
    && (forall a :: a in s.free ==> a !in s.live)
    && (forall a: nat :: L.IsNode(s.blocks, a) <==> a in s.free || a in s.live)
    && |s.free| + |s.live| == Times(|s.blocks|, L.count)
  }

  /** The block at `base` overlaps no block of the pool. */
  ghost predicate ClearOf(L: Layout, s: State, base: nat) {
    forall k :: 0 <= k < |s.blocks| ==> Apart(base, L.blockBytes, s.blocks[k], L.blockBytes)
  }

  lemma NodesOfDistinct(L: Layout, base: nat)
    requires L.Valid()
    ensures Distinct(L.NodesOf(base))
  {
    var nodes := L.NodesOf(base);
    forall i, j | 0 <= i < j < |nodes| ensures nodes[i] != nodes[j] {
      TimesStep(i, j, L.stride);
    }
  }

  /** The nodes of one more block are the nodes there were and those of the new block. */
  lemma NodesOfMore(L: Layout, blocks: seq<nat>, base: nat, a: nat)
    requires L.Valid()
    ensures L.IsNode([base] + blocks, a) <==> a in L.NodesOf(base) || L.IsNode(blocks, a)
  {
    if L.IsNode([base] + blocks, a) {
      var b: nat, i: nat :| b in [base] + blocks && i < L.count && a == L.NodeAt(b, i);
      if b == base { assert L.NodesOf(base)[i] == a; } else { assert b in blocks; }
    }
    if a in L.NodesOf(base) {
      var i :| 0 <= i < L.count && L.NodesOf(base)[i] == a;
      assert base in [base] + blocks && a == L.NodeAt(base, i);
    } else if L.IsNode(blocks, a) {
      var b: nat, i: nat :| b in blocks && i < L.count && a == L.NodeAt(b, i);
      assert b in [base] + blocks;
    }
  }

  lemma FreshNodesAreNew(L: Layout, s: State, base: nat, a: nat)
    requires L.Valid() && ClearOf(L, s, base) && a in L.NodesOf(base)
    ensures !L.IsNode(s.blocks, a)
  {
    var i :| 0 <= i < L.count && L.NodesOf(base)[i] == a;
    NodeInside(L, base, i);
    if L.IsNode(s.blocks, a) {
      var b: nat, j: nat :| b in s.blocks && j < L.count && a == L.NodeAt(b, j);
      NodeInside(L, b, j);
      assert false;
    }
  }

  lemma RefillKeepsPartition(L: Layout, s: State, base: nat)
    requires L.Valid() && Partition(L, s) && (s.free == [] ==> ClearOf(L, s, base))
    ensures Partition(L, Refill(L, s, base)) && |Refill(L, s, base).free| >= 1
  {
    if s.free == [] {
      var r := Refill(L, s, base);
      NodesOfDistinct(L, base);
      forall a: nat ensures L.IsNode(r.blocks, a) <==> a in r.free || a in r.live {
        NodesOfMore(L, s.blocks, base, a);
      }
      forall a | a in r.free ensures a !in r.live {
        FreshNodesAreNew(L, s, base, a);
      }
    }
  }

  lemma PopKeepsPartition(L: Layout, s: State)
    requires L.Valid() && Partition(L, s) && s.free != []
    ensures Partition(L, Pop(s)) && s.free[0] in Pop(s).live && s.free[0] !in s.live
  {
    var t := Pop(s);
    assert s.free == [s.free[0]] + t.free;
    forall a: nat ensures L.IsNode(t.blocks, a) <==> a in t.free || a in t.live {
      assert a in s.free <==> a == s.free[0] || a in t.free;
    }
  }

  lemma TakeKeepsPartition(L: Layout, s: State, base: nat)
    requires L.Valid() && Partition(L, s) && (s.free == [] ==> ClearOf(L, s, base))
    ensures Partition(L, Take(L, s, base))
  {
    RefillKeepsPartition(L, s, base);
    PopKeepsPartition(L, Refill(L, s, base));
  }

  lemma GiveKeepsPartition(L: Layout, s: State, node: nat)
    requires L.Valid() && Partition(L, s) && node in s.live
    ensures Partition(L, Give(s, node))
  {
    var t := Give(s, node);
    forall a: nat ensures L.IsNode(t.blocks, a) <==> a in t.free || a in t.live {
      assert a in t.free <==> a == node || a in s.free;
    }
  }

  /** Giving a node back and asking again returns that very node and the very same pool. */
  lemma GiveThenTake(L: Layout, s: State, node: nat, base: nat)
    requires L.Valid() && node in s.live
    ensures Take(L, Give(s, node), base) == s
    ensures Give(s, node).free[0] == node
  {
    assert s.live - {node} + {node} == s.live;
    assert ([node] + s.free)[1..] == s.free;
  }

  // ----- Runs -----

  datatype Op = Alloc(base: nat) | Free(node: nat)

  /** Clients give back only what they hold, and new blocks lie in memory no block occupies. */
  ghost predicate Legal(L: Layout, s: State, op: Op) {
    match op
    case Alloc(base) => s.free == [] ==> ClearOf(L, s, base)
    case Free(node) => node in s.live
  }

  function Step(L: Layout, s: State, op: Op): State
    requires L.Valid()
  {
    match op
    case Alloc(base) => Take(L, s, base)
    case Free(node) => Give(s, node)
  }

  ghost predicate LegalRun(L: Layout, s: State, ops: seq<Op>)
    requires L.Valid()
    decreases |ops|
  {
    ops == [] || (Legal(L, s, ops[0]) && LegalRun(L, Step(L, s, ops[0]), ops[1..]))
  }

  function Run(L: Layout, s: State, ops: seq<Op>): State
    requires L.Valid()
    decreases |ops|
  {
    if ops == [] then s else Run(L, Step(L, s, ops[0]), ops[1..])
  }

  function Max(a: nat, b: nat): nat { if a < b then b else a }

  /** The largest number of nodes in clients' hands at any moment of the run. */
  function Peak(L: Layout, s: State, ops: seq<Op>): nat
    requires L.Valid()
    decreases |ops|
  {
    if ops == [] then |s.live| else Max(|s.live|, Peak(L, Step(L, s, ops[0]), ops[1..]))
  }

  function CeilDiv(a: nat, n: nat): nat
    requires n >= 1
  {
    (a + n - 1) / n
  }

  lemma CeilDivIs(a: nat, n: nat, q: nat)
    requires n >= 1 && a <= Times(q, n) && (q == 0 || a > Times(q - 1, n))
    ensures CeilDiv(a, n) == q
  {
    TimesIsProduct(q, n);
    if q == 0 {
      assert a == 0;
    } else {
      var d := a + n - 1 - q * n;
      assert a + n - 1 == q * n + d && 0 <= d < n;
      DivUnique(q, n, d);
    }
  }

  /** The invariant behind the block count: `peak` so far fits the blocks, but not one block fewer. */
  ghost predicate Snug(L: Layout, s: State, peak: nat)
    requires L.Valid()
  {
    |s.live| <= peak <= Times(|s.blocks|, L.count) && (|s.blocks| == 0 || peak > Times(|s.blocks| - 1, L.count))
  }

  lemma StepKeeps(L: Layout, s: State, op: Op, peak: nat)
    requires L.Valid() && Partition(L, s) && Legal(L, s, op) && Snug(L, s, peak)
    ensures Partition(L, Step(L, s, op))
    ensures Snug(L, Step(L, s, op), Max(peak, |Step(L, s, op).live|))
  {
    match op
    case Alloc(base) =>
      TakeKeepsPartition(L, s, base);
      RefillKeepsPartition(L, s, base);
      var t := Take(L, s, base);
      assert |t.live| == |s.live| + 1;
    case Free(node) =>
      GiveKeepsPartition(L, s, node);
  }

  lemma GiveKeepsSnug(L: Layout, s: State, node: nat, peak: nat)
    requires L.Valid() && Partition(L, s) && node in s.live && Snug(L, s, peak)
    ensures Snug(L, Give(s, node), peak)
  {
  }

  lemma TakeKeepsSnug(L: Layout, s: State, base: nat, t: State, peak: nat)
    requires L.Valid() && Partition(L, s) && Legal(L, s, Alloc(base)) && Snug(L, s, peak) && t == Take(L, s, base)
    ensures Snug(L, t, Max(peak, |t.live|))
  {
    StepKeeps(L, s, Alloc(base), peak);
  }

  lemma {:induction false} RunKeeps(L: Layout, s: State, ops: seq<Op>, peak: nat)
    requires L.Valid() && Partition(L, s) && LegalRun(L, s, ops) && Snug(L, s, peak)
    ensures Partition(L, Run(L, s, ops))
    ensures Snug(L, Run(L, s, ops), Max(peak, Peak(L, s, ops)))
    decreases |ops|
  {
    if ops != [] {
      StepKeeps(L, s, ops[0], peak);
      var t := Step(L, s, ops[0]);
      PeakCoversStart(L, t, ops[1..]);
      MaxStep(peak, |s.live|, |t.live|, Peak(L, t, ops[1..]));
      RunKeeps(L, t, ops[1..], Max(peak, |t.live|));
    }
  }

  lemma MaxStep(peak: nat, was: nat, now: nat, rest: nat)
    requires was <= peak && now <= rest
    ensures Max(Max(peak, now), rest) == Max(peak, Max(was, rest))
  {
  }

  lemma PeakCoversStart(L: Layout, s: State, ops: seq<Op>)
    requires L.Valid()
    ensures Peak(L, s, ops) >= |s.live|
  {
  }

  /** After any run from the empty pool the nodes of all blocks are exactly the free and the live ones, and
  the pool owns exactly as many blocks as the peak demand needs. */
  lemma EveryRun(L: Layout, ops: seq<Op>)
    requires L.Valid() && LegalRun(L, EMPTY, ops)
    ensures Partition(L, Run(L, EMPTY, ops))
    ensures |Run(L, EMPTY, ops).blocks| == CeilDiv(Peak(L, EMPTY, ops), L.count)
  {
    RunKeeps(L, EMPTY, ops, 0);
    CeilDivIs(Peak(L, EMPTY, ops), L.count, |Run(L, EMPTY, ops).blocks|);
  }

  /** A fresh block is served in ascending order: `k` requests in a row from an empty stack, `k` at most a block's
  worth, yield its first `k` nodes, one stride apart from the one behind the block's link, and leave the others
  stacked in order. */
  lemma {:induction false} FreshBlockAscends(L: Layout, s: State, base: nat, k: nat)
    requires L.Valid() && s.free == [] && 1 <= k <= L.count
    ensures var t := Run(L, s, seq(k, i => Alloc(base)));
            && t.free == L.NodesOf(base)[k..]
            && t.live == s.live + Elements(L.NodesOf(base)[..k])
            && t.blocks == [base] + s.blocks
            && (forall i :: 0 <= i < L.count ==> L.NodesOf(base)[i] == base + L.word + i * L.stride)
            && (k < L.count ==> Take(L, t, base).live == t.live + {base + L.word + k * L.stride})
            && base + L.word in t.live
  {
    forall i | 0 <= i < L.count ensures L.NodesOf(base)[i] == base + L.word + i * L.stride {
      TimesIsProduct(i, L.stride);
    }
    var ops := seq(k, i => Alloc(base));
    var r := Refill(L, s, base);
    assert Take(L, s, base) == Take(L, r, base);
    assert Run(L, s, ops) == Run(L, r, ops);
    PopRun(L, r, base, k);
    assert r.free[..k] == L.NodesOf(base)[..k];
    assert r.free[..k][0] == base + L.word;
  }

  lemma {:induction false} PopRun(L: Layout, s: State, base: nat, k: nat)
    requires L.Valid() && k <= |s.free|
    ensures Run(L, s, seq(k, i => Alloc(base))) == State(s.free[k..], s.live + Elements(s.free[..k]), s.blocks)
    decreases k
  {
    if k == 0 {
      assert s.live + Elements(s.free[..0]) == s.live;
    } else {
      var ops := seq(k, i => Alloc(base));
      assert ops[1..] == seq(k - 1, i => Alloc(base));
      var t := Take(L, s, base);
      PopRun(L, t, base, k - 1);
      assert t.free[k - 1..] == s.free[k..];
      assert s.free[..k] == [s.free[0]] + t.free[..k - 1];
      assert s.live + Elements(s.free[..k]) == t.live + Elements(t.free[..k - 1]);
    }
  }
}
