/** Byte-addressed memory and the machine words stored in it.

A word of `n` bytes is kept little endian; address 0 is the null pointer.  A `Memory` maps exactly the
addresses that may be touched, so every load and store below carries the obligation that it stays inside
memory the program owns. */
module AddressSpace {
  type Byte = b: int | 0 <= b < 256

  type Memory = map<nat, Byte>

  /** The number of addresses a word of `n` bytes can name. */
  function WordLimit(n: nat): (r: nat)
    ensures r > 0
  {
    if n == 0 then 1 else 256 * WordLimit(n - 1)
  }

  function Encode(w: nat, n: nat): (r: seq<Byte>)
    ensures |r| == n
  {
    if n == 0 then [] else [w % 256] + Encode(w / 256, n - 1)
  }

  function Decode(bs: seq<Byte>): nat {
    if bs == [] then 0 else bs[0] + 256 * Decode(bs[1..])
  }

  lemma {:induction false} DecodeEncode(w: nat, n: nat)
    requires w < WordLimit(n)
    ensures Decode(Encode(w, n)) == w
  {
    if n != 0 {
      DecodeEncode(w / 256, n - 1);
      assert Encode(w, n)[1..] == Encode(w / 256, n - 1);
    }
  }

  ghost predicate Mapped(m: Memory, a: nat, n: nat) {
    forall i: nat :: a <= i < a + n ==> i in m
  }

  ghost predicate Unmapped(m: Memory, a: nat, n: nat) {
    forall i: nat :: a <= i < a + n ==> i !in m
  }

  /** Both memories are mapped and agree on the `n` bytes at `a`. */
  ghost predicate SameOn(m: Memory, m': Memory, a: nat, n: nat) {
    forall i: nat :: a <= i < a + n ==> i in m && i in m' && m[i] == m'[i]
  }

  predicate Apart(a: nat, n: nat, b: nat, k: nat) {
    a + n <= b || b + k <= a
  }

  function LoadWord(m: Memory, a: nat, n: nat): nat
    requires Mapped(m, a, n)
  {
    Decode(seq(n, (i: nat) requires i < n && Mapped(m, a, n) => m[a + i]))
  }

  function StoreWord(m: Memory, a: nat, w: nat, n: nat): (r: Memory)
    requires Mapped(m, a, n)
    ensures r.Keys == m.Keys
    ensures forall i: nat :: i in m && !(a <= i < a + n) ==> r[i] == m[i]
  {
    var bytes := Encode(w, n);
    map i: nat | i in m :: if a <= i < a + n then bytes[i - a] else m[i]
  }

  /** A stored word reads back, provided it fits. */
  lemma LoadStore(m: Memory, a: nat, w: nat, n: nat)
    requires Mapped(m, a, n) && w < WordLimit(n)
    ensures LoadWord(StoreWord(m, a, w, n), a, n) == w
  {
    var r := StoreWord(m, a, w, n);
    assert seq(n, (i: nat) requires i < n && Mapped(r, a, n) => r[a + i]) == Encode(w, n);
    DecodeEncode(w, n);
  }

  lemma LoadFrame(m: Memory, m': Memory, a: nat, n: nat)
    requires SameOn(m, m', a, n)
    ensures Mapped(m, a, n) && Mapped(m', a, n)
    ensures LoadWord(m, a, n) == LoadWord(m', a, n)
  {
    assert seq(n, (i: nat) requires i < n && Mapped(m, a, n) => m[a + i])
        == seq(n, (i: nat) requires i < n && Mapped(m', a, n) => m'[a + i]);
  }
}
