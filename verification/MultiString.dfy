/** Packed multi-string values: NUL-terminated strings one after another, closed by an empty string. */
module MultiString {
  import opened Arithmetic
  import opened Seqs

  const NUL := '\0'

  /** A string as C knows it: no terminator inside. */
  predicate Plain(s: string) {
    NUL !in s
  }

  predicate Entries(list: seq<string>) {
    forall i :: 0 <= i < |list| ==> list[i] != [] && Plain(list[i])
  }

  function Flat(list: seq<string>): string {
    if list == [] then [] else list[0] + [NUL] + Flat(list[1..])
  }

  function Encode(list: seq<string>): string {
    Flat(list) + [NUL]
  }

  /** The characters up to the first NUL or the end. */
  function Head(s: string): (h: string)
    ensures Plain(h) && |h| <= |s| && h == s[..|h|]
    ensures |h| == |s| || s[|h|] == '\0'
  {
    if s == [] || s[0] == NUL then [] else [s[0]] + Head(s[1..])
  }

  /** What a reader of the value sees: strings up to the first empty one. */
  function Decode(s: string): (list: seq<string>)
    ensures Entries(list)
    decreases |s|
  {
    var h := Head(s);
    if h == [] then [] else if |h| == |s| then [h] else [h] + Decode(s[|h| + 1..])
  }

  /** Each entry read has its NUL in the value; only then is there a place behind the last one. */
  predicate Terminated(s: string) {
    Flat(Decode(s)) <= s
  }

  /** The value has its closing empty string; what may follow it is not part of the list. */
  predicate Closed(s: string) {
    Encode(Decode(s)) <= s
  }

  function Zeros(n: nat): string {
    seq(n, i => NUL)
  }

  lemma {:induction false} HeadOf(e: string, rest: string)
    requires Plain(e)
    ensures Head(e + [NUL] + rest) == e
  {
    var s := e + [NUL] + rest;
    if e != [] {
      assert s[1..] == e[1..] + [NUL] + rest;
      HeadOf(e[1..], rest);
    }
  }

  lemma DecodeStep(e: string, rest: string)
    requires Plain(e) && e != []
    ensures Decode(e + [NUL] + rest) == [e] + Decode(rest)
  {
    HeadOf(e, rest);
    assert (e + [NUL] + rest)[|e| + 1..] == rest;
  }

  /** A packed list in front of anything is read entry by entry. */
  lemma {:induction false} DecodePrefix(list: seq<string>, tail: string)
    requires Entries(list)
    ensures Decode(Flat(list) + tail) == list + Decode(tail)
    decreases |list|
  {
    if list == [] {
      Empty(tail);
      Empty(Decode(tail));
    } else {
      var rest := Flat(list[1..]) + tail;
      Assoc(list[0] + [NUL], Flat(list[1..]), tail);
      DecodeStep(list[0], rest);
      DecodePrefix(list[1..], tail);
      HeadTail(list);
      Assoc([list[0]], list[1..], Decode(tail));
    }
  }

  /** Reading a packed list gives the list back, whatever follows its closing string. */
  lemma DecodeEncode(list: seq<string>, junk: string)
    requires Entries(list)
    ensures Decode(Encode(list) + junk) == list
  {
    DecodePrefix(list, [NUL] + junk);
    Assoc(Flat(list), [NUL], junk);
    assert Head([NUL] + junk) == [];
    Empty(list);
  }

  lemma ClosedIf(list: seq<string>, junk: string)
    requires Entries(list)
    ensures Decode(Encode(list) + junk) == list && Closed(Encode(list) + junk)
  {
    DecodeEncode(list, junk);
    TakeDropConcat(Encode(list), junk);
  }

  lemma {:induction false} FlatAppend(a: seq<string>, b: seq<string>)
    ensures Flat(a + b) == Flat(a) + Flat(b)
    decreases |a|
  {
    if a == [] {
      Empty(b);
    } else {
      TailOfConcat(a, b);
      FlatAppend(a[1..], b);
    }
  }

  lemma FlatSnoc(a: seq<string>, e: string)
    ensures Flat(a + [e]) == Flat(a) + e + [NUL]
  {
    FlatAppend(a, [e]);
    assert Flat([e]) == e + [NUL] + Flat([]);
  }

  /** A closed value is its packed list and whatever is behind. */
  lemma ClosedSplit(s: string) returns (junk: string)
    requires Closed(s)
    ensures s == Encode(Decode(s)) + junk && |junk| == |s| - |Encode(Decode(s))|
  {
    junk := s[|Encode(Decode(s))|..];
  }

  lemma PacksOneMore(h: string, rest: string, list: seq<string>)
    requires Flat(list) <= rest + [NUL] && (|Flat(list)| < |rest| ==> rest[|Flat(list)|] == NUL)
    ensures var s, f := h + [NUL] + rest, Flat([h] + list); f <= s + [NUL] && (|f| < |s| ==> s[|f|] == NUL)
  {
    TailOfConcat([h], list);
    Empty(list);
    Assoc(h + [NUL], rest, [NUL]);
    PrefixJoin(h + [NUL], Flat(list), rest + [NUL]);
  }

  /** What a reader finds, with a NUL behind the value: its entries, and another NUL if there is more. */
  lemma {:induction false} DecodePacks(s: string)
    ensures Flat(Decode(s)) <= s + [NUL]
    ensures |Flat(Decode(s))| < |s| ==> s[|Flat(Decode(s))|] == NUL
    decreases |s|
  {
    var h := Head(s);
    if h == [] {
      assert Flat([]) == [];
    } else if |h| == |s| {
      FlatSnoc([], h);
      Empty([h]);
      Empty(h + [NUL]);
      assert s == h;
    } else {
      var rest := s[|h| + 1..];
      DecodePacks(rest);
      assert s == h + [NUL] + rest;
      PacksOneMore(h, rest, Decode(rest));
    }
  }

  lemma PrefixJoin(a: string, b: string, c: string)
    requires b <= c
    ensures a + b <= a + c
  {
  }

  /** How far the entries reach decides: not past the value, and short of its end. */
  lemma ReachDecides(s: string)
    ensures Terminated(s) <==> |Flat(Decode(s))| <= |s|
    ensures Closed(s) <==> |Flat(Decode(s))| < |s|
    ensures !Terminated(s) ==> |Flat(Decode(s))| == |s| + 1
  {
    DecodePacks(s);
  }

  lemma FlatSplit(list: seq<string>, k: nat)
    requires k < |list|
    ensures Flat(list) == Flat(list[..k]) + list[k] + [NUL] + Flat(list[k + 1..])
    ensures Flat(list[..k + 1]) == Flat(list[..k]) + list[k] + [NUL]
  {
    Split(list, k + 1);
    TakeSnoc(list, k);
    FlatAppend(list[..k + 1], list[k + 1..]);
    FlatSnoc(list[..k], list[k]);
  }

  /** Where entry `k` of a list starts, and what is found there, whatever stands behind the list. */
  lemma EntryAt(list: seq<string>, k: nat, tail: string)
    requires Entries(list) && k <= |list|
    ensures var s, p := Flat(list) + tail, |Flat(list[..k])|;
            && p <= |Flat(list)|
            && (k == |list| ==> p == |Flat(list)|)
            && (k < |list| ==>
                  && p < |s| && s[p] != NUL && Head(s[p..]) == list[k]
                  && |Flat(list[..k + 1])| == p + |list[k]| + 1 <= |Flat(list)|)
  {
    var s, p := Flat(list) + tail, |Flat(list[..k])|;
    if k < |list| {
      FlatSplit(list, k);
      var rest := Flat(list[k + 1..]) + tail;
      assert s == Flat(list[..k]) + (list[k] + [NUL] + rest);
      assert s[p..] == list[k] + [NUL] + rest;
      HeadOf(list[k], rest);
      assert s[p] == list[k][0];
    } else {
      assert list[..k] == list;
    }
  }

  // ----- Taking a name out -----

  /** What is meant: the list without the name. */
  function Without(list: seq<string>, name: string): seq<string> {
    if list == [] then []
    else (if list[0] == name then [] else [list[0]]) + Without(list[1..], name)
  }

  /** What the copy loop leaves in the zero-filled buffer: a match advances it by one character only. */
  function Blanked(list: seq<string>, name: string): string {
    if list == [] then []
    else (if list[0] == name then [] else list[0]) + [NUL] + Blanked(list[1..], name)
  }

  lemma {:induction false} BlankedJoin(a: seq<string>, b: seq<string>, name: string)
    ensures Blanked(a + b, name) == Blanked(a, name) + Blanked(b, name)
    decreases |a|
  {
    if a == [] {
      Empty(b);
      Empty(Blanked(b, name));
    } else {
      TailOfConcat(a, b);
      BlankedJoin(a[1..], b, name);
      Assoc((if a[0] == name then [] else a[0]) + [NUL], Blanked(a[1..], name), Blanked(b, name));
    }
  }

  lemma {:induction false} WithoutJoin(a: seq<string>, b: seq<string>, name: string)
    ensures Without(a + b, name) == Without(a, name) + Without(b, name)
    decreases |a|
  {
    if a == [] {
      Empty(b);
      Empty(Without(b, name));
    } else {
      TailOfConcat(a, b);
      WithoutJoin(a[1..], b, name);
      Assoc(if a[0] == name then [] else [a[0]], Without(a[1..], name), Without(b, name));
    }
  }

  lemma BlankedAppend(a: seq<string>, b: seq<string>, name: string)
    ensures Blanked(a + b, name) == Blanked(a, name) + Blanked(b, name)
    ensures Without(a + b, name) == Without(a, name) + Without(b, name)
  {
    BlankedJoin(a, b, name);
    WithoutJoin(a, b, name);
  }

  /** Entry by entry: an empty string where the name stood, the entry otherwise. */
  function WithBlanks(list: seq<string>, name: string): (r: seq<string>)
    ensures |r| == |list| && forall i :: 0 <= i < |list| ==> r[i] == if list[i] == name then [] else list[i]
  {
    seq(|list|, i requires 0 <= i < |list| => if list[i] == name then [] else list[i])
  }

  lemma {:induction false} BlankedIs(list: seq<string>, name: string)
    ensures Blanked(list, name) == Flat(WithBlanks(list, name))
    decreases |list|
  {
    if list != [] {
      BlankedIs(list[1..], name);
      assert WithBlanks(list, name)[1..] == WithBlanks(list[1..], name);
    }
  }

  /** Taking a name out of no list, of one entry, and of two lists in a row. */
  lemma WithoutIs(e: string, a: seq<string>, b: seq<string>, name: string)
    ensures Without([], name) == []
    ensures Without([e], name) == if e == name then [] else [e]
    ensures Without(a + b, name) == Without(a, name) + Without(b, name)
  {
    BlankedAppend(a, b, name);
    assert [e][1..] == [];
    Empty([e]);
  }

  /** What the size loses: the name and its NUL, as often as it is listed. */
  lemma {:induction false} SizeLost(list: seq<string>, name: string)
    ensures |Flat(list)| == |Flat(Without(list, name))| + Times(multiset(list)[name], |name| + 1)
    decreases |list|
  {
    if list != [] {
      SizeLost(list[1..], name);
      FlatAppend(if list[0] == name then [] else [list[0]], Without(list[1..], name));
      FlatSnoc([], list[0]);
      Empty([list[0]]);
      OneMore(list, name);
    }
  }

  lemma OneMore(list: seq<string>, name: string)
    requires list != []
    ensures multiset(list)[name] == multiset(list[1..])[name] + if list[0] == name then 1 else 0
  {
    HeadTail(list);
    assert multiset(list) == multiset{list[0]} + multiset(list[1..]);
  }

  /** The destination never passes the source. */
  lemma {:induction false} BlankedFits(list: seq<string>, name: string)
    ensures |Blanked(list, name)| <= |Flat(list)|
    ensures |Flat(Without(list, name))| <= |Flat(list)|
    ensures name in list ==> |Flat(Without(list, name))| < |Blanked(list, name)|
    ensures |Flat(Without(list, name))| <= |Blanked(list, name)|
    decreases |list|
  {
    if list != [] {
      BlankedFits(list[1..], name);
      FlatAppend(if list[0] == name then [] else [list[0]], Without(list[1..], name));
      assert Flat([list[0]]) == list[0] + [NUL] + Flat([]);
      assert list == [list[0]] + list[1..];
    }
  }

  lemma {:induction false} WithoutAbsent(list: seq<string>, name: string)
    requires name !in list
    ensures Without(list, name) == list && Blanked(list, name) == Flat(list)
    decreases |list|
  {
    if list != [] {
      assert list == [list[0]] + list[1..];
      WithoutAbsent(list[1..], name);
    }
  }

  lemma {:induction false} WithoutEmpty(list: seq<string>, name: string)
    ensures Without(list, name) == [] <==> forall i :: 0 <= i < |list| ==> list[i] == name
    decreases |list|
  {
    if list != [] {
      WithoutEmpty(list[1..], name);
      assert forall i :: 0 <= i < |list[1..]| ==> list[1..][i] == list[i + 1];
      if forall i :: 0 <= i < |list[1..]| ==> list[1..][i] == name {
        assert forall i :: 1 <= i < |list| ==> list[i] == list[1..][i - 1];
      }
    }
  }

  /** The loop's buffer, zero-filled to the value's size, cut to the size left after subtracting the matches;
  `n` counts the characters behind the packed list. */
  function Cut(list: seq<string>, n: nat, name: string): string {
    var blank := Blanked(list, name);
    BlankedFits(list, name);
    (blank + Zeros(|Flat(list)| + 1 + n - |blank|))[..|Flat(Without(list, name))| + 1 + n]
  }

  /** The value DeregisterApplicationLog stores when the name is listed. */
  function Deregistered(s: string, name: string): string
    requires Closed(s)
  {
    Cut(Decode(s), |s| - |Encode(Decode(s))|, name)
  }

  function PadTo(s: string, n: nat): string {
    if |s| < n then s + Zeros(n - |s|) else s
  }

  /** Every byte of it: each entry with its NUL, an empty string where the name stood, then NULs; all cut off
  after as many bytes as are left when each listing of the name and its NUL is subtracted. */
  lemma DeregisteredBytes(s: string, name: string)
    requires Closed(s)
    ensures Deregistered(s, name) <= PadTo(Flat(WithBlanks(Decode(s), name)), |s|)
    ensures |Deregistered(s, name)| == |s| - Times(multiset(Decode(s))[name], |name| + 1)
  {
    var list, v := Decode(s), Deregistered(s, name);
    assert v == Cut(list, |s| - |Encode(list)|, name);
    CutBytes(list, |s| - |Encode(list)|, name, v);
  }

  lemma CutBytes(list: seq<string>, n: nat, name: string, v: string)
    requires v == Cut(list, n, name)
    ensures v <= PadTo(Flat(WithBlanks(list, name)), |Encode(list)| + n)
    ensures |v| == |Encode(list)| + n - Times(multiset(list)[name], |name| + 1)
  {
    var blank := Blanked(list, name);
    BlankedFits(list, name);
    BlankedIs(list, name);
    var m: nat, k: nat := |Flat(list)| + 1 + n - |blank|, |Flat(Without(list, name))| + 1 + n;
    CutOfPad(blank, m, k, Flat(WithBlanks(list, name)), |Encode(list)| + n);
    SizeLost(list, name);
  }

  lemma CutOfPad(s: string, m: nat, k: nat, t: string, size: nat)
    requires t == s && size == |s| + m && k <= size
    ensures (s + Zeros(m))[..k] <= PadTo(t, size) && |(s + Zeros(m))[..k]| == k
  {
    if m == 0 {
      Empty(s);
      assert Zeros(0) == [];
    }
  }

  function FirstIndex(list: seq<string>, name: string): (i: nat)
    requires name in list
    ensures i < |list| && list[i] == name
    ensures forall k :: 0 <= k < i ==> list[k] != name
  {
    if list[0] == name then 0 else
      assert forall k :: 1 <= k < |list| ==> list[k] == list[1..][k - 1];
      FirstIndex(list[1..], name) + 1
  }

  lemma WithoutFirst(rest: seq<string>, name: string)
    ensures Without([name] + rest, name) == Without(rest, name)
    ensures Blanked([name] + rest, name) == [NUL] + Blanked(rest, name)
  {
    TailOfConcat([name], rest);
    Empty(rest);
    Empty(Without(rest, name));
  }

  lemma AroundMatch(before: seq<string>, rest: seq<string>, name: string)
    requires name !in before
    ensures Without(before + [name] + rest, name) == before + Without(rest, name)
    ensures Blanked(before + [name] + rest, name) == Flat(before) + [NUL] + Blanked(rest, name)
  {
    Assoc(before, [name], rest);
    BlankedAppend(before, [name] + rest, name);
    WithoutAbsent(before, name);
    WithoutFirst(rest, name);
    Assoc(Flat(before), [NUL], Blanked(rest, name));
  }

  /** The list around the first match. */
  lemma SplitAtFirst(list: seq<string>, name: string)
    requires name in list
    ensures var i := FirstIndex(list, name);
            && Without(list, name) == list[..i] + Without(list[i + 1..], name)
            && Blanked(list, name) == Flat(list[..i]) + [NUL] + Blanked(list[i + 1..], name)
            && Flat(Without(list, name)) == Flat(list[..i]) + Flat(Without(list[i + 1..], name))
  {
    var i := FirstIndex(list, name);
    AroundMatch(list[..i], list[i + 1..], name);
    Around(list, i);
    FlatAppend(list[..i], Without(list[i + 1..], name));
  }

  /** The stored value begins with the entries before the first match and their closing string. */
  lemma CutPrefix(list: seq<string>, n: nat, name: string) returns (junk: string)
    requires name in list
    ensures Cut(list, n, name) == Encode(list[..FirstIndex(list, name)]) + junk
  {
    SplitAtFirst(list, name);
    BlankedFits(list, name);
    var head := Encode(list[..FirstIndex(list, name)]);
    var more := Blanked(list[FirstIndex(list, name) + 1..], name);
    var filler := Zeros(|Flat(list)| + 1 + n - |Blanked(list, name)|);
    junk := (more + filler)[..|Cut(list, n, name)| - |head|];
    CutConcat(head, more, filler, |Cut(list, n, name)|);
  }

  lemma CutConcat(head: string, more: string, filler: string, n: nat)
    requires |head| <= n <= |head| + |more| + |filler|
    ensures ((head + more) + filler)[..n] == head + (more + filler)[..n - |head|]
  {
  }

  /** If only the name follows its first occurrence, what is stored is the packed list without it. */
  lemma CutExact(list: seq<string>, n: nat, name: string)
    requires name in list && Without(list[FirstIndex(list, name) + 1..], name) == []
    ensures Without(list, name) == list[..FirstIndex(list, name)]
    ensures Cut(list, n, name) == Encode(Without(list, name)) + Zeros(n)
  {
    var before, rest := list[..FirstIndex(list, name)], list[FirstIndex(list, name) + 1..];
    SplitAtFirst(list, name);
    WithoutEmpty(rest, name);
    BlankedOnly(rest, name);
    BlankedFits(list, name);
    Empty(before);
    assert Without(list, name) == before;
    assert Blanked(list, name) == Flat(before) + [NUL] + Zeros(|rest|);
    ZerosCut(Flat(before), |rest|, |Flat(list)| + 1 + n - |Blanked(list, name)|, n);
  }

  lemma ZerosCut(a: string, k: nat, m: nat, n: nat)
    requires n <= k + m
    ensures ((a + [NUL] + Zeros(k)) + Zeros(m))[..|a| + 1 + n] == a + [NUL] + Zeros(n)
  {
  }

  lemma CutReads(list: seq<string>, n: nat, name: string, v: string)
    requires Entries(list) && name in list && v == Cut(list, n, name)
    ensures Decode(v) == list[..FirstIndex(list, name)] && Closed(v)
  {
    var junk := CutPrefix(list, n, name);
    ClosedIf(list[..FirstIndex(list, name)], junk);
  }

  /** Deregistering leaves exactly the entries before the first occurrence of the name readable. */
  lemma DeregisterKeepsBefore(s: string, name: string)
    requires Closed(s) && name in Decode(s)
    ensures Decode(Deregistered(s, name)) == Decode(s)[..FirstIndex(Decode(s), name)]
    ensures Closed(Deregistered(s, name))
  {
    var list, v := Decode(s), Deregistered(s, name);
    assert v == Cut(list, |s| - |Encode(list)|, name);
    CutReads(list, |s| - |Encode(list)|, name, v);
  }

  predicate OnlyNameFollows(list: seq<string>, name: string)
    requires name in list
  {
    forall i :: FirstIndex(list, name) < i < |list| ==> list[i] == name
  }

  /** So it removes the name and nothing but the name exactly when only the name stands behind its first
  occurrence; and then the stored bytes are the packed remaining list, closed as before. */
  lemma DeregisterIsRemovalIff(s: string, name: string)
    requires Closed(s) && name in Decode(s)
    ensures Decode(Deregistered(s, name)) == Without(Decode(s), name) <==> OnlyNameFollows(Decode(s), name)
    ensures (Deregistered(s, name) == Encode(Without(Decode(s), name)) + Zeros(|s| - |Encode(Decode(s))|))
         <==> OnlyNameFollows(Decode(s), name)
  {
    var list, v := Decode(s), Deregistered(s, name);
    assert v == Cut(list, |s| - |Encode(list)|, name);
    CutIsRemovalIff(list, |s| - |Encode(list)|, name);
  }

  lemma CutIsRemovalIff(list: seq<string>, n: nat, name: string)
    requires Entries(list) && name in list
    ensures Decode(Cut(list, n, name)) == Without(list, name) <==> OnlyNameFollows(list, name)
    ensures (Cut(list, n, name) == Encode(Without(list, name)) + Zeros(n)) <==> OnlyNameFollows(list, name)
  {
    OnlyNameIff(list, name);
    CutReads(list, n, name, Cut(list, n, name));
    if Without(list[FirstIndex(list, name) + 1..], name) == [] {
      CutExact(list, n, name);
    } else {
      CutFallsShort(list, n, name);
    }
  }

  /** If another entry follows the first match, it is missing from what is read. */
  lemma CutFallsShort(list: seq<string>, n: nat, name: string)
    requires Entries(list) && name in list && Without(list[FirstIndex(list, name) + 1..], name) != []
    ensures Decode(Cut(list, n, name)) != Without(list, name)
    ensures Cut(list, n, name) != Encode(Without(list, name)) + Zeros(n)
  {
    SplitAtFirst(list, name);
    CutReads(list, n, name, Cut(list, n, name));
    assert |Without(list, name)| > |Decode(Cut(list, n, name))|;
    WithoutEntries(list, name);
    DecodeEncode(Without(list, name), Zeros(n));
  }

  lemma OnlyNameIff(list: seq<string>, name: string)
    requires name in list
    ensures OnlyNameFollows(list, name) <==> Without(list[FirstIndex(list, name) + 1..], name) == []
  {
    var i := FirstIndex(list, name);
    var rest := list[i + 1..];
    WithoutEmpty(rest, name);
    if OnlyNameFollows(list, name) {
      assert forall j :: 0 <= j < |rest| ==> rest[j] == list[i + 1 + j];
    } else {
      var j :| i < j < |list| && list[j] != name;
      assert rest[j - i - 1] == list[j];
    }
  }

  lemma {:induction false} WithoutEntries(list: seq<string>, name: string)
    requires Entries(list)
    ensures Entries(Without(list, name))
    decreases |list|
  {
    if list != [] { WithoutEntries(list[1..], name); }
  }

  lemma {:induction false} BlankedOnly(list: seq<string>, name: string)
    requires forall i :: 0 <= i < |list| ==> list[i] == name
    ensures Blanked(list, name) == Zeros(|list|)
    decreases |list|
  {
    if list != [] {
      BlankedOnly(list[1..], name);
      assert Zeros(|list|) == [NUL] + Zeros(|list| - 1);
    }
  }

  // ----- Putting a name in -----

  /** The name and its NUL written over `full` at `p`. */
  function Splice(full: string, p: nat, name: string): string
    requires p + |name| + 1 <= |full|
  {
    full[..p] + name + [NUL] + full[p + |name| + 1..]
  }

  /** The value RegisterApplicationLog stores when the name is not listed: the name over what follows the
  last entry, the whole longer by the name. */
  function Registered(s: string, name: string): string
    requires Terminated(s)
  {
    Splice(s + Zeros(|name| + 1), |Flat(Decode(s))|, name)
  }

  /** What stands in the old value where the inserted name and its NUL will end. */
  function Behind(s: string, name: string): string {
    From(s, |Flat(Decode(s))| + |name| + 1)
  }

  function From(s: string, q: nat): string {
    if q <= |s| then s[q..] else []
  }

  /** Nothing, or a NUL, stands there. */
  predicate ClosesBehind(s: string, name: string) {
    Head(Behind(s, name)) == []
  }

  /** On a value with nothing behind its closing string, registering stores the packing of the longer list. */
  lemma RegisterEncoded(list: seq<string>, name: string)
    requires Entries(list)
    ensures Decode(Encode(list)) == list && Terminated(Encode(list)) && Closed(Encode(list))
    ensures Registered(Encode(list), name) == Encode(list + [name])
  {
    DecodeEncode(list, []);
    assert Encode(list) + [] == Encode(list);
    FlatSnoc(list, name);
    var full := Encode(list) + Zeros(|name| + 1);
    assert full[..|Flat(list)|] == Flat(list);
    assert full[|Flat(list)| + |name| + 1..] == [NUL];
  }

  lemma DropZeros(s: string, q: nat, m: nat) returns (n: nat)
    requires q <= |s| + m
    ensures (s + Zeros(m))[q..] == From(s, q) + Zeros(n) && |From(s, q)| + n == |s| + m - q
    ensures From(s, q) == [] || n == m
  {
    n := |s| + m - q - |From(s, q)|;
    assert forall i :: 0 <= i < |s| + m - q ==> (s + Zeros(m))[q..][i] == (From(s, q) + Zeros(n))[i];
  }

  lemma SpliceSplit(f: string, s: string, name: string) returns (n: nat)
    requires f <= s
    ensures Splice(s + Zeros(|name| + 1), |f|, name) == f + name + [NUL] + (From(s, |f| + |name| + 1) + Zeros(n))
    ensures |From(s, |f| + |name| + 1)| + n == |s| - |f|
    ensures From(s, |f| + |name| + 1) == [] || n == |name| + 1
  {
    n := DropZeros(s, |f| + |name| + 1, |name| + 1);
    assert (s + Zeros(|name| + 1))[..|f|] == f;
  }

  /** The stored value: the entries, the name, and what stood behind it, zeros appended. */
  lemma RegisteredSplit(s: string, name: string) returns (n: nat)
    requires Terminated(s)
    ensures Registered(s, name) == Flat(Decode(s)) + name + [NUL] + (Behind(s, name) + Zeros(n))
    ensures |Behind(s, name)| + n == |s| - |Flat(Decode(s))|
    ensures Behind(s, name) == [] || n == |name| + 1
  {
    n := SpliceSplit(Flat(Decode(s)), s, name);
  }

  lemma {:induction false} DecodeZeros(s: string, n: nat)
    ensures Decode(s + Zeros(n)) == Decode(s)
    decreases |s|
  {
    var h := Head(s);
    if |h| == |s| {
      Empty(s);
      Empty([h]);
      if n > 0 {
        assert s + Zeros(n) == h + [NUL] + Zeros(n - 1);
        HeadOf(h, Zeros(n - 1));
        if h != [] { DecodeStep(h, Zeros(n - 1)); }
      } else {
        assert s + Zeros(0) == s;
      }
    } else {
      var rest := s[|h| + 1..];
      assert s == h + [NUL] + rest;
      Assoc(h + [NUL], rest, Zeros(n));
      HeadOf(h, rest + Zeros(n));
      if h != [] {
        DecodeStep(h, rest + Zeros(n));
        DecodeZeros(rest, n);
      }
    }
  }

  /** What a reader finds afterwards: the entries before, the name, and what is read behind it. */
  lemma RegisteredReads(s: string, name: string)
    requires Terminated(s) && Plain(name) && name != []
    ensures Decode(Registered(s, name)) == Decode(s) + [name] + Decode(Behind(s, name))
  {
    var n := RegisteredSplit(s, name);
    FlatSnoc(Decode(s), name);
    DecodePrefix(Decode(s) + [name], Behind(s, name) + Zeros(n));
    DecodeZeros(Behind(s, name), n);
  }

  /** In general the list grows by the name, and by nothing else, exactly when the name is not empty and the
  old value has nothing, or a NUL, where the name will end. */
  lemma RegisterAppendsIff(s: string, name: string)
    requires Terminated(s) && Plain(name)
    ensures Decode(Registered(s, name)) == Decode(s) + [name] <==> name != [] && ClosesBehind(s, name)
  {
    var list := Decode(s);
    if name == [] {
      var n := RegisteredSplit(s, name);
      Empty(Flat(list));
      ClosedIf(list, Behind(s, name) + Zeros(n));
      assert |list| != |list + [name]|;
    } else {
      RegisteredReads(s, name);
      assert Decode(Behind(s, name)) == [] <==> ClosesBehind(s, name);
      Empty(list + [name]);
      assert |list + [name] + Decode(Behind(s, name))| == |list + [name]| + |Decode(Behind(s, name))|;
    }
  }

  /** Registering keeps the closing string there is, and adds none, unless the name is empty. */
  lemma RegisteredClosedIff(s: string, name: string)
    requires Terminated(s) && Plain(name)
    ensures Terminated(Registered(s, name))
    ensures Closed(Registered(s, name)) <==> Closed(s) || name == []
  {
    var n := RegisteredSplit(s, name);
    ReachDecides(s);
    ReachDecides(Registered(s, name));
    if name == [] {
      Empty(Flat(Decode(s)));
      ClosedIf(Decode(s), Behind(s, name) + Zeros(n));
    } else {
      var behind := Decode(Behind(s, name));
      RegisteredReads(s, name);
      FlatSnoc(Decode(s), name);
      FlatAppend(Decode(s) + [name], behind);
      ReachDecides(Behind(s, name));
    }
  }

  /** Once registered, a name is listed, so registering it again writes nothing; and the entries before it are
  the ones there were. */
  lemma RegisteredIsListed(s: string, name: string)
    requires Terminated(s) && Plain(name) && name != []
    ensures name in Decode(Registered(s, name))
    ensures Decode(s) + [name] <= Decode(Registered(s, name))
  {
    RegisteredReads(s, name);
    assert (Decode(s) + [name])[|Decode(s)|] == name;
  }

  lemma DistinctJoin(a: seq<string>, b: seq<string>)
    ensures Distinct(a + b) <==> Distinct(a) && Distinct(b) && Disjoint(b, a)
  {
    var c := a + b;
    if Distinct(c) {
      assert forall i :: 0 <= i < |a| ==> c[i] == a[i];
      assert forall i :: 0 <= i < |b| ==> c[|a| + i] == b[i];
    }
    forall i, j | 0 <= i < j < |c| && Distinct(a) && Distinct(b) && Disjoint(b, a) ensures c[i] != c[j] {
      if j >= |a| { assert c[j] == b[j - |a|] && b[j - |a|] in b; }
    }
  }

  /** A new name keeps the stored list free of duplicates exactly when what is read behind it has none, neither
  among itself nor with what is listed; so it does if the value closes right behind the name. */
  lemma RegisterKeepsDistinctIff(s: string, name: string)
    requires Terminated(s) && Plain(name) && name != [] && name !in Decode(s) && Distinct(Decode(s))
    ensures Distinct(Decode(Registered(s, name))) <==>
              Distinct(Decode(Behind(s, name))) && Disjoint(Decode(Behind(s, name)), Decode(s) + [name])
    ensures ClosesBehind(s, name) ==> Distinct(Decode(Registered(s, name)))
  {
    RegisteredReads(s, name);
    DistinctJoin(Decode(s), [name]);
    DistinctJoin(Decode(s) + [name], Decode(Behind(s, name)));
  }

  predicate AllNul(s: string) {
    forall i :: 0 <= i < |s| ==> s[i] == NUL
  }

  lemma AllNulIsZeros(s: string)
    requires AllNul(s)
    ensures s == Zeros(|s|) && Decode(s) == []
  {
  }

  lemma LastCharacter(list: seq<string>)
    requires Entries(list) && list != []
    ensures |Flat(list)| >= 2 && Flat(list)[|Flat(list)| - 2] != NUL && Flat(list)[|Flat(list)| - 1] == NUL
  {
    var k := |list| - 1;
    FlatSplit(list, k);
    assert list[k + 1..] == [];
    Empty(Flat(list[..k]) + list[k] + [NUL]);
    assert Flat(list)[|Flat(list)| - 2] == list[k][|list[k]| - 1];
  }

  lemma ShiftedPastEnd(f: string, n: nat, d: nat)
    requires |f| >= 2 && f[|f| - 1] == NUL && 0 < d && |f| - 2 < |f| + n - d
    ensures (f + Zeros(n))[d..][|f| - 2] == NUL
  {
  }

  /** A packed list with only NULs behind it that is read again at a later place is empty: the last character of
  its last entry would be missing. */
  lemma ShiftedListIsEmpty(list: seq<string>, n: nat, d: nat)
    requires Entries(list) && 0 < d <= |Flat(list)| + n && Flat(list) <= (Flat(list) + Zeros(n))[d..]
    ensures list == []
  {
    if list != [] {
      LastCharacter(list);
      ShiftedPastEnd(Flat(list), n, d);
    }
  }

  /** What follows the list, and what is left of it behind the name and some zeros. */
  function Shifted(junk: string, name: string): string {
    (junk + Zeros(|name| + 1))[|name|..]
  }

  lemma RegisteredShifts(list: seq<string>, junk: string, name: string)
    requires Entries(list)
    ensures Decode(Encode(list) + junk) == list && Terminated(Encode(list) + junk)
    ensures Registered(Encode(list) + junk, name) == Flat(list) + name + [NUL] + Shifted(junk, name)
  {
    ClosedIf(list, junk);
    ReachDecides(Encode(list) + junk);
    CutInside(Flat(list), junk, Zeros(|name| + 1), |name|);
  }

  lemma CutInside(a: string, b: string, c: string, d: nat)
    requires d <= |b| + |c|
    ensures var full := a + [NUL] + b + c; full[..|a|] == a && full[|a| + d + 1..] == (b + c)[d..]
  {
  }

  lemma LongerParts(list: seq<string>, name: string, more: seq<string>)
    requires name !in list
    ensures var longer := list + [name] + more;
            && Blanked(longer, name) == Encode(list) + Blanked(more, name)
            && |Flat(Without(longer, name))| == |Flat(list)| + |Flat(Without(more, name))|
            && |Flat(longer)| == |Flat(list)| + |name| + 1 + |Flat(more)|
  {
    AroundMatch(list, more, name);
    FlatAppend(list, Without(more, name));
    FlatAppend(list + [name], more);
    FlatSnoc(list, name);
  }

  /** A cut in terms of its parts. */
  lemma CutParts(longer: seq<string>, n: nat, name: string, a: string, b: string, kept: nat)
    requires Blanked(longer, name) == a + b && |Flat(Without(longer, name))| + 1 == |a| + kept
    ensures |Cut(longer, n, name)| == |a| + kept + n
    ensures kept == |b| ==> Cut(longer, n, name) == a + (b + Zeros(n))
  {
    BlankedFits(longer, name);
    var m := |Flat(longer)| + 1 + n - |a + b|;
    if kept == |b| { CutToSize(a, b, m, n); }
  }

  /** The value after both operations: as long as before, unless the name is read again behind itself. */
  lemma CutOfLonger(list: seq<string>, n: nat, name: string, more: seq<string>)
    requires name !in list
    ensures var longer := list + [name] + more;
            && |Cut(longer, n, name)| == |Encode(list)| + |Flat(Without(more, name))| + n
            && (name !in more ==> Cut(longer, n, name) == Encode(list) + (Flat(more) + Zeros(n)))
  {
    LongerParts(list, name, more);
    if name !in more { WithoutAbsent(more, name); }
    CutParts(list + [name] + more, n, name, Encode(list), Blanked(more, name), |Flat(Without(more, name))|);
  }

  lemma CutToSize(a: string, b: string, m: nat, n: nat)
    requires n <= m
    ensures ((a + b) + Zeros(m))[..|a| + |b| + n] == a + (b + Zeros(n))
  {
    CutConcat(a, b, Zeros(m), |a| + |b| + n);
    TakeZeros(b, m, n);
  }

  lemma TakeZeros(a: string, m: nat, n: nat)
    requires n <= m
    ensures (a + Zeros(m))[..|a| + n] == a + Zeros(n)
  {
  }

  lemma ReadsShifted(list: seq<string>, junk: string, name: string)
    requires Entries(list) && Plain(name) && name != []
    ensures var s := Encode(list) + junk;
            && Terminated(s) && Registered(s, name) == Flat(list + [name]) + Shifted(junk, name)
            && Decode(Registered(s, name)) == list + [name] + Decode(Shifted(junk, name))
  {
    RegisteredShifts(list, junk, name);
    FlatSnoc(list, name);
    DecodePrefix(list + [name], Shifted(junk, name));
  }

  /** The length of the registered value. */
  lemma ShiftedLength(list: seq<string>, junk: string, name: string)
    requires Entries(list) && Plain(name) && name != []
    ensures Terminated(Encode(list) + junk)
    ensures var r, more := Registered(Encode(list) + junk, name), Decode(Shifted(junk, name));
            |Flat(more)| <= |junk| && Closed(r) && |r| == |Flat(list + [name] + more)| + 1 + (|junk| - |Flat(more)|)
  {
    var s, more := Encode(list) + junk, Decode(Shifted(junk, name));
    ReadsShifted(list, junk, name);
    ClosedIf(list, junk);
    RegisteredClosedIff(s, name);
    FlatAppend(list + [name], more);
    ReachDecides(Registered(s, name));
  }

  lemma DeregisteredIs(r: string, list: seq<string>, n: nat, name: string)
    requires Closed(r) && Decode(r) == list && |r| == |Flat(list)| + 1 + n
    ensures Deregistered(r, name) == Cut(list, n, name)
  {
  }

  /** Both operations in a row, in terms of what is read behind the name in between. */
  lemma RoundTrip(list: seq<string>, junk: string, name: string)
    requires Entries(list) && Plain(name) && name != [] && name !in list
    ensures var s, more := Encode(list) + junk, Decode(Shifted(junk, name));
            && Terminated(s) && Closed(Registered(s, name)) && |Flat(more)| <= |junk|
            && Deregistered(Registered(s, name), name) == Cut(list + [name] + more, |junk| - |Flat(more)|, name)
  {
    var more := Decode(Shifted(junk, name));
    ReadsShifted(list, junk, name);
    ShiftedLength(list, junk, name);
    DeregisteredIs(Registered(Encode(list) + junk, name), list + [name] + more, |junk| - |Flat(more)|, name);
  }

  lemma ZerosJoin(a: string, m: nat, n: nat)
    ensures a + Zeros(m) + Zeros(n) == a + Zeros(m + n)
  {
  }

  lemma PrefixWithout(a: string, b: string)
    requires a <= b + [NUL] && |a| <= |b|
    ensures a <= b
  {
  }

  lemma RereadIsEmpty(more: seq<string>, n: nat, junk: string, name: string)
    requires junk == Flat(more) + Zeros(n) && more == Decode(Shifted(junk, name)) && name != []
    ensures more == []
  {
    DecodePacks(Shifted(junk, name));
    PrefixWithout(Flat(more), Shifted(junk, name));
    ZerosJoin(Flat(more), n, |name| + 1);
    ShiftedListIsEmpty(more, n + |name| + 1, |name|);
  }

  lemma JoinInjective(a: string, b: string, c: string)
    requires a + b == a + c
    ensures b == c
  {
    TakeDropConcat(a, b);
    TakeDropConcat(a, c);
  }

  lemma RestoredOnlyIf(list: seq<string>, junk: string, name: string, more: seq<string>)
    requires name !in list && name != [] && more == Decode(Shifted(junk, name)) && |Flat(more)| <= |junk|
    requires Cut(list + [name] + more, |junk| - |Flat(more)|, name) == Encode(list) + junk
    ensures AllNul(junk)
  {
    var n := |junk| - |Flat(more)|;
    CutOfLonger(list, n, name, more);
    BlankedFits(more, name);
    JoinInjective(Encode(list), Flat(more) + Zeros(n), junk);
    RereadIsEmpty(more, n, junk, name);
  }

  lemma RestoredIf(list: seq<string>, junk: string, name: string, more: seq<string>)
    requires name !in list && more == Decode(Shifted(junk, name)) && AllNul(junk)
    ensures more == [] && Cut(list + [name] + more, |junk|, name) == Encode(list) + junk
  {
    AllNulIsZeros(junk);
    assert AllNul(Shifted(junk, name));
    AllNulIsZeros(Shifted(junk, name));
    CutOfLonger(list, |junk|, name, more);
    Empty(Zeros(|junk|));
  }

  lemma CutRestoresIff(list: seq<string>, junk: string, name: string, more: seq<string>, s: string, v: string)
    requires name !in list && name != [] && more == Decode(Shifted(junk, name)) && |Flat(more)| <= |junk|
    requires s == Encode(list) + junk && v == Cut(list + [name] + more, |junk| - |Flat(more)|, name)
    ensures v == s <==> AllNul(junk)
  {
    if AllNul(junk) {
      RestoredIf(list, junk, name, more);
    } else if v == s {
      RestoredOnlyIf(list, junk, name, more);
    }
  }

  lemma RestoredIff(list: seq<string>, junk: string, name: string)
    requires Entries(list) && Plain(name) && name != [] && name !in list
    ensures var s := Encode(list) + junk;
            && Terminated(s) && Closed(Registered(s, name))
            && (Deregistered(Registered(s, name), name) == s <==> AllNul(junk))
  {
    var s := Encode(list) + junk;
    RoundTrip(list, junk, name);
    CutRestoresIff(list, junk, name, Decode(Shifted(junk, name)), s, Deregistered(Registered(s, name), name));
  }

  /** Registering a new name and deregistering it restores the value byte for byte, size included, exactly when
  there are only NULs behind the old value's closing string; so it does on a packed list. */
  lemma RegisterThenDeregister(s: string, name: string)
    requires Closed(s) && Plain(name) && name != [] && name !in Decode(s)
    ensures Terminated(s) && Closed(Registered(s, name)) && name in Decode(Registered(s, name))
    ensures Deregistered(Registered(s, name), name) == s <==> AllNul(s[|Encode(Decode(s))|..])
  {
    var junk := ClosedSplit(s);
    RestoredIff(Decode(s), junk, name);
    RegisteredIsListed(s, name);
  }

  /** A residue is not restored. */
  lemma ResidueIsNotRestored(other: string, name: string)
    requires Plain(other) && other != [] && Plain(name) && name != []
    ensures var s := [NUL] + other + [NUL];
            && Closed(s) && Terminated(s) && Closed(Registered(s, name))
            && Deregistered(Registered(s, name), name) != s
  {
    var s := [NUL] + other + [NUL];
    assert Head(s) == [];
    assert Decode(s) == [] && Flat([]) == [];
    RegisterThenDeregister(s, name);
    assert s[|Encode([])|..][0] == other[0];
  }

  lemma DecodeTwo(a: string, b: string, rest: string)
    requires Plain(a) && Plain(b) && a != [] && b != []
    ensures Decode(a + [NUL] + (b + [NUL] + ([NUL] + rest))) == [a, b]
  {
    DecodeStep(a, b + [NUL] + ([NUL] + rest));
    DecodeStep(b, [NUL] + rest);
  }

  /** The two operations do not compose in general.  Deregistering the first of two sources leaves the other
  one behind the closing string ... */
  lemma DeregisterLeavesResidue(name: string, other: string)
    requires Plain(name) && Plain(other) && name != [] && other != [] && name != other
    ensures Closed(Encode([name, other])) && Decode(Encode([name, other])) == [name, other]
    ensures Deregistered(Encode([name, other]), name) == [NUL] + other + [NUL]
  {
    var list := [name, other];
    Pair(name, other);
    Pair(other, other);
    RegisterEncoded(list, name);
    AroundMatch([], [other], name);
    WithoutAbsent([other], name);
    FlatSnoc([], other);
    FlatSnoc([name], other);
    FlatSnoc([], name);
    Empty(name + [NUL]);
    Empty(other + [NUL]);
    CutOfPair(list, name, other);
    assert Deregistered(Encode(list), name) == Cut(list, 0, name);
  }

  lemma CutOfPair(list: seq<string>, name: string, other: string)
    requires Blanked(list, name) == [] + [NUL] + (other + [NUL])
    requires |Flat(Without(list, name))| == |other| + 1 && |Flat(list)| == |name| + |other| + 2 && name != []
    ensures Cut(list, 0, name) == [NUL] + other + [NUL]
  {
    var blank := Blanked(list, name);
    BlankedFits(list, name);
    TakeDropConcat(blank, Zeros(|Flat(list)| + 1 - |blank|));
    assert |blank| == |other| + 2;
  }

  /** ... and registering a shorter name brings its tail back as an entry. */
  lemma RegisterCanResurrect(other: string, name: string)
    requires Plain(other) && Plain(name) && 0 < |name| < |other|
    ensures var s := [NUL] + other + [NUL]; Closed(s) && Terminated(s) && Decode(s) == []
    ensures Decode(Registered([NUL] + other + [NUL], name)) == [name, other[|name|..]]
  {
    var s := [NUL] + other + [NUL];
    assert Head(s) == [];
    assert Decode(s) == [] && Flat([]) == [];
    ResidueTail(other, |name|);
    Empty(name);
    DecodeTwo(name, other[|name|..], Zeros(|name|));
  }

  /** So a list without duplicates can get one: after the first of two sources is gone, the other's residue may
  be the new name twice over. */
  lemma RegisterCanDuplicate(first: string, name: string)
    requires Plain(first) && first != [] && Plain(name) && name != [] && first != name + name
    ensures var s := [NUL] + (name + name) + [NUL];
            && Closed(Encode([first, name + name])) && Deregistered(Encode([first, name + name]), first) == s
            && Terminated(s) && Decode(s) == [] && Decode(Registered(s, name)) == [name, name]
  {
    DeregisterLeavesResidue(first, name + name);
    RegisterCanResurrect(name + name, name);
    TakeDropConcat(name, name);
  }

  /** What is left of a residue when its first `n` characters are overwritten. */
  lemma ResidueTail(other: string, n: nat)
    requires n < |other|
    ensures var full := [NUL] + other + [NUL] + Zeros(n + 1);
            full[..0] == [] && full[n + 1..] == other[n..] + [NUL] + ([NUL] + Zeros(n))
  {
    var full, tail := [NUL] + other + [NUL] + Zeros(n + 1), other[n..] + [NUL] + ([NUL] + Zeros(n));
    forall i | 0 <= i < |tail| ensures full[n + 1..][i] == tail[i] {
    }
  }
}
