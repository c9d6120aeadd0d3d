/** The in-place edits of the event log's "Sources" value, on buffers of one-byte characters.

`stored` is what the registry query delivers, None if it fails.  The value may lack its closing string or even the
NUL of its last entry; then a loop may reach past its buffer, which is an outcome of its own. */
module EventLogSources {
  import opened MultiString
  import opened Options
  import opened Seqs

  /** _tcscpy: the string and its NUL over `dst` from `to` on. */
  method CopyString(dst: array<char>, to: nat, src: string)
    requires to + |src| + 1 <= dst.Length
    modifies dst
    ensures dst[..] == Splice(old(dst[..]), to, src)
  {
    var i := 0;
    while i < |src|
      invariant 0 <= i <= |src|
      invariant forall j :: 0 <= j < i ==> dst[to + j] == src[j]
      invariant forall j :: 0 <= j < dst.Length && !(to <= j < to + i) ==> dst[j] == old(dst[j])
    {
      dst[to + i] := src[i];
      i := i + 1;
    }
    dst[to + i] := NUL;
    ghost var whole := Splice(old(dst[..]), to, src);
    forall j | 0 <= j < dst.Length ensures dst[j] == whole[j] {
      if to <= j < to + |src| { assert dst[to + (j - to)] == src[j - to]; }
    }
    assert dst[..] == whole;
  }

  datatype Outcome =
    | Untouched               // nothing is written back
    | Stored(value: string)   // this is
    | Overran                 // a read or a write past the end of a buffer

  /** strlen and strcmp stay in bounds where a NUL is ahead. */
  predicate NulAhead(s: string, p: nat) {
    p <= |s| && p + |Head(s[p..])| < |s|
  }

  function StringAt(s: string, p: nat): string
    requires NulAhead(s, p)
  {
    Head(s[p..])
  }

  lemma {:induction false} HeadPadded(s: string)
    ensures Head(s + [NUL]) == Head(s)
  {
    HeadOf(Head(s), if |Head(s)| == |s| then [] else s[|Head(s)| + 1..] + [NUL]);
    assert s + [NUL] == Head(s) + [NUL] + if |Head(s)| == |s| then [] else s[|Head(s)| + 1..] + [NUL];
  }

  lemma DropPadded(s: string, p: nat)
    requires p <= |s|
    ensures (s + [NUL])[p..] == s[p..] + [NUL]
  {
  }

  /** Where a buffer's entry `k` starts, what strlen finds there if a NUL is ahead, and whether one is. */
  lemma EntryIn(s: string, list: seq<string>, k: nat)
    requires list == Decode(s) && k <= |list|
    ensures var p := |Flat(list[..k])|;
            && (k == |list| ==> p == |Flat(list)| && (p < |s| ==> s[p] == NUL))
            && (k < |list| ==>
                  && p < |s| && s[p] != NUL && Head(s[p..]) == list[k]
                  && |Flat(list[..k + 1])| == p + |list[k]| + 1 <= |Flat(list)| <= |s| + 1)
  {
    var padded, p := s + [NUL], |Flat(list[..k])|;
    DecodePacks(s);
    var tail := padded[|Flat(list)|..];
    assert padded == Flat(list) + tail;
    EntryAt(list, k, tail);
    if k < |list| {
      DropPadded(s, p);
      HeadPadded(s[p..]);
    }
  }

  method RegisterApplicationLog(stored: Option<string>, name: string) returns (r: Outcome)
    requires Plain(name)
    ensures r ==
            if stored.None? || name in Decode(stored.value) then Untouched
            else if Terminated(stored.value) then Stored(Registered(stored.value, name))
            else Overran
  {
    if stored.None? {
      return Untouched;
    }
    var value := stored.value;
    var newSize := |value| + |name| + 1;
    var buffer := new char[newSize](i => if 0 <= i < |value| then value[i] else NUL);
    ghost var full := value + Zeros(|name| + 1);
    assert buffer[..] == full;
    var p, found := FindSource(buffer, value, name);
    ReachDecides(value);
    if found {
      return Untouched;
    }
    if p + |name| + 1 > newSize {
      return Overran;
    }
    CopyString(buffer, p, name);
    r := Stored(buffer[..]);
  }

  /** The search loop: it stops at the name, or behind the last entry. */
  method FindSource(buffer: array<char>, value: string, name: string) returns (p: nat, found: bool)
    requires Plain(name) && buffer[..] == value + Zeros(|name| + 1)
    ensures found <==> name in Decode(value)
    ensures !found ==> p == |Flat(Decode(value))|
  {
    ghost var full, list, k := value + Zeros(|name| + 1), Decode(value), 0;
    DecodeZeros(value, |name| + 1);
    ReachDecides(value);
    EntryIn(full, list, 0);
    p := 0;
    while p < buffer.Length && buffer[p] != NUL
      invariant k <= |list| && p == |Flat(list[..k])| && name !in list[..k]
      invariant k == |list| ==> p == |Flat(list)| && (p < |full| ==> full[p] == NUL)
      decreases |list| - k
    {
      EntryIn(full, list, k);
      var entry := StringAt(buffer[..], p);
      if entry == name {
        return p, true;
      }
      TakeSnoc(list, k);
      p := p + |entry| + 1;
      k := k + 1;
      EntryIn(full, list, k);
    }
    EntryIn(full, list, k);
    TakeAll(list);
    found := false;
  }

  /** The destination buffer after `k` entries: the blanked entries, zeros behind. */
  ghost predicate Copied(dst: string, list: seq<string>, k: nat, name: string)
    requires k <= |list|
  {
    var done := Blanked(list[..k], name);
    |done| <= |dst| && dst == done + Zeros(|dst| - |done|)
  }

  lemma BlankedSnoc(list: seq<string>, k: nat, name: string)
    requires k < |list|
    ensures Blanked(list[..k + 1], name) == Blanked(list[..k], name) + (if list[k] == name then [] else list[k]) + [NUL]
    ensures |Flat(Without(list[..k + 1], name))| ==
            |Flat(Without(list[..k], name))| + if list[k] == name then 0 else |list[k]| + 1
  {
    TakeSnoc(list, k);
    BlankedAppend(list[..k], [list[k]], name);
    var entry := if list[k] == name then [] else list[k];
    assert Blanked([list[k]], name) == entry + [NUL] + Blanked([list[k]][1..], name) == entry + [NUL];
    Assoc(Blanked(list[..k], name), entry, [NUL]);
    var kept := if list[k] == name then [] else [list[k]];
    assert Without([list[k]], name) == kept + Without([list[k]][1..], name) == kept;
    FlatAppend(Without(list[..k], name), kept);
    FlatSnoc([], list[k]);
    Empty([list[k]]);
  }

  lemma CopyEntry(dst: string, dst': string, done: string, entry: string)
    requires |done| + |entry| + 1 <= |dst| && dst == done + Zeros(|dst| - |done|) && Plain(entry)
    requires dst' == Splice(dst, |done|, entry) || (entry == [] && dst' == dst)
    ensures dst' == done + entry + [NUL] + Zeros(|dst| - |done| - |entry| - 1)
    ensures NulAhead(dst', |done|) && StringAt(dst', |done|) == entry
  {
    SpliceZeros(done, |dst| - |done|, entry);
    var rest := Zeros(|dst| - |done| - |entry| - 1);
    assert dst'[|done|..] == entry + [NUL] + rest;
    HeadOf(entry, rest);
  }

  /** One turn of the copy loop, seen on the destination buffer: strlen then finds the entry copied, or
  nothing where it was skipped. */
  lemma CopyStep(dst: string, dst': string, list: seq<string>, k: nat, name: string)
    requires k < |list| && Entries(list) && Copied(dst, list, k, name)
    requires |Blanked(list[..k], name)| + |list[k]| + 1 <= |dst|
    requires dst' == if list[k] == name then dst else Splice(dst, |Blanked(list[..k], name)|, list[k])
    ensures Copied(dst', list, k + 1, name)
    ensures NulAhead(dst', |Blanked(list[..k], name)|)
    ensures StringAt(dst', |Blanked(list[..k], name)|) == if list[k] == name then [] else list[k]
  {
    CopyEntry(dst, dst', Blanked(list[..k], name), if list[k] == name then [] else list[k]);
    BlankedSnoc(list, k, name);
  }

  lemma SpliceZeros(done: string, n: nat, entry: string)
    requires |entry| + 1 <= n
    ensures Splice(done + Zeros(n), |done|, entry) == done + entry + [NUL] + Zeros(n - |entry| - 1)
    ensures entry == [] ==> Splice(done + Zeros(n), |done|, entry) == done + Zeros(n)
  {
  }

  /** The copy loop's variables after `k` entries of a buffer of `total` characters: the destination offset never
  passes the source offset, and the size has lost exactly the matches. */
  ghost predicate Turned(list: seq<string>, total: nat, k: nat, name: string,
                         p: nat, pNew: nat, size: int, needSave: bool)
  {
    && k <= |list|
    && p == |Flat(list[..k])| <= total
    && pNew == |Blanked(list[..k], name)| <= p
    && (needSave <==> name in list[..k])
    && size == total - p + |Flat(Without(list[..k], name))|
  }

  lemma TurnStep(list: seq<string>, total: nat, k: nat, name: string,
                 p: nat, pNew: nat, size: int, needSave: bool)
    requires Turned(list, total, k, name, p, pNew, size, needSave) && k < |list| && p + |list[k]| < total
    ensures Turned(list, total, k + 1, name, p + |list[k]| + 1,
                   pNew + (if list[k] == name then 0 else |list[k]|) + 1,
                   if list[k] == name then size - (|list[k]| + 1) else size,
                   needSave || list[k] == name)
  {
    FlatSplit(list, k);
    BlankedSnoc(list, k, name);
    TakeSnoc(list, k);
    BlankedFits(list[..k + 1], name);
  }

  /** When the loop ends, the prefix stored is the cut of the specification. */
  lemma CutOfBuffer(dst: string, s: string, name: string, size: nat)
    requires Closed(s) && |dst| == |s|
    requires Copied(dst, Decode(s), |Decode(s)|, name)
    requires size == |s| - |Flat(Decode(s))| + |Flat(Without(Decode(s), name))|
    ensures size <= |dst| && dst[..size] == Deregistered(s, name)
  {
    TakeAll(Decode(s));
    BlankedFits(Decode(s), name);
  }

  /** One turn of the copy loop. */
  method CopyTurn(buffer: array<char>, newBuffer: array<char>, name: string,
                  p: nat, pNew: nat, size: nat, needSave: bool,
                  ghost list: seq<string>, ghost k: nat)
    returns (p': nat, pNew': nat, size': int, needSave': bool)
    requires list == Decode(buffer[..]) && k < |list| && NulAhead(buffer[..], p)
    requires buffer != newBuffer && newBuffer.Length == buffer.Length
    requires Turned(list, buffer.Length, k, name, p, pNew, size, needSave) && Copied(newBuffer[..], list, k, name)
    modifies newBuffer
    ensures Turned(list, buffer.Length, k + 1, name, p', pNew', size', needSave')
    ensures Copied(newBuffer[..], list, k + 1, name)
  {
    EntryIn(buffer[..], list, k);
    TurnStep(list, buffer.Length, k, name, p, pNew, size, needSave);
    ghost var before := newBuffer[..];
    size', needSave' := size, needSave;
    var entry := StringAt(buffer[..], p);
    if entry != name {
      CopyString(newBuffer, pNew, entry);
    } else {
      needSave' := true;
      size' := size - (|entry| + 1);
    }
    CopyStep(before, newBuffer[..], list, k, name);
    p' := p + |entry| + 1;
    pNew' := pNew + |StringAt(newBuffer[..], pNew)| + 1;
  }

  /** The copy loop of DeregisterApplicationLog: it stays in bounds exactly on closed values. */
  method CopyOthers(buffer: array<char>, newBuffer: array<char>, name: string)
    returns (inBounds: bool, size: nat, needSave: bool)
    requires buffer != newBuffer && newBuffer.Length == buffer.Length && newBuffer[..] == Zeros(buffer.Length)
    modifies newBuffer
    ensures inBounds <==> Closed(buffer[..])
    ensures var list := Decode(buffer[..]);
            inBounds ==>
              && Copied(newBuffer[..], list, |list|, name)
              && (needSave <==> name in list)
              && size == buffer.Length - |Flat(list)| + |Flat(Without(list, name))|
  {
    size, needSave := buffer.Length, false;
    var p: nat, pNew: nat := 0, 0;
    ghost var list, k := Decode(buffer[..]), 0;
    ReachDecides(buffer[..]);
    while p < buffer.Length && buffer[p] != NUL
      invariant Turned(list, buffer.Length, k, name, p, pNew, size, needSave)
      invariant Copied(newBuffer[..], list, k, name)
      decreases |list| - k
    {
      EntryIn(buffer[..], list, k);
      if !NulAhead(buffer[..], p) {
        return false, size, needSave;
      }
      p, pNew, size, needSave := CopyTurn(buffer, newBuffer, name, p, pNew, size, needSave, list, k);
      k := k + 1;
    }
    EntryIn(buffer[..], list, k);
    TakeAll(list);
    inBounds := p < buffer.Length;
  }

  method DeregisterApplicationLog(stored: Option<string>, name: string) returns (r: Outcome)
    requires Plain(name)
    ensures r ==
            if stored.None? then Untouched
            else if !Closed(stored.value) then Overran
            else if name in Decode(stored.value) then Stored(Deregistered(stored.value, name))
            else Untouched
  {
    if stored.None? {
      return Untouched;
    }
    var value := stored.value;
    var buffer := new char[|value|](i requires 0 <= i < |value| => value[i]);
    var newBuffer := new char[|value|](i => NUL);
    assert buffer[..] == value && newBuffer[..] == Zeros(|value|);
    var inBounds, size, needSave := CopyOthers(buffer, newBuffer, name);
    if !inBounds {
      return Overran;
    }
    CutOfBuffer(newBuffer[..], value, name, size);
    r := if needSave then Stored(newBuffer[..][..size]) else Untouched;
  }
}
