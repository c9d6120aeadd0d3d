/** What a client may rely on in the object a pop hands out: exactly when its buffer is its own memory. */
module SendPoolBuffers {
  import opened Options
  import opened SendPoolMachine
  import opened SendPoolProgress
  import opened SendPoolProofs

  /** The object's buffer is its own memory, right behind its header, and has room for `nLen` bytes. */
  predicate OwnBuffer(p: Ptr, o: Obj) {
    o.szBuffer == p + HEADER && HEADER + o.nLen <= o.size
  }

  /** Objects without a length may point anywhere: they are reallocated before a buffer is asked of them. */
  predicate Sound(p: Ptr, o: Obj) {
    o.nLen > 0 ==> OwnBuffer(p, o)
  }

  /** Every object that can be handed out again: lost ones cannot. */
  ghost predicate BuffersSound(s: State) {
    forall p: Ptr :: p in s.heap && !At(s, p, Lost) ==> Sound(p, s.heap[p])
  }

  predicate Pending(pc: PC) {
    pc.PopEnter? || InPop(pc)
  }

  /** The requests under way fit 32-bit sizes together with the header. */
  ghost predicate RequestsFit(s: State) {
    forall t: Tid :: Pending(s.Pc(t)) ==> HEADER + s.Pc(t).n < WORD
  }

  predicate Fits(a: Action) {
    a.StartPop? ==> HEADER + a.n < WORD
  }

  /** Callers ask for sizes that fit, and store a foreign address only in objects that have no length. */
  predicate Harmless(s: State, a: Action) {
    Fits(a) && (a.Redirect? ==> a.p in s.heap && (s.heap[a.p].nLen == 0 || a.to == a.p + HEADER))
  }

  /** What the last statement of a pop leaves in the heap.  An object long enough comes back as it is, and nothing
  else changes; a shorter one is replaced by one of the length asked for with its own buffer; and a new one has
  that length, and its own buffer or, for no length, none. */
  lemma PopReturns(s: State, t: Tid, reply: Ptr)
    requires Inv(s) && LastOfPop(s, t, reply) && s.Pc(t).n < WORD
    requires Returned(s, t, reply) != 0
    ensures var n, r, s' := s.Pc(t).n, Returned(s, t, reply), PopStep(s, t, reply);
            && At(s', r, Client) && r in s'.heap && s'.heap[r].nLen >= n
            && (s.Pc(t).PopReuse? ==> s'.heap[r].nLen >= s.heap[s.Pc(t).p].nLen)
            && (s.Pc(t).PopReuse? && (n == 0 || s.heap[s.Pc(t).p].nLen >= n) ==> r == s.Pc(t).p && s'.heap == s.heap)
            && (s.Pc(t).PopFresh? || (n > 0 && s.heap[s.Pc(t).p].nLen < n) ==>
                  && r == reply && s'.heap[r].nLen == n && s'.heap[r].sendPosted
                  && s'.heap[r].szBuffer == (if n == 0 then 0 else r + HEADER)
                  && s'.heap[r].size == (HEADER + n) % WORD
                  && (n > 0 ==> (OwnBuffer(r, s'.heap[r]) <==> HEADER + n < WORD)))
  {
    if Held(s.Pc(t)).Some? { assert HandAt(s, t, Held(s.Pc(t)).value); }
  }

  /** No other block of the heap is touched. */
  lemma PopLeavesOthers(s: State, t: Tid, reply: Ptr, q: Ptr)
    requires LastOfPop(s, t, reply) && q != Returned(s, t, reply) && !(s.Pc(t).PopReuse? && q == s.Pc(t).p)
    ensures var s' := PopStep(s, t, reply);
            (q in s'.heap <==> q in s.heap) && (q in s.heap ==> s'.heap[q] == s.heap[q])
  {
  }

  // ----- Objects without a length -----

  /** An object without a length has no buffer. */
  ghost predicate NoLengthNoBuffer(s: State) {
    forall p: Ptr :: p in s.heap && s.heap[p].nLen == 0 ==> s.heap[p].szBuffer == 0
  }

  lemma PopKeepsNoBuffer(s: State, t: Tid, reply: Ptr)
    requires NoLengthNoBuffer(s) && StepEnabled(s, t, reply) && InPop(s.Pc(t))
    ensures NoLengthNoBuffer(PopStep(s, t, reply))
  {
  }

  lemma PushKeepsNoBuffer(s: State, t: Tid, reply: Ptr)
    requires NoLengthNoBuffer(s) && StepEnabled(s, t, reply) && InPush(s.Pc(t))
    ensures NoLengthNoBuffer(PushStep(s, t, reply))
  {
  }

  lemma StepKeepsNoBuffer(s: State, a: Action)
    requires NoLengthNoBuffer(s) && Enabled(s, a) && !a.Redirect?
    ensures NoLengthNoBuffer(Next(s, a))
  {
    if a.Step? {
      if InPop(s.Pc(a.t)) { PopKeepsNoBuffer(s, a.t, a.reply); }
      else if InPush(s.Pc(a.t)) { PushKeepsNoBuffer(s, a.t, a.reply); }
    }
  }

  /** Over every run in which no client stores an address. */
  lemma {:induction false} RunKeepsNoBuffer(s: State, run: seq<Action>)
    requires NoLengthNoBuffer(s) && Runs(s, run) && forall a :: a in run ==> !a.Redirect?
    ensures NoLengthNoBuffer(After(s, run))
    decreases |run|
  {
    if run != [] {
      assert run[0] in run;
      StepKeepsNoBuffer(s, run[0]);
      RunKeepsNoBuffer(Next(s, run[0]), run[1..]);
    }
  }

  // ----- The condition is kept -----

  lemma LastOfPopKeepsBuffers(s: State, t: Tid, reply: Ptr)
    requires HandInv(s) && BuffersSound(s) && LastOfPop(s, t, reply) && HEADER + s.Pc(t).n < WORD
    ensures BuffersSound(PopStep(s, t, reply))
  {
    if s.Pc(t).PopReuse? { assert HandAt(s, t, s.Pc(t).p); }
  }

  /** Before that a pop leaves the heap alone, and lost objects where they are. */
  lemma PopKeepsBuffers(s: State, t: Tid, reply: Ptr)
    requires Inv(s) && BuffersSound(s) && StepEnabled(s, t, reply) && InPop(s.Pc(t)) && HEADER + s.Pc(t).n < WORD
    ensures BuffersSound(PopStep(s, t, reply))
  {
    if LastOfPop(s, t, reply) {
      LastOfPopKeepsBuffers(s, t, reply);
    } else if s.Pc(t).PopFront? {
      AtStart(s, t);
      FrontIsPooled(s);
      assert StillSo(s, t);
    }
  }

  lemma PushKeepsBuffers(s: State, t: Tid, reply: Ptr)
    requires Inv(s) && BuffersSound(s) && StepEnabled(s, t, reply) && InPush(s.Pc(t))
    ensures BuffersSound(PushStep(s, t, reply))
  {
    if Held(s.Pc(t)).Some? { assert HandAt(s, t, Held(s.Pc(t)).value); }
  }

  lemma ClearKeepsBuffers(s: State, t: Tid, reply: Ptr)
    requires BuffersSound(s) && StepEnabled(s, t, reply) && InClear(s.Pc(t))
    ensures BuffersSound(ClearStep(s, t, reply))
  {
  }

  lemma OthersKeepBuffers(s: State, a: Action)
    requires BuffersSound(s) && Enabled(s, a) && Harmless(s, a) && !a.Step?
    ensures BuffersSound(Next(s, a))
  {
    forall p: Ptr | p in Next(s, a).heap && !At(Next(s, a), p, Lost) ensures Sound(p, Next(s, a).heap[p]) {
      assert p in s.heap && !At(s, p, Lost) ==> Sound(p, s.heap[p]);
    }
  }

  lemma PopKeepsRequest(s: State, t: Tid, reply: Ptr)
    requires StepEnabled(s, t, reply) && InPop(s.Pc(t))
    ensures var pc := PopStep(s, t, reply).Pc(t); pc == Idle || (InPop(pc) && pc.n == s.Pc(t).n)
  {
  }

  lemma PushIsNoPop(s: State, t: Tid, reply: Ptr)
    requires StepEnabled(s, t, reply) && InPush(s.Pc(t))
    ensures !Pending(PushStep(s, t, reply).Pc(t))
  {
  }

  lemma NoPopYet(s: State, a: Action, t: Tid)
    requires Enabled(s, a) && Actor(a) == Some(t) && (a.StartPush? || a.StartClear?)
    ensures !Pending(Next(s, a).Pc(t))
  {
  }

  lemma AcquireKeepsRequest(s: State, t: Tid)
    requires AtEntry(s.Pc(t))
    ensures Pending(DoAcquire(s, t).Pc(t)) ==> Pending(s.Pc(t)) && DoAcquire(s, t).Pc(t).n == s.Pc(t).n
  {
  }

  /** A pop keeps its request from its first statement to its last. */
  lemma RequestStays(s: State, a: Action, t: Tid)
    requires Enabled(s, a) && Actor(a) == Some(t) && !a.StartPop?
    ensures Pending(Next(s, a).Pc(t)) ==> Pending(s.Pc(t)) && Next(s, a).Pc(t).n == s.Pc(t).n
  {
    if a.Step? {
      if InPop(s.Pc(t)) { PopKeepsRequest(s, t, a.reply); }
      else if InPush(s.Pc(t)) { PushIsNoPop(s, t, a.reply); }
    } else if a.Acquire? {
      AcquireKeepsRequest(s, t);
    } else {
      NoPopYet(s, a, t);
    }
  }

  lemma RequestsKept(s: State, a: Action)
    requires Enabled(s, a) && RequestsFit(s) && Fits(a)
    ensures RequestsFit(Next(s, a))
  {
    forall u: Tid ensures Pending(Next(s, a).Pc(u)) ==> HEADER + Next(s, a).Pc(u).n < WORD {
      assert Pending(s.Pc(u)) ==> HEADER + s.Pc(u).n < WORD;
      if Actor(a) != Some(u) { OthersStay(s, a, u); }
      else if !a.StartPop? { RequestStays(s, a, u); }
    }
  }

  lemma StepKeepsBuffers(s: State, a: Action)
    requires Inv(s) && Enabled(s, a) && BuffersSound(s) && RequestsFit(s) && Harmless(s, a)
    ensures BuffersSound(Next(s, a)) && RequestsFit(Next(s, a))
  {
    RequestsKept(s, a);
    if a.Step? && InPop(s.Pc(a.t)) {
      assert Pending(s.Pc(a.t)) ==> HEADER + s.Pc(a.t).n < WORD;
      PopKeepsBuffers(s, a.t, a.reply);
    } else if a.Step? && InPush(s.Pc(a.t)) {
      PushKeepsBuffers(s, a.t, a.reply);
    } else if a.Step? {
      ClearKeepsBuffers(s, a.t, a.reply);
    } else {
      OthersKeepBuffers(s, a);
    }
  }

  ghost predicate HarmlessRun(s: State, run: seq<Action>)
    requires Runs(s, run)
    decreases |run|
  {
    run == [] || (Harmless(s, run[0]) && HarmlessRun(Next(s, run[0]), run[1..]))
  }

  lemma {:induction false} RunKeepsBuffers(s: State, run: seq<Action>)
    requires Inv(s) && Runs(s, run) && BuffersSound(s) && RequestsFit(s) && HarmlessRun(s, run)
    ensures BuffersSound(After(s, run)) && RequestsFit(After(s, run))
    decreases |run|
  {
    if run != [] {
      StepKeepsInv(s, run[0]);
      StepKeepsBuffers(s, run[0]);
      RunKeepsBuffers(Next(s, run[0]), run[1..]);
    }
  }

  /** If the pop that takes its last step asked for bytes and returns an object, that object has its own buffer,
  no shorter than asked. */
  predicate PopOwns(s: State, t: Tid, reply: Ptr) {
    LastOfPop(s, t, reply) && s.Pc(t).n > 0 && Returned(s, t, reply) != 0 ==>
      var r, s' := Returned(s, t, reply), PopStep(s, t, reply);
      r in s'.heap && OwnBuffer(r, s'.heap[r]) && s'.heap[r].nLen >= s.Pc(t).n
  }

  lemma SoundPopOwns(s: State, t: Tid, reply: Ptr)
    requires Inv(s) && BuffersSound(s) && RequestsFit(s)
    ensures PopOwns(s, t, reply)
  {
    if LastOfPop(s, t, reply) && s.Pc(t).n > 0 && Returned(s, t, reply) != 0 {
      assert Pending(s.Pc(t)) ==> HEADER + s.Pc(t).n < WORD;
      PopReturns(s, t, reply);
      if s.Pc(t).PopReuse? { assert HandAt(s, t, s.Pc(t).p); }
    }
  }

  /** After any run of harmless actions, whatever a pop with a positive request returns has its own buffer,
  long enough. */
  lemma PopAfterHarmlessRun(run: seq<Action>, t: Tid, reply: Ptr)
    requires Runs(INITIAL, run) && HarmlessRun(INITIAL, run)
    ensures PopOwns(After(INITIAL, run), t, reply)
  {
    InitialInv();
    EveryRunKeepsInv(INITIAL, run);
    RunKeepsBuffers(INITIAL, run);
    SoundPopOwns(After(INITIAL, run), t, reply);
  }

  // ----- The condition is needed: one thread, undisturbed, can have any object returned -----

  predicate Tame(a: Action) {
    Fits(a) && !a.Redirect?
  }

  /** Requests fit and no client stores an address. */
  ghost predicate Ordinary(run: seq<Action>) {
    forall a :: a in run ==> Tame(a)
  }

  /** A run to `s'`, an ordinary one if `tame` asks for it. */
  ghost predicate Brings(s: State, run: seq<Action>, s': State, tame: bool) {
    Leads(s, run, s') && (tame ==> Ordinary(run))
  }

  lemma Extend(s0: State, run: seq<Action>, s: State, tame: bool, a: Action) returns (longer: seq<Action>, s': State)
    requires Brings(s0, run, s, tame) && Enabled(s, a) && (tame ==> Tame(a))
    ensures s' == Next(s, a) && Brings(s0, longer, s', tame)
  {
    RunSnoc(s0, run, a);
    longer, s' := run + [a], Next(s, a);
  }

  lemma Own(s0: State, run: seq<Action>, s: State, tame: bool, t: Tid) returns (longer: seq<Action>, s': State)
    requires Brings(s0, run, s, tame) && StepEnabled(s, t, 0)
    ensures s' == DoStep(s, t, 0) && Brings(s0, longer, s', tame)
  {
    longer, s' := Extend(s0, run, s, tame, Step(t, 0));
  }

  /** The lock is free and the thread is idle. */
  predicate Ready(s: State, t: Tid) {
    s.lock == None && s.Pc(t) == Idle
  }

  lemma SoloEnterPop(s0: State, run: seq<Action>, s: State, tame: bool, t: Tid, n: nat)
    returns (longer: seq<Action>, s': State)
    requires Brings(s0, run, s, tame) && Ready(s, t) && n < WORD && (tame ==> HEADER + n < WORD)
    ensures Brings(s0, longer, s', tame)
    ensures s'.Pc(t) == PopLocked(n) && SameList(s, s') && SameHeap(s, s') && s'.place == s.place
  {
    longer, s' := Extend(s0, run, s, tame, StartPop(t, n));
    longer, s' := Extend(s0, longer, s', tame, Acquire(t));
  }

  lemma SoloRead(s0: State, run: seq<Action>, s: State, tame: bool, t: Tid, n: nat)
    returns (longer: seq<Action>, s': State)
    requires Brings(s0, run, s, tame) && Ready(s, t) && n < WORD && (tame ==> HEADER + n < WORD) && s.list != []
    ensures Brings(s0, longer, s', tame)
    ensures s'.Pc(t) == PopFront(n, s.list[0]) && SameList(s, s') && SameHeap(s, s') && s'.place == s.place
  {
    longer, s' := SoloEnterPop(s0, run, s, tame, t, n);
    longer, s' := Own(s0, longer, s', tame, t);
    longer, s' := Own(s0, longer, s', tame, t);
  }

  /** A pop up to its last statement. */
  lemma SoloTake(s0: State, run: seq<Action>, s: State, tame: bool, t: Tid, n: nat)
    returns (longer: seq<Action>, s': State)
    requires Brings(s0, run, s, tame) && Ready(s, t) && n < WORD && (tame ==> HEADER + n < WORD) && s.list != []
    ensures Brings(s0, longer, s', tame)
    ensures s'.Pc(t) == PopReuse(n, s.list[0]) && s'.lock == None && s'.heap == s.heap
    ensures s'.list == s.list[1..] && s'.maxCount == s.maxCount && s'.place == s.place[s.list[0] := Hand(t)]
  {
    longer, s' := SoloRead(s0, run, s, tame, t, n);
    longer, s' := Own(s0, longer, s', tame, t);
    longer, s' := Own(s0, longer, s', tame, t);
  }

  /** A pop that asks for nothing gives the client the front as it is. */
  lemma SoloSkip(s0: State, run: seq<Action>, s: State, tame: bool, t: Tid)
    returns (longer: seq<Action>, s': State)
    requires Brings(s0, run, s, tame) && Ready(s, t) && s.list != [] && s.list[0] in s.heap
    ensures Brings(s0, longer, s', tame) && Ready(s', t) && s'.heap == s.heap
    ensures s'.list == s.list[1..] && s'.maxCount == s.maxCount && s'.place == s.place[s.list[0] := Client]
  {
    longer, s' := SoloTake(s0, run, s, tame, t, 0);
    longer, s' := Own(s0, longer, s', tame, t);
  }

  lemma SoloEnterPush(s0: State, run: seq<Action>, s: State, tame: bool, t: Tid, p: Ptr)
    returns (longer: seq<Action>, s': State)
    requires Brings(s0, run, s, tame) && Ready(s, t) && At(s, p, Client)
    ensures Brings(s0, longer, s', tame) && s'.Pc(t) == PushLocked(p) && SameList(s, s') && SameHeap(s, s')
  {
    longer, s' := Extend(s0, run, s, tame, StartPush(t, p));
    longer, s' := Extend(s0, longer, s', tame, Acquire(t));
  }

  lemma SoloPush(s0: State, run: seq<Action>, s: State, tame: bool, t: Tid, p: Ptr)
    returns (longer: seq<Action>, s': State)
    requires Brings(s0, run, s, tame) && Ready(s, t) && |s.list| < s.maxCount && At(s, p, Client)
    ensures Brings(s0, longer, s', tame) && Ready(s', t) && s'.heap == s.heap && s'.list == s.list + [p]
  {
    longer, s' := SoloEnterPush(s0, run, s, tame, t, p);
    longer, s' := Own(s0, longer, s', tame, t);
    longer, s' := SoloStore(s0, longer, s', tame, t, p);
  }

  lemma SoloStore(s0: State, run: seq<Action>, s: State, tame: bool, t: Tid, p: Ptr)
    returns (longer: seq<Action>, s': State)
    requires Brings(s0, run, s, tame) && s.Pc(t) == PushRoom(p)
    ensures Brings(s0, longer, s', tame) && Ready(s', t) && s'.heap == s.heap && s'.list == s.list + [p]
  {
    longer, s' := Own(s0, run, s, tame, t);
    longer, s' := Own(s0, longer, s', tame, t);
  }

  lemma Reached(s0: State, run: seq<Action>, s: State)
    requires Inv(s0) && Leads(s0, run, s)
    ensures Inv(s)
  {
    EveryRunKeepsInv(s0, run);
  }

  /** In a reachable state the front is there to be skipped. */
  lemma SkipFront(s0: State, run: seq<Action>, s: State, tame: bool, t: Tid)
    returns (longer: seq<Action>, s': State)
    requires Inv(s0) && Brings(s0, run, s, tame) && Ready(s, t) && s.list != []
    ensures Brings(s0, longer, s', tame) && Ready(s', t) && s'.heap == s.heap
    ensures s'.list == s.list[1..] && s'.maxCount == s.maxCount
    ensures forall p: Ptr :: At(s, p, Client) ==> At(s', p, Client)
  {
    Reached(s0, run, s);
    FrontIsPooled(s);
    longer, s' := SoloSkip(s0, run, s, tame, t);
  }

  /** Skipping the first `i` of the list. */
  lemma {:induction false} SkipMany(s0: State, run: seq<Action>, s: State, tame: bool, t: Tid, i: nat)
    returns (longer: seq<Action>, s': State)
    requires Inv(s0) && Brings(s0, run, s, tame) && Ready(s, t) && i <= |s.list|
    ensures Brings(s0, longer, s', tame) && Ready(s', t) && s'.heap == s.heap && s'.list == s.list[i..]
    decreases i
  {
    longer, s' := run, s;
    if i > 0 {
      longer, s' := SkipFront(s0, run, s, tame, t);
      longer, s' := SkipMany(s0, longer, s', tame, t, i - 1);
    }
  }

  /** The object at any place of the list comes out once those before it are taken. */
  lemma BringOutPooled(s0: State, run: seq<Action>, s: State, tame: bool, t: Tid, n: nat, i: nat)
    returns (longer: seq<Action>, s': State)
    requires Inv(s0) && Brings(s0, run, s, tame) && Ready(s, t) && i < |s.list|
    requires n < WORD && (tame ==> HEADER + n < WORD)
    ensures Brings(s0, longer, s', tame) && s'.Pc(t) == PopReuse(n, s.list[i]) && s'.heap == s.heap
  {
    longer, s' := SkipMany(s0, run, s, tame, t, i);
    longer, s' := SoloTake(s0, longer, s', tame, t, n);
  }

  /** A client's object comes out once it is pushed, after a pop that makes room if the list is full. */
  lemma BringOutClients(s0: State, run: seq<Action>, s: State, tame: bool, t: Tid, n: nat, p: Ptr)
    returns (longer: seq<Action>, s': State)
    requires Inv(s0) && Brings(s0, run, s, tame) && Ready(s, t) && s.maxCount > 0 && At(s, p, Client)
    requires n < WORD && (tame ==> HEADER + n < WORD)
    ensures Brings(s0, longer, s', tame) && s'.Pc(t) == PopReuse(n, p) && s'.heap == s.heap
  {
    longer, s' := MakeRoom(s0, run, s, tame, t);
    var list := s'.list;
    longer, s' := SoloPush(s0, longer, s', tame, t, p);
    longer, s' := BringOutPooled(s0, longer, s', tame, t, n, |list|);
  }

  lemma MakeRoom(s0: State, run: seq<Action>, s: State, tame: bool, t: Tid)
    returns (longer: seq<Action>, s': State)
    requires Inv(s0) && Brings(s0, run, s, tame) && Ready(s, t) && s.maxCount > 0
    ensures Brings(s0, longer, s', tame) && Ready(s', t) && s'.heap == s.heap && |s'.list| < s'.maxCount
    ensures forall p: Ptr :: At(s, p, Client) ==> At(s', p, Client)
  {
    Reached(s0, run, s);
    longer, s' := run, s;
    if |s.list| == s.maxCount {
      longer, s' := SkipFront(s0, run, s, tame, t);
    }
  }

  /** Any object that is pooled or a client's can be brought to the last statement of any pop. */
  lemma BringOut(s: State, tame: bool, t: Tid, n: nat, p: Ptr) returns (run: seq<Action>, s': State)
    requires Inv(s) && Ready(s, t) && s.maxCount > 0 && (At(s, p, Pooled) || At(s, p, Client))
    requires n < WORD && (tame ==> HEADER + n < WORD)
    ensures Brings(s, run, s', tame) && s'.Pc(t) == PopReuse(n, p) && s'.heap == s.heap
  {
    if At(s, p, Client) {
      run, s' := BringOutClients(s, [], s, tame, t, n, p);
    } else {
      assert p in PoolList(s) && s.itr == 0;
      var i: nat :| i < |s.list| && s.list[i] == p;
      run, s' := BringOutPooled(s, [], s, tame, t, n, i);
    }
  }

  // ----- The exact condition -----

  /** Whatever follows without another address stored and with requests that fit, every pop that asks for bytes
  returns an object with its own buffer, or nothing. */
  ghost predicate EveryPopOwns(s: State) {
    forall run: seq<Action>, t: Tid, reply: Ptr :: Runs(s, run) && Ordinary(run) ==> PopOwns(After(s, run), t, reply)
  }

  lemma {:induction false} OrdinaryIsHarmless(s: State, run: seq<Action>)
    requires Runs(s, run) && Ordinary(run)
    ensures HarmlessRun(s, run)
    decreases |run|
  {
    if run != [] {
      assert Tame(run[0]);
      OrdinaryIsHarmless(Next(s, run[0]), run[1..]);
    }
  }

  lemma SoundForever(s: State)
    requires Inv(s) && BuffersSound(s) && RequestsFit(s)
    ensures EveryPopOwns(s)
  {
    forall run: seq<Action>, t: Tid, reply: Ptr | Runs(s, run) && Ordinary(run)
      ensures PopOwns(After(s, run), t, reply)
    {
      OrdinaryIsHarmless(s, run);
      EveryRunKeepsInv(s, run);
      RunKeepsBuffers(s, run);
      SoundPopOwns(After(s, run), t, reply);
    }
  }

  /** With no operation under way the bound can be raised, should it be 0. */
  lemma WithRoom(s: State) returns (run: seq<Action>, s': State)
    requires Inv(s) && AllIdle(s)
    ensures Brings(s, run, s', true) && Ready(s', 0) && s'.maxCount > 0
    ensures s'.heap == s.heap && s'.place == s.place
  {
    run, s' := [], s;
    IdleIsReady(s, 0);
    if s.maxCount == 0 {
      run, s' := Extend(s, run, s, true, SetMax(1));
    }
  }

  lemma IdleIsReady(s: State, t: Tid)
    requires LockInv(s) && AllIdle(s)
    ensures Ready(s, t)
  {
    assert s.Pc(t) == Idle;
    forall u: Tid ensures s.lock != Some(u) {
      assert Critical(s.Pc(u)) <==> s.lock == Some(u);
    }
  }

  /** The promise, once given, holds later on. */
  lemma StillOwns(s: State, run: seq<Action>, s': State)
    requires Brings(s, run, s', true) && EveryPopOwns(s)
    ensures EveryPopOwns(s')
  {
    forall more: seq<Action>, t: Tid, reply: Ptr | Runs(s', more) && Ordinary(more)
      ensures PopOwns(After(s', more), t, reply)
    {
      RunConcat(s, run, more);
      assert Runs(s, run + more) && Ordinary(run + more);
    }
  }

  /** An unsound object comes out some day. */
  lemma UnsoundComesOut(s: State, p: Ptr)
    requires Inv(s) && AllIdle(s) && p in s.heap && !At(s, p, Lost) && !Sound(p, s.heap[p])
    ensures !EveryPopOwns(s)
  {
    assert s.place[p].Hand? ==> HandAt(s, s.place[p].t, p);
    var run, s1 := WithRoom(s);
    Reached(s, run, s1);
    var more, s2 := BringOut(s1, true, 0, 1, p);
    if EveryPopOwns(s) {
      StillOwns(s, run, s1);
      NotOwned(s1, more, s2, p);
    }
  }

  lemma NotOwned(s: State, run: seq<Action>, s': State, p: Ptr)
    requires Brings(s, run, s', true) && s'.Pc(0) == PopReuse(1, p) && 0 !in s'.heap
    requires p in s'.heap && !Sound(p, s'.heap[p])
    ensures !EveryPopOwns(s)
  {
    assert Runs(s, run) && Ordinary(run);
    assert !PopOwns(s', 0, 0);
  }

  /** For every state without an operation under way: all later pops that ask for bytes return objects with
  buffers of their own, exactly when each object that is pooled or a client's and has a length has one now. */
  lemma OwnBuffersIff(s: State)
    requires Inv(s) && AllIdle(s)
    ensures EveryPopOwns(s) <==> BuffersSound(s)
  {
    if BuffersSound(s) {
      SoundForever(s);
    } else {
      var p: Ptr :| p in s.heap && !At(s, p, Lost) && !Sound(p, s.heap[p]);
      UnsoundComesOut(s, p);
    }
  }

  // ----- What a client may do -----

  /** The same object up to its buffer address, which then is its own or of no matter. */
  predicate TwinObj(p: Ptr, o: Obj, o': Obj) {
    && o' == o.(szBuffer := o'.szBuffer)
    && (o'.szBuffer == o.szBuffer || o.nLen == 0 || o'.szBuffer == p + HEADER)
  }

  ghost predicate Twins(s: State, s': State) {
    && s' == s.(heap := s'.heap) && s'.heap.Keys == s.heap.Keys
    && forall p: Ptr :: p in s.heap ==> TwinObj(p, s.heap[p], s'.heap[p])
  }

  lemma TwinPop(s: State, s': State, t: Tid, reply: Ptr)
    requires Twins(s, s') && StepEnabled(s, t, reply) && StepEnabled(s', t, reply) && InPop(s.Pc(t))
    ensures Twins(PopStep(s, t, reply), PopStep(s', t, reply))
  {
    if s.Pc(t).PopReuse? { assert TwinObj(s.Pc(t).p, s.heap[s.Pc(t).p], s'.heap[s.Pc(t).p]); }
  }

  lemma TwinPush(s: State, s': State, t: Tid, reply: Ptr)
    requires Twins(s, s') && StepEnabled(s, t, reply) && StepEnabled(s', t, reply) && InPush(s.Pc(t))
    ensures Twins(PushStep(s, t, reply), PushStep(s', t, reply))
  {
  }

  lemma TwinClear(s: State, s': State, t: Tid, reply: Ptr)
    requires Twins(s, s') && StepEnabled(s, t, reply) && StepEnabled(s', t, reply) && InClear(s.Pc(t))
    ensures Twins(ClearStep(s, t, reply), ClearStep(s', t, reply))
  {
  }

  lemma TwinEnabled(s: State, s': State, t: Tid, reply: Ptr)
    requires Twins(s, s') && StepEnabled(s', t, reply)
    ensures StepEnabled(s, t, reply)
  {
    if s.Pc(t).PopReuse? { assert s.Pc(t).p in s'.heap; }
  }

  lemma TwinStep(s: State, s': State, a: Action)
    requires Twins(s, s') && Enabled(s', a) && !a.Redirect?
    ensures Enabled(s, a) && Twins(Next(s, a), Next(s', a))
  {
    if a.Step? {
      TwinEnabled(s, s', a.t, a.reply);
      if InPop(s.Pc(a.t)) { TwinPop(s, s', a.t, a.reply); }
      else if InPush(s.Pc(a.t)) { TwinPush(s, s', a.t, a.reply); }
      else { TwinClear(s, s', a.t, a.reply); }
    } else if a.SetMax? {
      assert forall t: Tid :: s.Pc(t) == s'.Pc(t);
    }
  }

  lemma {:induction false} TwinRun(s: State, s': State, run: seq<Action>)
    requires Twins(s, s') && Runs(s', run) && Ordinary(run)
    ensures Runs(s, run) && Twins(After(s, run), After(s', run))
    decreases |run|
  {
    if run != [] {
      assert Tame(run[0]);
      TwinStep(s, s', run[0]);
      TwinRun(Next(s, run[0]), Next(s', run[0]), run[1..]);
    }
  }

  lemma TwinOwns(s: State, s': State, t: Tid, reply: Ptr)
    requires Twins(s, s') && PopOwns(s, t, reply)
    ensures PopOwns(s', t, reply)
  {
    if LastOfPop(s', t, reply) {
      TwinEnabled(s, s', t, reply);
      if s.Pc(t).PopReuse? { assert TwinObj(s.Pc(t).p, s.heap[s.Pc(t).p], s'.heap[s.Pc(t).p]); }
    }
  }

  /** A twin keeps the promise. */
  lemma TwinKeepsPromise(s: State, s': State)
    requires Twins(s, s') && EveryPopOwns(s)
    ensures EveryPopOwns(s')
  {
    forall run: seq<Action>, t: Tid, reply: Ptr | Runs(s', run) && Ordinary(run)
      ensures PopOwns(After(s', run), t, reply)
    {
      TwinRun(s, s', run);
      TwinOwns(After(s, run), After(s', run), t, reply);
    }
  }

  /** An unsound object in a client's hands comes out some day, once all operations under way are over. */
  lemma ClientsUnsoundComesOut(s: State, p: Ptr)
    requires Inv(s) && p in s.heap && At(s, p, Client) && !Sound(p, s.heap[p])
    ensures !EveryPopOwns(s)
  {
    var run, s' := Settle(s);
    UnsoundComesOut(s', p);
    assert Ordinary(run);
    if EveryPopOwns(s) { StillOwns(s, run, s'); }
  }

  /** What a client may do, at any moment of any interleaving: storing an address in an object it holds leaves all
  later pops their own buffers exactly when the object has no length or the address is that of its own buffer. */
  lemma RedirectIsHarmlessIff(s: State, p: Ptr, to: Ptr)
    requires Inv(s) && EveryPopOwns(s) && Enabled(s, Redirect(p, to))
    ensures EveryPopOwns(Next(s, Redirect(p, to))) <==> s.heap[p].nLen == 0 || to == p + HEADER
  {
    var s' := Next(s, Redirect(p, to));
    StepKeepsInv(s, Redirect(p, to));
    if s.heap[p].nLen == 0 || to == p + HEADER {
      TwinKeepsPromise(s, s');
    } else {
      ClientsUnsoundComesOut(s', p);
    }
  }

  /** The very address comes back, to any pop of no more than the object's length: whatever else is in the list,
  and whatever the other threads are doing outside the lock. */
  lemma ForeignBufferComesBack(s: State, t: Tid, p: Ptr, to: Ptr, n: nat) returns (run: seq<Action>)
    requires Inv(s) && Ready(s, t) && s.maxCount > 0
    requires Enabled(s, Redirect(p, to)) && 0 < n <= s.heap[p].nLen && n < WORD
    ensures var s1 := Next(s, Redirect(p, to));
            && Runs(s1, run)
            && var s2 := After(s1, run);
            && StepEnabled(s2, t, 0) && s2.Pc(t) == PopReuse(n, p) && Returned(s2, t, 0) == p
            && DoStep(s2, t, 0).heap[p].szBuffer == to
  {
    var s1 := Next(s, Redirect(p, to));
    StepKeepsInv(s, Redirect(p, to));
    var s2;
    run, s2 := BringOut(s1, false, t, n, p);
  }
}
