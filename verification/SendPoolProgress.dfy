/** Every operation under way can be finished without starting another one: how far each thread is from its end,
and a run that gets all of them there. */
module SendPoolProgress {
  import opened Options
  import opened SendPoolMachine
  import opened SendPoolProofs

  /** An upper bound on the steps a thread's operation still takes, its own steps alone. */
  function Rank(s: State, t: Tid): nat {
    match s.Pc(t)
    case Idle => 0
    case PopEnter(_) => 6
    case PopLocked(_) => 5
    case PopSeen(_) => 4
    case PopFront(_, _) => 3
    case PopTaken(_, _) => 2
    case PopMiss(_) => 2
    case PopReuse(_, _) => 1
    case PopFresh(_) => 1
    case PushEnter(_) => 4
    case PushLocked(_) => 3
    case PushRoom(_) => 2
    case PushFull(_) => 2
    case PushStored(_) => 1
    case PushFree(_) => 1
    case ClearEnter => 2 * |PoolList(s)| + 4
    case ClearFreeing => 2 * |PoolList(s)| + 3
    case ClearBody => 2 * |PoolList(s)| + 2
    case ClearDone => 2
    case ClearEmptied => 1
  }

  lemma PopAdvances(s: State, t: Tid, reply: Ptr)
    requires StepEnabled(s, t, reply) && InPop(s.Pc(t))
    ensures Rank(PopStep(s, t, reply), t) < Rank(s, t)
  {
  }

  lemma PushAdvances(s: State, t: Tid, reply: Ptr)
    requires StepEnabled(s, t, reply) && InPush(s.Pc(t))
    ensures Rank(PushStep(s, t, reply), t) < Rank(s, t)
  {
  }

  lemma ClearAdvances(s: State, t: Tid, reply: Ptr)
    requires StepEnabled(s, t, reply) && InClear(s.Pc(t))
    ensures Rank(ClearStep(s, t, reply), t) < Rank(s, t)
  {
  }

  /** Each step of a thread brings it nearer to its operation's end, whatever the heap answers. */
  lemma StepAdvances(s: State, t: Tid, reply: Ptr)
    requires StepEnabled(s, t, reply)
    ensures Rank(DoStep(s, t, reply), t) < Rank(s, t)
  {
    if InPop(s.Pc(t)) { PopAdvances(s, t, reply); }
    else if InPush(s.Pc(t)) { PushAdvances(s, t, reply); }
    else { ClearAdvances(s, t, reply); }
  }

  lemma AcquireAdvances(s: State, t: Tid)
    requires AtEntry(s.Pc(t))
    ensures Rank(DoAcquire(s, t), t) < Rank(s, t)
  {
  }

  // ----- Clients' objects stay as they are -----

  ghost predicate ClientsKept(s: State, s': State) {
    forall p: Ptr :: At(s, p, Client) && p in s.heap ==> At(s', p, Client) && p in s'.heap && s'.heap[p] == s.heap[p]
  }

  lemma PopKeepsClients(s: State, t: Tid)
    requires Inv(s) && StepEnabled(s, t, 0) && InPop(s.Pc(t))
    ensures ClientsKept(s, PopStep(s, t, 0))
  {
    assert StillSo(s, t);
    assert Critical(s.Pc(t)) <==> s.lock == Some(t);
    if Held(s.Pc(t)).Some? { assert HandAt(s, t, Held(s.Pc(t)).value); }
    if s.Pc(t).PopFront? { FrontIsPooled(s); }
  }

  lemma PushKeepsClients(s: State, t: Tid)
    requires Inv(s) && StepEnabled(s, t, 0) && InPush(s.Pc(t))
    ensures ClientsKept(s, PushStep(s, t, 0))
  {
    if Held(s.Pc(t)).Some? { assert HandAt(s, t, Held(s.Pc(t)).value); }
  }

  lemma ClearKeepsClients(s: State, t: Tid)
    requires Inv(s) && StepEnabled(s, t, 0) && InClear(s.Pc(t))
    ensures ClientsKept(s, ClearStep(s, t, 0))
  {
    if s.Pc(t).ClearBody? { assert PoolList(s)[0] in PoolList(s) && At(s, s.list[s.itr], Pooled); }
  }

  /** The next action of a thread's operation, with null from the heap. */
  function NextOf(s: State, t: Tid): Action {
    if AtEntry(s.Pc(t)) then Acquire(t) else Step(t, 0)
  }

  /** No other thread is in the way. */
  predicate Free(s: State, t: Tid) {
    s.lock == None || s.lock == Some(t)
  }

  lemma CanGoOn(s: State, t: Tid)
    requires Inv(s) && Free(s, t) && s.Pc(t) != Idle
    ensures Enabled(s, NextOf(s, t))
  {
    assert Critical(s.Pc(t)) <==> s.lock == Some(t);
    if !AtEntry(s.Pc(t)) { NeverStuck(s, t, 0); }
  }

  /** What one action of a thread leaves alone. */
  lemma OneStep(s: State, t: Tid)
    requires Inv(s) && Free(s, t) && s.Pc(t) != Idle && Enabled(s, NextOf(s, t))
    ensures var s' := Next(s, NextOf(s, t));
            && Free(s', t) && ClientsKept(s, s') && Rank(s', t) < Rank(s, t)
            && forall u: Tid :: u != t ==> s'.Pc(u) == s.Pc(u)
  {
    assert Critical(s.Pc(t)) <==> s.lock == Some(t);
    LockMoves(s, NextOf(s, t), t);
    if AtEntry(s.Pc(t)) {
      AcquireAdvances(s, t);
    } else {
      StepAdvances(s, t, 0);
      if InPop(s.Pc(t)) { PopKeepsClients(s, t); }
      else if InPush(s.Pc(t)) { PushKeepsClients(s, t); }
      else { ClearKeepsClients(s, t); }
    }
    forall u: Tid | u != t ensures Next(s, NextOf(s, t)).Pc(u) == s.Pc(u) {
      OthersStay(s, NextOf(s, t), u);
    }
  }

  /** No operation begins, no client stores an address, no bound changes. */
  ghost predicate Continues(run: seq<Action>) {
    forall a :: a in run ==> a.Acquire? || a.Step?
  }

  lemma LeadsCons(s: State, a: Action, run: seq<Action>, s': State)
    requires Enabled(s, a) && Leads(Next(s, a), run, s')
    ensures Leads(s, [a] + run, s')
  {
    assert ([a] + run)[1..] == run;
  }

  lemma LeadsJoin(s: State, run: seq<Action>, s1: State, more: seq<Action>, s2: State)
    requires Leads(s, run, s1) && Leads(s1, more, s2)
    ensures Leads(s, run + more, s2)
  {
    RunConcat(s, run, more);
  }

  /** One thread's operation to its end. */
  lemma {:induction false} Finish(s: State, t: Tid) returns (run: seq<Action>, s': State)
    requires Inv(s) && Free(s, t)
    ensures Leads(s, run, s') && Continues(run) && Inv(s') && ClientsKept(s, s')
    ensures s'.Pc(t) == Idle && s'.lock == None && forall u: Tid :: u != t ==> s'.Pc(u) == s.Pc(u)
    decreases Rank(s, t)
  {
    if s.Pc(t) == Idle {
      run, s' := [], s;
      assert Critical(s.Pc(t)) <==> s.lock == Some(t);
    } else {
      CanGoOn(s, t);
      OneStep(s, t);
      StepKeepsInv(s, NextOf(s, t));
      run, s' := Finish(Next(s, NextOf(s, t)), t);
      LeadsCons(s, NextOf(s, t), run, s');
      run := [NextOf(s, t)] + run;
    }
  }

  function Busy(s: State): set<Tid> {
    set t | t in s.pcs && s.Pc(t) != Idle
  }

  ghost predicate AllIdle(s: State) {
    forall t: Tid :: s.Pc(t) == Idle
  }

  /** A thread that can go on: the lock's holder, or any busy one if there is none. */
  lemma WhoCanGoOn(s: State) returns (t: Tid)
    requires Inv(s) && Busy(s) != {}
    ensures t in Busy(s) && Free(s, t)
  {
    if s.lock.Some? {
      t := s.lock.value;
      assert Critical(s.Pc(t)) <==> s.lock == Some(t);
    } else {
      t :| t in Busy(s);
    }
  }

  /** From every state any interleaving reaches there is a run that ends all operations under way, begins none, and
  leaves clients' objects as they are. */
  lemma {:induction false} Settle(s: State) returns (run: seq<Action>, s': State)
    requires Inv(s)
    ensures Leads(s, run, s') && Continues(run) && Inv(s') && AllIdle(s') && ClientsKept(s, s')
    decreases |Busy(s)|
  {
    if Busy(s) == {} {
      run, s' := [], s;
      forall t: Tid ensures s.Pc(t) == Idle {
        assert t !in Busy(s);
      }
    } else {
      var t := WhoCanGoOn(s);
      var first, s1 := Finish(s, t);
      OneLess(s, s1, t);
      run, s' := Settle(s1);
      LeadsJoin(s, first, s1, run, s');
      run := first + run;
    }
  }

  lemma OneLess(s: State, s': State, t: Tid)
    requires t in Busy(s) && s'.Pc(t) == Idle && forall u: Tid :: u != t ==> s'.Pc(u) == s.Pc(u)
    ensures |Busy(s')| < |Busy(s)|
  {
    forall u: Tid ensures u in Busy(s') <==> u in Busy(s) - {t} {
      assert u != t ==> s'.Pc(u) == s.Pc(u);
    }
    assert Busy(s') == Busy(s) - {t};
  }
}
