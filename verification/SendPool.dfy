/** The send-buffer pool as its methods run when no other thread interferes.

Each method is the source's body on the source's fields; beside it the machine `m` advances by one action for each
call the source makes on the list, the lock or the heap.  So every method call is a run of the machine, and all that
is proved of runs holds of the class. */
module SendPool {
  import opened Options
  import opened SendPoolMachine
  import opened SendPoolProofs
  import opened Seqs

  const DEFAULT_MAX: nat := 100

  function Steps(t: Tid, k: nat): seq<Action> {
    seq(k, i => Step(t, 0))
  }

  /** The actions of an undisturbed pop, push and clear. */
  function PopRun(t: Tid, n: nat, reply: Ptr, found: bool): seq<Action> {
    [StartPop(t, n), Acquire(t)] + Steps(t, if found then 4 else 2) + [Step(t, reply)]
  }

  function PushRun(t: Tid, p: Ptr): seq<Action> {
    [StartPush(t, p), Acquire(t)] + Steps(t, 3)
  }

  function ClearRun(t: Tid, count: nat): seq<Action> {
    [StartClear(t), Acquire(t)] + Steps(t, 2 * count + 3)
  }

  lemma StepsJoin(before: seq<Action>, t: Tid, j: nat, k: nat)
    ensures before + Steps(t, j) + Steps(t, k) == before + Steps(t, j + k)
  {
  }

  /** The object a pop finds at the list's front, if it is long enough for the request as it is. */
  predicate FrontServes(list: seq<Ptr>, heap: map<Ptr, Obj>, n: nat) {
    list != [] && list[0] in heap && !NeedsGrowth(heap[list[0]], n)
  }

  /** The heap after a pop: untouched if the front serves or the heap says no, otherwise with one object that
  replaces the front, if there was one. */
  function HeapAfterPop(list: seq<Ptr>, heap: map<Ptr, Obj>, n: nat, reply: Ptr): map<Ptr, Obj> {
    if FrontServes(list, heap, n) || reply == 0 then heap
    else if list == [] then heap[reply := Made(n, reply)]
    else (heap - {list[0]})[reply := Grown(n, reply)]
  }

  class CSocketSendPool {
    var objFreeList: seq<Ptr>
    var maxCount: nat
    var heap: map<Ptr, Obj>        // the process heap
    ghost var m: State
    ghost var trace: seq<Action>   // all actions since the pool was made

    ghost predicate Recorded()
      reads this
    {
      Runs(INITIAL, trace) && m == After(INITIAL, trace)
    }

    ghost predicate Valid()
      reads this
    {
      && Recorded()
      && m.list == objFreeList && m.maxCount == maxCount && m.heap == heap
      && m.lock == None && m.itr == 0 && forall t: Tid :: m.Pc(t) == Idle
    }

    /** The constructor calls init with its default bound. */
    constructor (t: Tid)
      ensures Valid() && objFreeList == [] && maxCount == 100 && heap == map[]
      ensures trace == ClearRun(t, 0) + [SetMax(DEFAULT_MAX)]
    {
      objFreeList, maxCount, heap := [], 0, map[];
      m, trace := INITIAL, [];
      new;
      Init(t, DEFAULT_MAX);
    }

    ghost method Advance(a: Action)
      requires Recorded() && Enabled(m, a)
      modifies `m, `trace
      ensures Recorded() && m == Next(old(m), a) && trace == old(trace) + [a]
      ensures forall u: Tid :: Actor(a) != Some(u) ==> m.Pc(u) == old(m).Pc(u)
    {
      RunSnoc(INITIAL, trace, a);
      forall u: Tid | Actor(a) != Some(u) ensures Next(m, a).Pc(u) == m.Pc(u) {
        OthersStay(m, a, u);
      }
      m := Next(m, a);
      trace := trace + [a];
    }

    lemma Invariant()
      requires Recorded()
      ensures Inv(m)
    {
      InitialInv();
      EveryRunKeepsInv(INITIAL, trace);
    }

    /** Every thread but `t` is idle; `t` is at `pc`. */
    ghost predicate Alone(t: Tid, pc: PC)
      reads this
    {
      m.Pc(t) == pc && forall u: Tid :: u != t ==> m.Pc(u) == Idle
    }

    ghost predicate Quiescent(t: Tid, pc: PC)
      reads this
    {
      m.itr == 0 && Alone(t, pc)
    }

    ghost method EnterPop(t: Tid, n: nat)
      requires Recorded() && Quiescent(t, Idle) && m.lock == None && n < WORD
      modifies `m, `trace
      ensures Recorded() && Quiescent(t, PopLocked(n)) && m.lock == Some(t)
      ensures SameList(old(m), m) && SameHeap(old(m), m) && trace == old(trace) + [StartPop(t, n), Acquire(t)]
    {
      Advance(StartPop(t, n));
      Advance(Acquire(t));
    }

    ghost method ReadFront(t: Tid, n: nat)
      requires Recorded() && Quiescent(t, PopLocked(n)) && m.lock == Some(t) && m.list != []
      modifies `m, `trace
      ensures Recorded() && Quiescent(t, PopFront(n, old(m).list[0])) && m.lock == Some(t)
      ensures SameList(old(m), m) && SameHeap(old(m), m) && trace == old(trace) + Steps(t, 2)
    {
      Advance(Step(t, 0));   // empty
      Advance(Step(t, 0));   // front
    }

    ghost method TakeFront(t: Tid, n: nat, p: Ptr)
      requires Recorded() && Quiescent(t, PopFront(n, p)) && m.lock == Some(t) && m.list != []
      modifies `m, `trace
      ensures Recorded() && Quiescent(t, PopReuse(n, p)) && m.lock == None
      ensures m.list == old(m).list[1..] && m.maxCount == old(m).maxCount && SameHeap(old(m), m)
      ensures trace == old(trace) + Steps(t, 2)
    {
      Advance(Step(t, 0));   // pop_front
      Advance(Step(t, 0));   // UnLock
    }

    ghost method FindEmpty(t: Tid, n: nat)
      requires Recorded() && Quiescent(t, PopLocked(n)) && m.lock == Some(t) && m.list == []
      modifies `m, `trace
      ensures Recorded() && Quiescent(t, PopFresh(n)) && m.lock == None
      ensures SameList(old(m), m) && SameHeap(old(m), m) && trace == old(trace) + Steps(t, 2)
    {
      Advance(Step(t, 0));   // empty
      Advance(Step(t, 0));   // UnLock
    }

    ghost method ReturnReused(t: Tid, n: nat, p: Ptr, reply: Ptr)
      requires Recorded() && Quiescent(t, PopReuse(n, p)) && m.lock == None
      requires p in m.heap && (NeedsGrowth(m.heap[p], n) ==> reply == 0 || reply == p || m.Fresh(reply))
      modifies `m, `trace
      ensures Recorded() && Quiescent(t, Idle) && m.lock == None && SameList(old(m), m)
      ensures trace == old(trace) + [Step(t, reply)]
      ensures !NeedsGrowth(old(m).heap[p], n) ==> m.heap == old(m).heap && At(m, p, Client)
      ensures NeedsGrowth(old(m).heap[p], n) && reply == 0 ==> m.heap == old(m).heap
      ensures NeedsGrowth(old(m).heap[p], n) && reply != 0 ==>
                m.heap == (old(m).heap - {p})[reply := Grown(n, reply)] && At(m, reply, Client)
    {
      Advance(Step(t, reply));
    }

    ghost method ReturnFresh(t: Tid, n: nat, reply: Ptr)
      requires Recorded() && Quiescent(t, PopFresh(n)) && m.lock == None && (reply == 0 || m.Fresh(reply))
      modifies `m, `trace
      ensures Recorded() && Quiescent(t, Idle) && m.lock == None && SameList(old(m), m)
      ensures trace == old(trace) + [Step(t, reply)]
      ensures reply == 0 ==> m.heap == old(m).heap
      ensures reply != 0 ==> At(m, reply, Client)
      ensures reply != 0 ==> m.heap == old(m).heap[reply := Made(n, reply)]
    {
      Advance(Step(t, reply));
    }

    lemma OwnIsAllocated(t: Tid)
      requires Recorded()
      ensures Held(m.Pc(t)).Some? ==> Held(m.Pc(t)).value in m.heap && Held(m.Pc(t)).value != 0
    {
      Invariant();
      if Held(m.Pc(t)).Some? { assert HandAt(m, t, Held(m.Pc(t)).value); }
    }

    lemma Joined(before: seq<Action>, t: Tid, n: nat, reply: Ptr, found: bool)
      ensures before + [StartPop(t, n), Acquire(t)] + Steps(t, if found then 4 else 2) + [Step(t, reply)]
           == before + PopRun(t, n, reply, found)
    {
    }

    /** A pop that finds an object, up to its last statement. */
    ghost method GetFront(t: Tid, n: nat)
      requires Recorded() && Quiescent(t, Idle) && m.lock == None && n < WORD && m.list != []
      modifies `m, `trace
      ensures Recorded() && Quiescent(t, PopReuse(n, old(m).list[0])) && m.lock == None
      ensures m.list == old(m).list[1..] && m.maxCount == old(m).maxCount && SameHeap(old(m), m)
      ensures trace == old(trace) + [StartPop(t, n), Acquire(t)] + Steps(t, 4)
    {
      EnterPop(t, n);
      ReadFront(t, n);
      TakeFront(t, n, old(m).list[0]);
      StepsJoin(old(trace) + [StartPop(t, n), Acquire(t)], t, 2, 2);
    }

    /** A whole pop that finds an object. */
    ghost method Reuse(t: Tid, n: nat, reply: Ptr)
      requires Recorded() && Quiescent(t, Idle) && m.lock == None && n < WORD && m.list != []
      requires reply == 0 || reply !in m.heap || reply == m.list[0]
      modifies `m, `trace
      ensures Recorded() && Quiescent(t, Idle) && m.lock == None && trace == old(trace) + PopRun(t, n, reply, true)
      ensures m.list == old(m).list[1..] && m.maxCount == old(m).maxCount
      ensures old(m).list[0] in old(m).heap && old(m).list[0] != 0
      ensures m.heap == HeapAfterPop(old(m).list, old(m).heap, n, reply)
      ensures FrontServes(old(m).list, old(m).heap, n) ==> At(m, old(m).list[0], Client)
      ensures !FrontServes(old(m).list, old(m).heap, n) && reply != 0 ==> At(m, reply, Client)
    {
      GetFront(t, n);
      OwnIsAllocated(t);
      ReturnReused(t, n, old(m).list[0], reply);
      Joined(old(trace), t, n, reply, true);
    }

    ghost method GetNone(t: Tid, n: nat)
      requires Recorded() && Quiescent(t, Idle) && m.lock == None && n < WORD && m.list == []
      modifies `m, `trace
      ensures Recorded() && Quiescent(t, PopFresh(n)) && m.lock == None
      ensures SameList(old(m), m) && SameHeap(old(m), m)
      ensures trace == old(trace) + [StartPop(t, n), Acquire(t)] + Steps(t, 2)
    {
      EnterPop(t, n);
      FindEmpty(t, n);
    }

    /** A whole pop that finds none. */
    ghost method Obtain(t: Tid, n: nat, reply: Ptr)
      requires Recorded() && Quiescent(t, Idle) && m.lock == None && n < WORD && m.list == []
      requires reply == 0 || reply !in m.heap
      modifies `m, `trace
      ensures Recorded() && Quiescent(t, Idle) && m.lock == None && trace == old(trace) + PopRun(t, n, reply, false)
      ensures m.list == [] && m.maxCount == old(m).maxCount
      ensures m.heap == HeapAfterPop([], old(m).heap, n, reply)
      ensures reply != 0 ==> At(m, reply, Client)
    {
      GetNone(t, n);
      ReturnFresh(t, n, reply);
      Joined(old(trace), t, n, reply, false);
    }

    /** pop; `reply` is the heap's answer, should it be asked. */
    method Pop(t: Tid, n: nat, reply: Ptr) returns (r: Ptr)
      requires Valid() && n < WORD
      requires reply == 0 || reply !in heap || (objFreeList != [] && reply == objFreeList[0])
      modifies this
      ensures Valid() && trace == old(trace) + PopRun(t, n, reply, old(objFreeList) != [])
      ensures objFreeList == if old(objFreeList) == [] then [] else old(objFreeList)[1..]
      ensures maxCount == old(maxCount)
      ensures old(objFreeList) != [] ==> old(objFreeList)[0] in old(heap)
      ensures r == if FrontServes(old(objFreeList), old(heap), n) then old(objFreeList)[0] else reply
      ensures heap == HeapAfterPop(old(objFreeList), old(heap), n, reply)
      ensures r != 0 ==> r in heap && At(m, r, Client) && heap[r].nLen >= n
      ensures old(objFreeList) != [] && (n == 0 || old(heap)[old(objFreeList)[0]].nLen >= n) ==>
                r == old(objFreeList)[0] && heap == old(heap)
      ensures old(objFreeList) != [] && n > 0 && old(heap)[old(objFreeList)[0]].nLen < n ==>
                && r == reply
                && heap == if r == 0 then old(heap)
                           else (old(heap) - {old(objFreeList)[0]})[r := Obj(n, r + HEADER, true, (HEADER + n) % WORD)]
      ensures old(objFreeList) == [] ==>
                && r == reply
                && heap == if r == 0 then old(heap)
                           else old(heap)[r := Obj(n, if n == 0 then 0 else r + HEADER, true, (HEADER + n) % WORD)]
    {
      if objFreeList != [] {
        var p := objFreeList[0];
        objFreeList := objFreeList[1..];
        Reuse(t, n, reply);
        r := p;
        if n > 0 {
          if heap[p].nLen < n {
            if reply == 0 {
              return 0;
            }
            heap := (heap - {p})[reply := Grown(n, reply)];
            r := reply;
          }
        }
      } else {
        Obtain(t, n, reply);
        if reply == 0 {
          return 0;
        }
        heap := heap[reply := Made(n, reply)];
        r := reply;
      }
    }

    ghost method EnterPush(t: Tid, p: Ptr)
      requires Recorded() && Quiescent(t, Idle) && m.lock == None && At(m, p, Client)
      modifies `m, `trace
      ensures Recorded() && Quiescent(t, PushLocked(p)) && m.lock == Some(t)
      ensures SameList(old(m), m) && SameHeap(old(m), m) && trace == old(trace) + [StartPush(t, p), Acquire(t)]
    {
      Advance(StartPush(t, p));
      Advance(Acquire(t));
    }

    ghost method SeeRoom(t: Tid, p: Ptr)
      requires Recorded() && Quiescent(t, PushLocked(p)) && m.lock == Some(t) && |m.list| < m.maxCount
      modifies `m, `trace
      ensures Recorded() && Quiescent(t, PushRoom(p)) && m.lock == Some(t)
      ensures SameList(old(m), m) && SameHeap(old(m), m) && trace == old(trace) + Steps(t, 1)
    {
      Advance(Step(t, 0));   // size
    }

    ghost method Append(t: Tid, p: Ptr)
      requires Recorded() && Quiescent(t, PushRoom(p)) && m.lock == Some(t)
      modifies `m, `trace
      ensures Recorded() && Quiescent(t, Idle) && m.lock == None && SameHeap(old(m), m)
      ensures m.list == old(m).list + [p] && m.maxCount == old(m).maxCount && trace == old(trace) + Steps(t, 2)
    {
      Advance(Step(t, 0));   // push_back
      Advance(Step(t, 0));   // UnLock
    }

    ghost method SeeFull(t: Tid, p: Ptr)
      requires Recorded() && Quiescent(t, PushLocked(p)) && m.lock == Some(t) && |m.list| >= m.maxCount
      modifies `m, `trace
      ensures Recorded() && Quiescent(t, PushFull(p)) && m.lock == Some(t)
      ensures SameList(old(m), m) && SameHeap(old(m), m) && trace == old(trace) + Steps(t, 1)
    {
      Advance(Step(t, 0));   // size
    }

    ghost method FreeInstead(t: Tid, p: Ptr)
      requires Recorded() && Quiescent(t, PushFull(p)) && m.lock == Some(t)
      modifies `m, `trace
      ensures Recorded() && Quiescent(t, Idle) && m.lock == None && SameList(old(m), m)
      ensures p in old(m).heap && m.heap == old(m).heap - {p}
      ensures trace == old(trace) + Steps(t, 2)
    {
      Advance(Step(t, 0));   // UnLock
      OwnIsAllocated(t);
      Advance(Step(t, 0));   // HeapFree
    }

    lemma PushRunIs(before: seq<Action>, t: Tid, p: Ptr)
      ensures before + [StartPush(t, p), Acquire(t)] + Steps(t, 1) + Steps(t, 2) == before + PushRun(t, p)
    {
    }

    /** A whole push to a list that has room. */
    ghost method Store(t: Tid, p: Ptr)
      requires Recorded() && Quiescent(t, Idle) && m.lock == None && At(m, p, Client) && |m.list| < m.maxCount
      modifies `m, `trace
      ensures Recorded() && Quiescent(t, Idle) && m.lock == None && trace == old(trace) + PushRun(t, p)
      ensures m.list == old(m).list + [p] && m.maxCount == old(m).maxCount && SameHeap(old(m), m)
    {
      EnterPush(t, p);
      SeeRoom(t, p);
      Append(t, p);
      PushRunIs(old(trace), t, p);
    }

    /** A whole push to a list that is full. */
    ghost method Discard(t: Tid, p: Ptr)
      requires Recorded() && Quiescent(t, Idle) && m.lock == None && At(m, p, Client) && |m.list| >= m.maxCount
      modifies `m, `trace
      ensures Recorded() && Quiescent(t, Idle) && m.lock == None && trace == old(trace) + PushRun(t, p)
      ensures SameList(old(m), m) && p in old(m).heap && m.heap == old(m).heap - {p}
    {
      EnterPush(t, p);
      SeeFull(t, p);
      FreeInstead(t, p);
      PushRunIs(old(trace), t, p);
    }

    /** push: to the back of the list, or to the heap if the list is full. */
    method Push(t: Tid, p: Ptr)
      requires Valid() && At(m, p, Client)
      modifies this
      ensures Valid() && maxCount == old(maxCount) && trace == old(trace) + PushRun(t, p)
      ensures |old(objFreeList)| < maxCount ==> objFreeList == old(objFreeList) + [p] && heap == old(heap)
      ensures |old(objFreeList)| >= maxCount ==>
                objFreeList == old(objFreeList) && heap == old(heap) - {p} && p in old(heap)
    {
      if |objFreeList| < maxCount {
        Store(t, p);
        objFreeList := objFreeList + [p];
      } else {
        Discard(t, p);
        heap := heap - {p};
      }
    }

    ghost method BeginClear(t: Tid)
      requires Recorded() && Quiescent(t, Idle) && m.lock == None
      modifies `m, `trace
      ensures Recorded() && Quiescent(t, ClearEnter) && m.lock == None
      ensures SameList(old(m), m) && SameHeap(old(m), m) && trace == old(trace) + [StartClear(t)]
    {
      Advance(StartClear(t));
    }

    ghost method EnterClear(t: Tid)
      requires Recorded() && Quiescent(t, Idle) && m.lock == None
      modifies `m, `trace
      ensures Recorded() && Quiescent(t, ClearFreeing) && m.lock == Some(t)
      ensures SameList(old(m), m) && SameHeap(old(m), m) && trace == old(trace) + [StartClear(t), Acquire(t)]
    {
      BeginClear(t);
      Advance(Acquire(t));
    }

    /** At the test of clear's loop, `itr` objects freed and `h` left. */
    ghost predicate AtTest(t: Tid, entered: seq<Action>, list: seq<Ptr>, max: nat, h: map<Ptr, Obj>, itr: nat)
      reads this
    {
      && Recorded() && trace == entered + Steps(t, 2 * itr)
      && m.list == list && m.maxCount == max && m.heap == h && m.itr == itr <= |list|
      && m.lock == Some(t) && Alone(t, ClearFreeing)
    }

    ghost method EnterLoop(t: Tid)
      requires Recorded() && Quiescent(t, Idle) && m.lock == None
      modifies `m, `trace
      ensures trace == old(trace) + [StartClear(t), Acquire(t)]
      ensures AtTest(t, trace, old(m).list, old(m).maxCount, old(m).heap, 0)
    {
      EnterClear(t);
      assert trace + Steps(t, 0) == trace;
    }

    ghost method SeeMore(t: Tid)
      requires Recorded() && Alone(t, ClearFreeing) && m.lock == Some(t) && m.itr < |m.list|
      modifies `m, `trace
      ensures Recorded() && Alone(t, ClearBody) && m.lock == Some(t) && trace == old(trace) + Steps(t, 1)
      ensures SameList(old(m), m) && SameHeap(old(m), m)
    {
      Advance(Step(t, 0));   // the loop's test
    }

    ghost method FreeOne(t: Tid)
      requires Recorded() && Alone(t, ClearBody) && m.lock == Some(t)
      modifies `m, `trace
      ensures Recorded() && Alone(t, ClearFreeing) && m.lock == Some(t) && trace == old(trace) + Steps(t, 1)
      ensures m.list == old(m).list && m.maxCount == old(m).maxCount && m.itr == old(m).itr + 1
      ensures old(m).itr < |m.list| && m.list[old(m).itr] in old(m).heap
      ensures m.heap == old(m).heap - {m.list[old(m).itr]}
    {
      Invariant();
      NeverStuck(m, t, 0);
      Advance(Step(t, 0));   // HeapFree
    }

    /** One turn of the loop. */
    ghost method FreeNext(t: Tid, entered: seq<Action>, list: seq<Ptr>, max: nat, h: map<Ptr, Obj>, itr: nat)
      requires AtTest(t, entered, list, max, h, itr) && itr < |list|
      modifies `m, `trace
      ensures AtTest(t, entered, list, max, h - {list[itr]}, itr + 1)
    {
      SeeMore(t);
      FreeOne(t);
      StepsJoin(entered, t, 2 * itr, 1);
      StepsJoin(entered, t, 2 * itr + 1, 1);
    }

    ghost method EndLoop(t: Tid)
      requires Recorded() && Alone(t, ClearFreeing) && m.itr == |m.list| && m.lock == Some(t)
      modifies `m, `trace
      ensures Recorded() && Alone(t, ClearDone) && m.lock == Some(t) && trace == old(trace) + Steps(t, 1)
      ensures SameList(old(m), m) && SameHeap(old(m), m)
    {
      Advance(Step(t, 0));   // the loop's test
    }

    ghost method EmptyList(t: Tid)
      requires Recorded() && Alone(t, ClearDone) && m.lock == Some(t)
      modifies `m, `trace
      ensures Recorded() && Quiescent(t, ClearEmptied) && m.lock == Some(t) && trace == old(trace) + Steps(t, 1)
      ensures m.list == [] && m.maxCount == old(m).maxCount && m.heap == old(m).heap
    {
      Advance(Step(t, 0));   // clear
    }

    ghost method EndClear(t: Tid)
      requires Recorded() && Quiescent(t, ClearEmptied) && m.lock == Some(t)
      modifies `m, `trace
      ensures Recorded() && Quiescent(t, Idle) && m.lock == None && trace == old(trace) + Steps(t, 1)
      ensures SameList(old(m), m) && SameHeap(old(m), m)
    {
      Advance(Step(t, 0));   // UnLock
    }

    lemma FreedSoFar(h: map<Ptr, Obj>, list: seq<Ptr>, k: nat)
      requires k < |list|
      ensures h - Elements(list[..k]) - {list[k]} == h - Elements(list[..k + 1])
    {
      assert list[..k + 1] == list[..k] + [list[k]];
      assert Elements(list[..k + 1]) == Elements(list[..k]) + {list[k]};
    }

    /** From the loop's last test on. */
    ghost method LeaveLoop(t: Tid, entered: seq<Action>, list: seq<Ptr>, max: nat, h: map<Ptr, Obj>)
      requires AtTest(t, entered, list, max, h, |list|)
      modifies `m, `trace
      ensures Recorded() && Quiescent(t, Idle) && m.lock == None && m.list == [] && m.maxCount == max && m.heap == h
      ensures trace == entered + Steps(t, 2 * |list| + 3)
      ensures forall u: Tid :: m.Pc(u) == Idle
    {
      EndLoop(t);
      EmptyList(t);
      EndClear(t);
      StepsJoin(entered, t, 2 * |list|, 1);
      StepsJoin(entered, t, 2 * |list| + 1, 1);
      StepsJoin(entered, t, 2 * |list| + 2, 1);
    }

    /** The loop of clear. */
    method FreeAll(t: Tid, ghost entered: seq<Action>)
      requires AtTest(t, entered, objFreeList, maxCount, heap, 0)
      modifies `heap, `m, `trace
      ensures AtTest(t, entered, objFreeList, maxCount, heap, |objFreeList|)
      ensures heap == old(heap) - Elements(objFreeList)
    {
      var itr := 0;
      while itr < |objFreeList|
        invariant 0 <= itr <= |objFreeList|
        invariant AtTest(t, entered, objFreeList, maxCount, heap, itr)
        invariant heap == old(heap) - Elements(objFreeList[..itr])
      {
        FreeNext(t, entered, objFreeList, maxCount, heap, itr);
        FreedSoFar(old(heap), objFreeList, itr);
        heap := heap - {objFreeList[itr]};
        itr := itr + 1;
      }
      TakeAll(objFreeList);
    }

    /** clear: every pooled object goes back to the heap, and nothing else does. */
    method Clear(t: Tid)
      requires Valid()
      modifies this
      ensures Valid() && objFreeList == [] && maxCount == old(maxCount)
      ensures heap == old(heap) - Elements(old(objFreeList))
      ensures trace == old(trace) + ClearRun(t, |old(objFreeList)|)
    {
      EnterLoop(t);
      ghost var entered := trace;
      FreeAll(t, entered);
      LeaveLoop(t, entered, objFreeList, maxCount, heap);
      Assoc(old(trace), [StartClear(t), Acquire(t)], Steps(t, 2 * |objFreeList| + 3));
      objFreeList := [];
    }

    /** init: clear, then the new bound. */
    method Init(t: Tid, newMax: nat)
      requires Valid()
      modifies this
      ensures Valid() && objFreeList == [] && maxCount == newMax
      ensures heap == old(heap) - Elements(old(objFreeList))
      ensures trace == old(trace) + ClearRun(t, |old(objFreeList)|) + [SetMax(newMax)]
    {
      Clear(t);
      maxCount := newMax;
      Advance(SetMax(newMax));
    }
  }
}
