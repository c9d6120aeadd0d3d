/** The thread group as a ledger of operating-system handles.

A handle stands for one successful thread creation; `os` says of each attempt whether it succeeds. */
module ThreadGroup {
  import opened Seqs

  type Handle = nat

  datatype ThreadCmd = Nothing | StopCmd

  /** What a thread is created to run. */
  datatype Job = Job(routine: nat, parameter: nat)

  /** Every handle ever created is open and in the vector, or closed, and closed only once. */
  ghost predicate Balanced(created: nat, vec: seq<Handle>, closed: seq<Handle>) {
    && Distinct(vec + closed)
    && (forall h: Handle :: h < created <==> h in vec + closed)
    && |vec| + |closed| == created
  }

  lemma Opened(created: nat, vec: seq<Handle>, closed: seq<Handle>)
    requires Balanced(created, vec, closed)
    ensures Balanced(created + 1, vec + [created], closed)
  {
    var was, now := vec + closed, (vec + [created]) + closed;
    assert created !in was;
    forall i, j | 0 <= i < j < |now| ensures now[i] != now[j] {
      var i', j' := if i > |vec| then i - 1 else i, if j > |vec| then j - 1 else j;
      if i != |vec| { assert now[i] == was[i'] && now[i] in was; }
      if j != |vec| { assert now[j] == was[j'] && now[j] in was; }
    }
    forall h: Handle ensures h < created + 1 <==> h in now {
      assert h in now <==> h in was || h == created;
    }
  }

  /** Closing handle `k` of the vector, the others keeping their order. */
  lemma Closed(created: nat, vec: seq<Handle>, closed: seq<Handle>, k: nat)
    requires Balanced(created, vec, closed) && k < |vec|
    ensures Balanced(created, vec[..k] + vec[k + 1..], closed + [vec[k]])
  {
    var was, rest := vec + closed, vec[..k] + vec[k + 1..];
    var now := rest + (closed + [vec[k]]);
    assert vec == vec[..k] + [vec[k]] + vec[k + 1..];
    assert was[..k] + was[k + 1..] == rest + closed;
    assert now == was[..k] + was[k + 1..] + [was[k]];
    RotateDistinct(was, k);
  }

  /** Closing the vector's handles front to back, after `i` of them. */
  lemma ClosedFront(created: nat, vec: seq<Handle>, closed: seq<Handle>, i: nat)
    requires i < |vec| && Balanced(created, vec[i..], closed)
    ensures Balanced(created, vec[i + 1..], closed + [vec[i]])
  {
    Closed(created, vec[i..], closed, 0);
    assert vec[i..][..0] + vec[i..][1..] == vec[i + 1..];
  }

  lemma RotateDistinct(s: seq<Handle>, k: nat)
    requires Distinct(s) && k < |s|
    ensures var t := s[..k] + s[k + 1..] + [s[k]]; Distinct(t) && forall h :: h in t <==> h in s
  {
    var t := s[..k] + s[k + 1..] + [s[k]];
    forall i, j | 0 <= i < j < |t| ensures t[i] != t[j] {
      assert t[i] == s[if i < k then i else i + 1];
      assert t[j] == s[if j < k then j else if j < |s| - 1 then j + 1 else k];
    }
    assert s == s[..k] + [s[k]] + s[k + 1..];
  }

  /** How many of the first `n` attempts succeed. */
  function Successes(os: nat -> bool, n: nat): nat {
    if n == 0 then 0 else Successes(os, n - 1) + if os(n - 1) then 1 else 0
  }

  /** All attempts, none, and one more. */
  lemma {:induction false} SuccessesCount(os: nat -> bool, n: nat)
    ensures Successes(os, 0) == 0
    ensures Successes(os, n + 1) == Successes(os, n) + if os(n) then 1 else 0
    ensures (forall i: nat :: i < n ==> os(i)) <==> Successes(os, n) == n
    ensures (forall i: nat :: i < n ==> !os(i)) <==> Successes(os, n) == 0
    ensures Successes(os, n) <= n
    decreases n
  {
    if n > 0 {
      SuccessesCount(os, n - 1);
      assert (forall i: nat :: i < n ==> os(i)) <==> (forall i: nat :: i < n - 1 ==> os(i)) && os(n - 1);
      assert (forall i: nat :: i < n ==> !os(i)) <==> (forall i: nat :: i < n - 1 ==> !os(i)) && !os(n - 1);
    }
  }

  /** The next `n` handles the system hands out. */
  function Handles(first: Handle, n: nat): seq<Handle> {
    seq(n, i => first + i)
  }

  lemma HandlesMore(before: seq<Handle>, first: Handle, n: nat)
    ensures before + Handles(first, n) + [first + n] == before + Handles(first, n + 1)
  {
  }

  function Copies(job: Job, n: nat): seq<Job> {
    seq(n, i => job)
  }

  lemma CopiesMore(before: seq<Job>, job: Job, n: nat)
    ensures before + Copies(job, n) + [job] == before + Copies(job, n + 1)
  {
  }

  function Reversed(s: seq<Handle>): (r: seq<Handle>)
    ensures |r| == |s| && forall i :: 0 <= i < |s| ==> r[i] == s[|s| - 1 - i]
  {
    seq(|s|, i requires 0 <= i < |s| => s[|s| - 1 - i])
  }

  lemma NewestFirst(before: seq<Handle>, s: seq<Handle>, k: nat)
    requires k < |s|
    ensures before + Reversed(s[k + 1..]) + [s[k]] == before + Reversed(s[k..])
  {
  }

  class CThreadGroup {
    var vecThreads: seq<Handle>
    var threadProc: nat            // 0 is NULL
    var parameter: nat
    var threadCmd: ThreadCmd
    var created: nat               // the operating system's side: creations so far,
    var jobs: seq<Job>             // what each of them runs,
    var closed: seq<Handle>        // and the handles closed, in order

    ghost predicate Valid()
      reads this
    {
      Balanced(created, vecThreads, closed) && |jobs| == created
    }

    constructor (threadProc: nat, parameter: nat)
      ensures Valid() && vecThreads == [] && closed == [] && created == 0
      ensures this.threadProc == threadProc && this.parameter == parameter && threadCmd == Nothing
    {
      this.threadProc, this.parameter := threadProc, parameter;
      vecThreads, threadCmd, created, jobs, closed := [], Nothing, 0, [], [];
    }

    /** _beginthreadex and push_back. */
    method Begin(proc: nat, param: nat)
      requires Valid()
      modifies `vecThreads, `created, `jobs
      ensures Valid() && created == old(created) + 1 && vecThreads == old(vecThreads) + [old(created)]
      ensures jobs == old(jobs) + [Job(proc, param)]
    {
      Opened(created, vecThreads, closed);
      jobs := jobs + [Job(proc, param)];
      vecThreads := vecThreads + [created];
      created := created + 1;
    }

    /** Clear: each open handle is closed once, oldest first. */
    method Clear()
      requires Valid()
      modifies `vecThreads, `threadCmd, `closed
      ensures Valid() && vecThreads == [] && threadCmd == Nothing
      ensures closed == old(closed) + old(vecThreads)
    {
      var i := 0;
      while i < |vecThreads|
        invariant 0 <= i <= |vecThreads| && vecThreads == old(vecThreads)
        invariant closed == old(closed) + vecThreads[..i]
        invariant Balanced(created, vecThreads[i..], closed)
      {
        ClosedFront(created, vecThreads, closed, i);
        TakeSnoc(vecThreads, i);
        Assoc(old(closed), vecThreads[..i], [vecThreads[i]]);
        closed := closed + [vecThreads[i]];
        i := i + 1;
      }
      TakeAll(vecThreads);
      vecThreads := [];
      threadCmd := Nothing;
    }

    /** Start with a routine: the old threads go, new ones come up to the first creation that fails; only if
    none fails are routine and parameter kept. */
    method StartWith(proc: nat, param: nat, count: int, os: nat -> bool) returns (ok: bool)
      requires Valid()
      modifies this
      ensures Valid()
      ensures ok <==> proc != 0 && forall i: nat :: i < count ==> os(i)
      ensures ok ==> threadProc == proc && parameter == param
      ensures !ok ==> threadProc == old(threadProc) && parameter == old(parameter)
      ensures proc == 0 || count <= 0 ==>
                && vecThreads == old(vecThreads) && closed == old(closed)
                && jobs == old(jobs) && threadCmd == old(threadCmd)
      ensures proc != 0 && count > 0 ==>
                && closed == old(closed) + old(vecThreads) && threadCmd == Nothing
                && vecThreads == Handles(old(created), |vecThreads|)
                && jobs == old(jobs) + Copies(Job(proc, param), |vecThreads|)
      ensures proc != 0 && count > 0 ==>
                (if ok then |vecThreads| == count
                 else |vecThreads| < count && !os(|vecThreads|) && forall i: nat :: i < |vecThreads| ==> os(i))
    {
      if proc == 0 {
        return false;
      }
      if count > 0 {
        Clear();
        ok := Create(proc, param, count, os);
        if !ok {
          return;
        }
      }
      threadProc, parameter := proc, param;
      return true;
    }

    /** The creation loop of both Start overloads. */
    method Create(proc: nat, param: nat, count: int, os: nat -> bool) returns (ok: bool)
      requires Valid() && vecThreads == [] && count > 0
      modifies `vecThreads, `created, `jobs
      ensures vecThreads == Handles(old(created), |vecThreads|)
      ensures jobs == old(jobs) + Copies(Job(proc, param), |vecThreads|)
      ensures Valid() && |vecThreads| <= count
      ensures forall j: nat :: j < |vecThreads| ==> os(j)
      ensures ok <==> |vecThreads| == count
      ensures !ok ==> !os(|vecThreads|)
    {
      var i := 0;
      assert Handles(created, 0) == [] && jobs + Copies(Job(proc, param), 0) == jobs;
      while i < count
        invariant 0 <= i <= count && Valid() && |vecThreads| == i && created == old(created) + i
        invariant vecThreads == Handles(old(created), i) && jobs == old(jobs) + Copies(Job(proc, param), i)
        invariant forall j: nat :: j < i ==> os(j)
      {
        if !os(i) {
          return false;
        }
        HandlesMore([], old(created), i);
        CopiesMore(old(jobs), Job(proc, param), i);
        Begin(proc, param);
        i := i + 1;
      }
      return true;
    }

    /** Start with the routine kept from before. */
    method Start(count: int, os: nat -> bool) returns (ok: bool)
      requires Valid()
      modifies this
      ensures Valid() && threadProc == old(threadProc) && parameter == old(parameter)
      ensures ok <==> threadProc != 0 && forall i: nat :: i < count ==> os(i)
      ensures threadProc == 0 || count <= 0 ==>
                && vecThreads == old(vecThreads) && closed == old(closed)
                && jobs == old(jobs) && threadCmd == old(threadCmd)
      ensures threadProc != 0 && count > 0 ==>
                && closed == old(closed) + old(vecThreads) && threadCmd == Nothing
                && vecThreads == Handles(old(created), |vecThreads|)
                && jobs == old(jobs) + Copies(Job(threadProc, parameter), |vecThreads|)
      ensures threadProc != 0 && count > 0 ==>
                (if ok then |vecThreads| == count
                 else |vecThreads| < count && !os(|vecThreads|) && forall i: nat :: i < |vecThreads| ==> os(i))
    {
      if threadProc == 0 {
        return false;
      }
      if count > 0 {
        Clear();
        ok := Create(threadProc, parameter, count, os);
        return;
      }
      return true;
    }

    /** AddThread: every attempt is made, failures skipped; the result is the growth. */
    method AddThread(count: int, os: nat -> bool) returns (added: int)
      requires Valid()
      modifies `vecThreads, `created, `jobs
      ensures Valid() && added >= 0
      ensures vecThreads == old(vecThreads) + Handles(old(created), added)
      ensures jobs == old(jobs) + Copies(Job(threadProc, parameter), added)
      ensures threadProc != 0 && count > 0 ==>
                && (added == count <==> forall i: nat :: i < count ==> os(i))
                && (added == 0 <==> forall i: nat :: i < count ==> !os(i))
      ensures added == if threadProc == 0 || count <= 0 then 0 else Successes(os, count)
    {
      added := 0;
      assert vecThreads + Handles(created, 0) == vecThreads;
      assert jobs + Copies(Job(threadProc, parameter), 0) == jobs;
      if threadProc == 0 || count <= 0 {
        return;
      }
      SuccessesCount(os, count);
      var i := 0;
      while i < count
        invariant 0 <= i <= count && Valid() && added == Successes(os, i) && created == old(created) + added
        invariant vecThreads == old(vecThreads) + Handles(old(created), added)
        invariant jobs == old(jobs) + Copies(Job(threadProc, parameter), added)
      {
        if os(i) {
          HandlesMore(old(vecThreads), old(created), added);
          CopiesMore(old(jobs), Job(threadProc, parameter), added);
          added := added + 1;
          Begin(threadProc, parameter);
        }
        i := i + 1;
      }
    }

    /** RemoveThread: the newest handles are closed, at most all; the oldest stay, in order. */
    method RemoveThread(count: int) returns (removed: int)
      requires Valid()
      modifies `vecThreads, `threadCmd, `closed
      ensures Valid()
      ensures removed == if count <= 0 then 0 else if count < |old(vecThreads)| then count else |old(vecThreads)|
      ensures vecThreads == old(vecThreads)[..|old(vecThreads)| - removed]
      ensures 0 < count < |old(vecThreads)| ==>
                && closed == old(closed) + Reversed(old(vecThreads)[|old(vecThreads)| - removed..])
                && threadCmd == old(threadCmd)
      ensures count > 0 && count >= |old(vecThreads)| ==>
                closed == old(closed) + old(vecThreads) && threadCmd == Nothing
      ensures count <= 0 ==> closed == old(closed) && threadCmd == old(threadCmd)
    {
      if count <= 0 {
        return 0;
      }
      removed := |vecThreads|;
      if count >= removed {
        Clear();
        return;
      }
      removed := count;
      var i := 0;
      while i < count
        invariant 0 <= i <= count < |old(vecThreads)| && Valid()
        invariant vecThreads == old(vecThreads)[..|old(vecThreads)| - i]
        invariant closed == old(closed) + Reversed(old(vecThreads)[|old(vecThreads)| - i..])
        invariant threadCmd == old(threadCmd)
      {
        var last := |vecThreads| - 1;
        Closed(created, vecThreads, closed, last);
        assert vecThreads[..last] + vecThreads[last + 1..] == vecThreads[..last];
        NewestFirst(old(closed), old(vecThreads), last);
        closed := closed + [vecThreads[last]];
        vecThreads := vecThreads[..last];
        i := i + 1;
      }
    }
  }
}
