/** The status reports of a service and the numbering of their checkpoints. */
module ServiceStatus {
  import opened Seqs

  const WORD: nat := 0x1_0000_0000
  const NO_ERROR: nat := 0
  const ERROR_SERVICE_SPECIFIC_ERROR: nat := 1066
  const DEFAULT_WAIT_HINT: nat := 3000

  datatype ServiceState = StartPending | Running | StopPending | Stopped | PausePending | Paused | ContinuePending

  /** SERVICE_STATUS as far as reports set it. */
  datatype Status = Status(
    currentState: ServiceState, controlsAccepted: nat, win32ExitCode: nat,
    specificExitCode: nat, checkPoint: nat, waitHint: nat)

  /** One call of ReportStatus; `ok` is the service control manager's answer. */
  datatype Request = Request(state: ServiceState, waitHint: nat, errExit: nat, ok: bool)

  datatype Control = Stop | Pause | Continue | Shutdown | Interrogate | Unknown

  /** What happens while Run is active: its own reports, and controls with the reports their handlers make. */
  datatype Event = Report(request: Request) | Controlled(code: Control, handler: seq<Request>, ok: bool)

  /** The member functions a service overrides. */
  datatype Virtual = CallRun | CallStop | CallPause | CallContinue | CallShutdown

  /** What is left of a count in a DWORD. */
  function Wrap(n: nat): (r: nat)
    ensures r < WORD && (n < WORD ==> r == n)
  {
    if n < WORD then n else Wrap(n - WORD)
  }

  lemma {:induction false} WrapStep(n: nat)
    ensures Wrap(Wrap(n) + 1) == Wrap(n + 1)
  {
    if n >= WORD { WrapStep(n - WORD); }
  }

  predicate Settled(s: ServiceState) {
    s == Running || s == Stopped
  }

  /** How many of the reports carry a counted checkpoint. */
  function Counted(log: seq<Status>): nat {
    if log == [] then 0
    else Counted(log[..|log| - 1]) + if Settled(log[|log| - 1].currentState) then 0 else 1
  }

  /** The numbering law: a settled state carries 0; any other carries its position among the counted reports,
  in 32-bit arithmetic.  And while starting, no control is accepted. */
  predicate NumberedAt(log: seq<Status>, i: nat)
    requires i < |log|
  {
    && log[i].checkPoint == (if Settled(log[i].currentState) then 0 else Wrap(Counted(log[..i + 1])))
    && (log[i].currentState == StartPending ==> log[i].controlsAccepted == 0)
    && (log[i].win32ExitCode == if log[i].specificExitCode != 0 then ERROR_SERVICE_SPECIFIC_ERROR else NO_ERROR)
  }

  ghost predicate Numbered(log: seq<Status>) {
    forall i :: 0 <= i < |log| ==> NumberedAt(log, i)
  }

  lemma NumberedSnoc(log: seq<Status>, s: Status)
    requires Numbered(log)
    requires s.checkPoint == if Settled(s.currentState) then 0 else Wrap(Counted(log) + 1)
    requires s.currentState == StartPending ==> s.controlsAccepted == 0
    requires s.win32ExitCode == if s.specificExitCode != 0 then ERROR_SERVICE_SPECIFIC_ERROR else NO_ERROR
    ensures Numbered(log + [s]) && Counted(log + [s]) == Counted(log) + if Settled(s.currentState) then 0 else 1
  {
    var longer := log + [s];
    assert longer[..|log|] == log && longer[..|log| + 1] == longer;
    forall i | 0 <= i < |log| ensures NumberedAt(longer, i) {
      assert NumberedAt(log, i) && longer[..i + 1] == log[..i + 1];
    }
  }

  /** The law in terms of the counter before the report. */
  lemma Appended(log: seq<Status>, s: Status)
    requires Numbered(log)
    requires s.checkPoint == if Settled(s.currentState) then 0 else Wrap(Wrap(Counted(log)) + 1)
    requires s.currentState == StartPending ==> s.controlsAccepted == 0
    requires s.win32ExitCode == if s.specificExitCode != 0 then ERROR_SERVICE_SPECIFIC_ERROR else NO_ERROR
    ensures Numbered(log + [s])
    ensures Wrap(Counted(log + [s])) ==
            if Settled(s.currentState) then Wrap(Counted(log)) else Wrap(Wrap(Counted(log)) + 1)
  {
    WrapStep(Counted(log));
    NumberedSnoc(log, s);
  }

  /** The checkpoints other than 0, in order. */
  function NonZero(log: seq<Status>): seq<nat> {
    if log == [] then []
    else
      var last := log[|log| - 1].checkPoint;
      NonZero(log[..|log| - 1]) + if last == 0 then [] else [last]
  }

  /** Before the counter wraps, the checkpoints other than 0 are exactly 1, 2, 3, ... over the whole run, not
  restarted by any settled report between them. */
  lemma {:induction false} CheckpointsCount(log: seq<Status>)
    requires Numbered(log) && Counted(log) < WORD
    ensures NonZero(log) == seq(Counted(log), i => i + 1)
    decreases |log|
  {
    if log != [] {
      var before := log[..|log| - 1];
      assert log[..|log| - 1 + 1] == log;
      forall i | 0 <= i < |before| ensures NumberedAt(before, i) {
        assert NumberedAt(log, i) && before[..i + 1] == log[..i + 1];
      }
      assert NumberedAt(log, |log| - 1);
      CheckpointsCount(before);
    }
  }

  lemma {:induction false} CountedGrows(log: seq<Status>, i: nat)
    requires i <= |log|
    ensures Counted(log[..i]) <= Counted(log)
    decreases |log| - i
  {
    if i < |log| {
      assert log[..i + 1][..i] == log[..i];
      CountedGrows(log, i + 1);
    } else {
      assert log[..i] == log;
    }
  }

  /** The report that brings the count to `k`. */
  lemma {:induction false} ReportNumber(log: seq<Status>, k: nat) returns (i: nat)
    requires 1 <= k <= Counted(log)
    ensures i < |log| && !Settled(log[i].currentState) && Counted(log[..i + 1]) == k
    decreases |log|
  {
    var n := |log| - 1;
    assert log[..n + 1] == log;
    if Counted(log[..n]) >= k {
      i := ReportNumber(log[..n], k);
      assert log[..n][..i + 1] == log[..i + 1];
    } else {
      i := n;
    }
  }

  lemma SmallMod(c: nat)
    requires 1 <= c <= WORD
    ensures Wrap(c) == 0 <==> c == WORD
  {
  }

  lemma ZeroAt(log: seq<Status>, i: nat)
    requires Numbered(log) && i < |log| && Counted(log[..i + 1]) <= WORD
    ensures log[i].checkPoint == 0 <==> Settled(log[i].currentState) || Counted(log[..i + 1]) == WORD
  {
    assert NumberedAt(log, i);
    if !Settled(log[i].currentState) {
      assert log[..i + 1][..i] == log[..i];
      SmallMod(Counted(log[..i + 1]));
    }
  }

  ghost predicate ZeroMeansSettled(log: seq<Status>) {
    forall i :: 0 <= i < |log| ==> (log[i].checkPoint == 0 <==> Settled(log[i].currentState))
  }

  /** A checkpoint of 0 means RUNNING or STOPPED exactly as long as the counter has not wrapped. */
  lemma ZeroMeansSettledIff(log: seq<Status>)
    requires Numbered(log)
    ensures ZeroMeansSettled(log) <==> Counted(log) < WORD
  {
    if Counted(log) < WORD {
      forall i | 0 <= i < |log| ensures log[i].checkPoint == 0 <==> Settled(log[i].currentState) {
        CountedGrows(log, i + 1);
        ZeroAt(log, i);
      }
    } else {
      var i := ReportNumber(log, WORD);
      ZeroAt(log, i);
    }
  }

  // ----- Which reports are made -----

  /** The status says what the request asked for. */
  ghost predicate Carries(s: Status, r: Request, accepted: nat) {
    && s.currentState == r.state && s.waitHint == r.waitHint && s.specificExitCode == r.errExit
    && s.controlsAccepted == if r.state == StartPending then 0 else accepted
  }

  /** Between `before` and `after` exactly these reports were made, in this order. */
  ghost predicate Adds(before: seq<Status>, after: seq<Status>, requests: seq<Request>, accepted: nat) {
    && before <= after && |after| == |before| + |requests|
    && forall i :: 0 <= i < |requests| ==> Carries(after[|before| + i], requests[i], accepted)
  }

  lemma AddsNone(log: seq<Status>, accepted: nat)
    ensures Adds(log, log, [], accepted)
  {
  }

  lemma AddsJoin(a: seq<Status>, b: seq<Status>, c: seq<Status>, first: seq<Request>, more: seq<Request>, accepted: nat)
    requires Adds(a, b, first, accepted) && Adds(b, c, more, accepted)
    ensures Adds(a, c, first + more, accepted)
  {
    forall i | 0 <= i < |first + more| ensures Carries(c[|a| + i], (first + more)[i], accepted) {
      if i < |first| {
        assert c[|a| + i] == b[|a| + i];
      } else {
        assert c[|a| + i] == c[|b| + (i - |first|)];
      }
    }
  }

  predicate HasHandler(code: Control) {
    code == Stop || code == Pause || code == Continue || code == Shutdown
  }

  /** The reports one event leads to when the current state is `cur`. */
  function MadeBy(cur: ServiceState, e: Event): seq<Request> {
    match e
    case Report(r) => [r]
    case Controlled(code, handler, ok) =>
      if HasHandler(code) then handler
      else if code == Interrogate then [Request(cur, DEFAULT_WAIT_HINT, 0, ok)]
      else []
  }

  /** The current state afterwards. */
  function StateAfter(cur: ServiceState, e: Event): ServiceState {
    match e
    case Report(r) => r.state
    case Controlled(code, handler, ok) =>
      if HasHandler(code) && handler != [] then handler[|handler| - 1].state
      else match code
        case Stop => StopPending
        case Pause => PausePending
        case Continue => ContinuePending
        case _ => cur
  }

  function StateAt(cur: ServiceState, events: seq<Event>): ServiceState
    decreases |events|
  {
    if events == [] then cur else StateAt(StateAfter(cur, events[0]), events[1..])
  }

  function Made(cur: ServiceState, events: seq<Event>): seq<Request>
    decreases |events|
  {
    if events == [] then [] else MadeBy(cur, events[0]) + Made(StateAfter(cur, events[0]), events[1..])
  }

  function CallOf(e: Event): seq<Virtual> {
    if e.Report? then []
    else match e.code
      case Stop => [CallStop]
      case Pause => [CallPause]
      case Continue => [CallContinue]
      case Shutdown => [CallShutdown]
      case _ => []
  }

  function CallsOf(events: seq<Event>): seq<Virtual> {
    if events == [] then [] else CallsOf(events[..|events| - 1]) + CallOf(events[|events| - 1])
  }

  /** Every report of Run itself, every report of a handler and every interrogation is made, in the order of the
  events, and nothing else is. */
  lemma MadeInOrder(cur: ServiceState, r: Request, handler: seq<Request>, ok: bool)
    ensures Made(cur, []) == []
    ensures Made(cur, [Report(r)]) == [r]
    ensures forall code :: code in {Stop, Pause, Continue, Shutdown} ==>
              Made(cur, [Controlled(code, handler, ok)]) == handler
    ensures Made(cur, [Controlled(Interrogate, handler, ok)]) == [Request(cur, 3000, 0, ok)]
    ensures Made(cur, [Controlled(Unknown, handler, ok)]) == []
  {
    forall e: Event ensures Made(cur, [e]) == MadeBy(cur, e) {
      assert [e][1..] == [];
      Empty(MadeBy(cur, e));
    }
  }

  /** What interrogations then repeat: the state of the last report, or the pending state of a later control. */
  lemma StateInOrder(cur: ServiceState, r: Request, handler: seq<Request>, ok: bool)
    ensures StateAt(cur, []) == cur
    ensures StateAt(cur, [Report(r)]) == r.state
    ensures forall code :: code in {Stop, Pause, Continue, Shutdown} && handler != [] ==>
              StateAt(cur, [Controlled(code, handler, ok)]) == handler[|handler| - 1].state
    ensures StateAt(cur, [Controlled(Stop, [], ok)]) == StopPending
    ensures StateAt(cur, [Controlled(Pause, [], ok)]) == PausePending
    ensures StateAt(cur, [Controlled(Continue, [], ok)]) == ContinuePending
    ensures forall code :: code in {Interrogate, Unknown} ==> StateAt(cur, [Controlled(code, handler, ok)]) == cur
    ensures StateAt(cur, [Controlled(Shutdown, [], ok)]) == cur
  {
    forall e: Event ensures StateAt(cur, [e]) == StateAfter(cur, e) {
      assert [e][1..] == [];
      assert StateAt(StateAfter(cur, e), []) == StateAfter(cur, e);
    }
  }

  lemma {:induction false} MadeConcat(cur: ServiceState, a: seq<Event>, b: seq<Event>)
    ensures Made(cur, a + b) == Made(cur, a) + Made(StateAt(cur, a), b)
    ensures StateAt(cur, a + b) == StateAt(StateAt(cur, a), b)
    decreases |a|
  {
    if a == [] {
      Empty(b);
      Empty(Made(cur, b));
    } else {
      TailOfConcat(a, b);
      var next := StateAfter(cur, a[0]);
      MadeConcat(next, a[1..], b);
      Assoc(MadeBy(cur, a[0]), Made(next, a[1..]), Made(StateAt(next, a[1..]), b));
    }
  }

  lemma MadeSnoc(cur: ServiceState, events: seq<Event>, i: nat)
    requires i < |events|
    ensures Made(cur, events[..i + 1]) == Made(cur, events[..i]) + MadeBy(StateAt(cur, events[..i]), events[i])
    ensures StateAt(cur, events[..i + 1]) == StateAfter(StateAt(cur, events[..i]), events[i])
    ensures CallsOf(events[..i + 1]) == CallsOf(events[..i]) + CallOf(events[i])
  {
    var e := events[i];
    TakeSnoc(events, i);
    MadeConcat(cur, events[..i], [e]);
    assert [e][1..] == [];
    Empty(MadeBy(StateAt(cur, events[..i]), e));
    assert events[..i + 1][..i] == events[..i];
  }

  /** The reports made since `before`: at least two, the first START_PENDING, the last STOPPED. */
  ghost predicate StartsAndStops(before: seq<Status>, log: seq<Status>) {
    && |log| >= |before| + 2 && before <= log
    && log[|before|].currentState == StartPending && log[|before|].controlsAccepted == 0
    && log[|log| - 1].currentState == Stopped && log[|log| - 1].checkPoint == 0
  }

  lemma FirstAndLast(before: seq<Status>, log: seq<Status>, requests: seq<Request>, accepted: nat)
    requires Numbered(log) && Adds(before, log, requests, accepted) && |requests| >= 2
    requires requests[0].state == StartPending && requests[|requests| - 1].state == Stopped
    ensures StartsAndStops(before, log)
  {
    assert Carries(log[|before|], requests[0], accepted);
    assert Carries(log[|log| - 1], requests[|requests| - 1], accepted);
    assert NumberedAt(log, |log| - 1);
  }

  /** What ServiceMain reports before it stops. */
  function StartAndRun(events: seq<Event>, startOk: bool): seq<Request> {
    [Request(StartPending, 3000, 0, startOk)] + if startOk then Made(StartPending, events) else []
  }

  lemma WholeService(a: seq<Status>, b: seq<Status>, c: seq<Status>,
                     requests: seq<Request>, stopOk: bool, accepted: nat)
    requires Numbered(c) && Adds(a, b, requests, accepted) && Adds(b, c, [Request(Stopped, 3000, 0, stopOk)], accepted)
    requires requests != [] && requests[0].state == StartPending
    ensures Adds(a, c, requests + [Request(Stopped, 3000, 0, stopOk)], accepted) && StartsAndStops(a, c)
  {
    AddsJoin(a, b, c, requests, [Request(Stopped, 3000, 0, stopOk)], accepted);
    FirstAndLast(a, c, requests + [Request(Stopped, 3000, 0, stopOk)], accepted);
  }

  class CNTService {
    var debug: bool
    var handle: nat                // m_sshStatusHandle
    var controlsAccepted: nat      // m_dwControlsAccepted
    var checkPoint: nat            // m_dwCheckPoint
    var status: Status             // m_ssStatus
    var log: seq<Status>           // every status handed to the service control manager
    var calls: seq<Virtual>        // every call of an overridden member function

    ghost predicate Valid()
      reads this
    {
      Numbered(log) && checkPoint == Wrap(Counted(log))
    }

    constructor (debug: bool, controlsAccepted: nat)
      ensures Valid() && log == [] && calls == [] && this.debug == debug && this.controlsAccepted == controlsAccepted
    {
      this.debug := debug;
      this.controlsAccepted := controlsAccepted;
      handle, checkPoint, log, calls := 0, 0, [], [];
      status := Status(Stopped, 0, 0, 0, 0, 0);
    }

    method ReportStatus(r: Request) returns (result: bool)
      requires Valid()
      modifies `checkPoint, `status, `log
      ensures Valid()
      ensures debug ==> result && log == old(log) && status == old(status) && checkPoint == old(checkPoint)
      ensures !debug ==> result == r.ok && log == old(log) + [status]
      ensures !debug ==>
                && status.currentState == r.state && status.waitHint == r.waitHint
                && status.specificExitCode == r.errExit
                && status.win32ExitCode == if r.errExit != 0 then 1066 else 0
      ensures !debug ==> status.controlsAccepted == if r.state == StartPending then 0 else controlsAccepted
      ensures !debug && (r.state == Running || r.state == Stopped) ==>
                checkPoint == old(checkPoint) && status.checkPoint == 0
      ensures !debug && r.state != Running && r.state != Stopped ==>
                && status.checkPoint == checkPoint
                && checkPoint == if old(checkPoint) == 0xffff_ffff then 0 else old(checkPoint) + 1
    {
      result := true;
      if !debug {
        if r.state == StartPending {
          status := status.(controlsAccepted := 0);
        } else {
          status := status.(controlsAccepted := controlsAccepted);
        }
        status := status.(currentState := r.state, win32ExitCode := NO_ERROR, waitHint := r.waitHint);
        status := status.(specificExitCode := r.errExit);
        if r.errExit != 0 {
          status := status.(win32ExitCode := ERROR_SERVICE_SPECIFIC_ERROR);
        }
        if r.state == Running || r.state == Stopped {
          status := status.(checkPoint := 0);
        } else {
          checkPoint := Wrap(checkPoint + 1);
          status := status.(checkPoint := checkPoint);
        }
        Appended(log, status);
        log := log + [status];
        result := r.ok;
      }
    }

    /** An overridden handler is called and makes its reports. */
    method Handle(which: Virtual, requests: seq<Request>)
      requires Valid()
      modifies `checkPoint, `status, `log, `calls
      ensures Valid() && calls == old(calls) + [which]
      ensures debug || requests == [] ==> log == old(log) && status == old(status) && checkPoint == old(checkPoint)
      ensures !debug ==> Adds(old(log), log, requests, controlsAccepted)
      ensures !debug && requests != [] ==>
                status == log[|log| - 1] && status.currentState == requests[|requests| - 1].state
    {
      calls := calls + [which];
      AddsNone(log, controlsAccepted);
      assert requests[..0] == [];
      for i := 0 to |requests|
        invariant Valid() && calls == old(calls) + [which]
        invariant !debug ==> Adds(old(log), log, requests[..i], controlsAccepted)
        invariant debug || i == 0 ==> log == old(log) && status == old(status) && checkPoint == old(checkPoint)
        invariant !debug && i > 0 ==> status == log[|log| - 1] && status.currentState == requests[i - 1].state
      {
        ghost var before := log;
        var _ := ReportStatus(requests[i]);
        TakeSnoc(requests, i);
        if !debug { AddsJoin(old(log), before, log, requests[..i], [requests[i]], controlsAccepted); }
      }
      TakeAll(requests);
    }

    /** The control dispatcher.  The pending states it sets are not reported by it; the handlers called are. */
    method ServiceCtrl(code: Control, handler: seq<Request>, ok: bool)
      requires Valid()
      modifies `checkPoint, `status, `log, `calls
      ensures Valid() && (debug ==> log == old(log) && checkPoint == old(checkPoint))
      ensures calls == old(calls) + match code
                                    case Stop => [CallStop]
                                    case Pause => [CallPause]
                                    case Continue => [CallContinue]
                                    case Shutdown => [CallShutdown]
                                    case _ => []
      ensures code in {Stop, Pause, Continue, Shutdown} && !debug ==> Adds(old(log), log, handler, controlsAccepted)
      ensures code in {Stop, Pause, Continue, Shutdown} && !debug && handler != [] ==>
                status == log[|log| - 1] && status.currentState == handler[|handler| - 1].state
      ensures code in {Stop, Pause, Continue, Shutdown} && (debug || handler == []) ==>
                && log == old(log) && checkPoint == old(checkPoint)
                && status == match code
                             case Stop => old(status).(currentState := StopPending)
                             case Pause => old(status).(currentState := PausePending)
                             case Continue => old(status).(currentState := ContinuePending)
                             case _ => old(status)
      ensures code == Interrogate && !debug ==>
                && log == old(log) + [status] && status.currentState == old(status).currentState
                && status.waitHint == 3000 && status.specificExitCode == 0
                && Adds(old(log), log, [Request(old(status).currentState, 3000, 0, ok)], controlsAccepted)
      ensures code == Interrogate && !debug
              && old(status).currentState != Running && old(status).currentState != Stopped ==>
                && status.checkPoint == checkPoint
                && checkPoint == if old(checkPoint) == 0xffff_ffff then 0 else old(checkPoint) + 1
      ensures code == Unknown || (code == Interrogate && debug) ==>
                log == old(log) && status == old(status) && checkPoint == old(checkPoint)
    {
      match code
      case Stop =>
        status := status.(currentState := StopPending);
        Handle(CallStop, handler);
      case Pause =>
        status := status.(currentState := PausePending);
        Handle(CallPause, handler);
      case Continue =>
        status := status.(currentState := ContinuePending);
        Handle(CallContinue, handler);
      case Shutdown =>
        Handle(CallShutdown, handler);
      case Interrogate =>
        var _ := ReportStatus(Request(status.currentState, DEFAULT_WAIT_HINT, 0, ok));
      case Unknown =>
    }

    /** Any Run: reports and controls in any order. */
    method Run(events: seq<Event>)
      requires Valid()
      modifies `checkPoint, `status, `log, `calls
      ensures Valid() && calls == old(calls) + [CallRun] + CallsOf(events)
      ensures debug ==> log == old(log)
      ensures !debug ==> Adds(old(log), log, Made(old(status).currentState, events), controlsAccepted)
      ensures !debug ==> status.currentState == StateAt(old(status).currentState, events)
    {
      calls := calls + [CallRun];
      ghost var cur := status.currentState;
      AddsNone(log, controlsAccepted);
      Empty(calls);
      for i := 0 to |events|
        invariant Valid() && calls == old(calls) + [CallRun] + CallsOf(events[..i])
        invariant debug ==> log == old(log)
        invariant !debug ==> Adds(old(log), log, Made(cur, events[..i]), controlsAccepted)
        invariant !debug ==> status.currentState == StateAt(cur, events[..i])
      {
        ghost var before := log;
        Occur(events[i]);
        MadeSnoc(cur, events, i);
        Assoc(old(calls) + [CallRun], CallsOf(events[..i]), CallOf(events[i]));
        if !debug {
          AddsJoin(old(log), before, log, Made(cur, events[..i]), MadeBy(StateAt(cur, events[..i]), events[i]),
                   controlsAccepted);
        }
      }
      TakeAll(events);
    }

    /** One event while Run is active. */
    method Occur(e: Event)
      requires Valid()
      modifies `checkPoint, `status, `log, `calls
      ensures Valid() && calls == old(calls) + CallOf(e)
      ensures debug ==> log == old(log)
      ensures !debug ==> Adds(old(log), log, MadeBy(old(status).currentState, e), controlsAccepted)
      ensures !debug ==> status.currentState == StateAfter(old(status).currentState, e)
    {
      match e
      case Report(request) =>
        var _ := ReportStatus(request);
      case Controlled(code, handler, ok) =>
        ServiceCtrl(code, handler, ok);
        AddsNone(old(log), controlsAccepted);
    }

    /** The first half of ServiceMain: Run is called if, and only if, the first report is accepted. */
    method Started(events: seq<Event>, startOk: bool)
      requires Valid()
      modifies `checkPoint, `status, `log, `calls
      ensures Valid() && calls == old(calls) + if debug || startOk then [CallRun] + CallsOf(events) else []
      ensures debug ==> log == old(log)
      ensures !debug ==> Adds(old(log), log, StartAndRun(events, startOk), controlsAccepted)
    {
      Empty(calls);
      var started := ReportStatus(Request(StartPending, DEFAULT_WAIT_HINT, 0, startOk));
      ghost var before := log;
      if started {
        Run(events);
        Assoc(old(calls), [CallRun], CallsOf(events));
        if !debug {
          AddsJoin(old(log), before, log, [Request(StartPending, 3000, 0, startOk)], Made(StartPending, events),
                   controlsAccepted);
        }
      } else {
        Empty([Request(StartPending, 3000, 0, startOk)]);
      }
    }

    /** ServiceMain: with a registered handle the reports are START_PENDING, those of Run if the first was
    accepted, and STOPPED; and Run is called then, and only then. */
    method ServiceMain(registered: nat, events: seq<Event>, startOk: bool, stopOk: bool)
      requires Valid()
      modifies `handle, `checkPoint, `status, `log, `calls
      ensures Valid() && handle == registered
      ensures calls == old(calls) + if registered != 0 && (debug || startOk) then [CallRun] + CallsOf(events) else []
      ensures debug || registered == 0 ==> log == old(log)
      ensures !debug && registered != 0 ==>
                Adds(old(log), log,
                     [Request(StartPending, 3000, 0, startOk)]
                     + (if startOk then Made(StartPending, events) else [])
                     + [Request(Stopped, 3000, 0, stopOk)], controlsAccepted)
      ensures !debug && registered != 0 ==> StartsAndStops(old(log), log) && (!startOk ==> |log| == |old(log)| + 2)
    {
      handle := registered;
      Empty(calls);
      if handle != 0 {
        Started(events, startOk);
      }
      if handle != 0 {
        ghost var before := log;
        var _ := ReportStatus(Request(Stopped, DEFAULT_WAIT_HINT, 0, stopOk));
        if !debug {
          WholeService(old(log), before, log, StartAndRun(events, startOk), stopOk, controlsAccepted);
        }
      }
    }
  }
}
