/**
 * Management-frame transmission (client_interface_impl.cpp): one frame in flight, identified by the kernel's cookie,
 * and a handler that reports the outcome to the requester's callback.
 */
module ClientInterface {
  import opened Bytes

  /** A callback is named by the request that brought it. */
  datatype Report = Acked | NoAck | McsUnsupported | Unknown

  datatype Call = Call(callback: nat, report: Report)

  /** `handler` is the callback that the stored status handler reports to; None is the handler that does nothing. */
  datatype State = State(inProgress: bool, cookie: int, handler: Option<nat>, calls: seq<Call>)

  const IDLE := State(false, 0, None, [])

  /** `kernelCookie` is the cookie of a request that the kernel accepted. */
  datatype Op =
    | Send(callback: nat, mcsRejected: bool, kernelCookie: Option<int>)
    | TxStatus(cookie: int, acked: bool)

  predicate Rejected(op: Op) {
    op.Send? && (op.mcsRejected || op.kernelCookie.None?)
  }

  function Apply(st: State, op: Op): State {
    match op
    case Send(callback, mcsRejected, kernelCookie) =>
      if mcsRejected then st.(calls := st.calls + [Call(callback, McsUnsupported)])
      else if kernelCookie.None? then st.(calls := st.calls + [Call(callback, Unknown)])
      else st.(inProgress := true, cookie := kernelCookie.value, handler := Some(callback))
    case TxStatus(cookie, acked) =>
      if st.inProgress && st.cookie == cookie then
        var report := if acked then Acked else NoAck;
        State(false, 0, None, if st.handler.Some? then st.calls + [Call(st.handler.value, report)] else st.calls)
      else st
  }

  function Run(ops: seq<Op>): State
    decreases |ops|
  {
    if ops == [] then IDLE else Apply(Run(ops[..|ops| - 1]), ops[|ops| - 1])
  }

  /** Every request brings its own callback. */
  predicate OwnCallbacks(ops: seq<Op>) {
    forall i, j :: 0 <= i < j < |ops| && ops[i].Send? && ops[j].Send? ==> ops[i].callback != ops[j].callback
  }

  function Callbacks(ops: seq<Op>): set<nat> {
    set i | 0 <= i < |ops| && ops[i].Send? :: ops[i].callback
  }

  function CallsTo(calls: seq<Call>, callback: nat): nat {
    if calls == [] then 0
    else CallsTo(calls[..|calls| - 1], callback) + if calls[|calls| - 1].callback == callback then 1 else 0
  }

  /** Idle means: no cookie, and the handler does nothing. */
  predicate WellFormed(st: State) {
    (st.inProgress <==> st.handler.Some?) && (!st.inProgress ==> st.cookie == 0)
  }

  /** The last request that the kernel accepted, and its cookie. */
  function LastAccepted(ops: seq<Op>): (r: Option<Op>)
    ensures r.Some? ==> r.value.Send? && !Rejected(r.value)
  {
    if ops == [] then None
    else if ops[|ops| - 1].Send? && !Rejected(ops[|ops| - 1]) then Some(ops[|ops| - 1])
    else LastAccepted(ops[..|ops| - 1])
  }

  ghost predicate Invariant(ops: seq<Op>, st: State) {
    && WellFormed(st)
    && (forall c :: c in Callbacks(ops) || CallsTo(st.calls, c) == 0)
    && (forall c :: CallsTo(st.calls, c) <= 1)
    && (st.inProgress ==>
          && CallsTo(st.calls, st.handler.value) == 0 && st.handler.value in Callbacks(ops)
          && LastAccepted(ops).Some? && LastAccepted(ops).value.callback == st.handler.value
          && LastAccepted(ops).value.kernelCookie == Some(st.cookie))
  }

  lemma CallAdded(calls: seq<Call>, call: Call, c: nat)
    ensures CallsTo(calls + [call], c) == CallsTo(calls, c) + if call.callback == c then 1 else 0
  {
    assert (calls + [call])[..|calls|] == calls;
  }

  lemma CallbacksGrow(ops: seq<Op>, op: Op)
    requires OwnCallbacks(ops + [op])
    ensures OwnCallbacks(ops)
    ensures Callbacks(ops + [op]) == Callbacks(ops) + if op.Send? then {op.callback} else {}
    ensures op.Send? ==> op.callback !in Callbacks(ops)
  {
    var all := ops + [op];
    assert forall i :: 0 <= i < |ops| ==> all[i] == ops[i];
    assert all[|ops|] == op;
    forall i, j | 0 <= i < j < |ops| && ops[i].Send? && ops[j].Send? ensures ops[i].callback != ops[j].callback {
      assert all[i] == ops[i] && all[j] == ops[j];
    }
    forall i | 0 <= i < |ops| && ops[i].Send? && op.Send? ensures ops[i].callback != op.callback {
      assert all[i] == ops[i];
    }
  }

  /** How one more call changes the counts. */
  lemma CallsGrow(calls: seq<Call>, call: Call)
    ensures forall c :: CallsTo(calls + [call], c) == CallsTo(calls, c) + if call.callback == c then 1 else 0
  {
    forall c ensures CallsTo(calls + [call], c) == CallsTo(calls, c) + if call.callback == c then 1 else 0 {
      CallAdded(calls, call, c);
    }
  }

  lemma SendStep(ops: seq<Op>, op: Op, st: State)
    requires op.Send? && OwnCallbacks(ops + [op]) && Invariant(ops, st)
    ensures Invariant(ops + [op], Apply(st, op))
  {
    CallbacksGrow(ops, op);
    assert (ops + [op])[..|ops|] == ops && (ops + [op])[|ops|] == op;
    if Rejected(op) {
      CallsGrow(st.calls, Call(op.callback, if op.mcsRejected then McsUnsupported else Unknown));
      assert LastAccepted(ops + [op]) == LastAccepted(ops);
    } else {
      assert LastAccepted(ops + [op]) == Some(op);
    }
  }

  lemma StatusStep(ops: seq<Op>, op: Op, st: State)
    requires op.TxStatus? && OwnCallbacks(ops + [op]) && Invariant(ops, st)
    ensures Invariant(ops + [op], Apply(st, op))
  {
    CallbacksGrow(ops, op);
    assert (ops + [op])[..|ops|] == ops && (ops + [op])[|ops|] == op;
    assert LastAccepted(ops + [op]) == LastAccepted(ops);
    if st.inProgress && st.cookie == op.cookie {
      CallsGrow(st.calls, Call(st.handler.value, if op.acked then Acked else NoAck));
    }
  }

  lemma {:induction false} InvariantHolds(ops: seq<Op>)
    requires OwnCallbacks(ops)
    ensures Invariant(ops, Run(ops))
    decreases |ops|
  {
    if ops != [] {
      var before, op := ops[..|ops| - 1], ops[|ops| - 1];
      assert before + [op] == ops;
      CallbacksGrow(before, op);
      InvariantHolds(before);
      if op.Send? {
        SendStep(before, op, Run(before));
      } else {
        StatusStep(before, op, Run(before));
      }
    }
  }

  /** Over every run each callback hears at most one outcome, and an idle interface has cookie 0 and no handler. */
  lemma AtMostOneOutcome(ops: seq<Op>, callback: nat)
    requires OwnCallbacks(ops)
    ensures CallsTo(Run(ops).calls, callback) <= 1
    ensures !Run(ops).inProgress ==> Run(ops).cookie == 0 && Run(ops).handler == None
  {
    InvariantHolds(ops);
  }

  /** A rejected request fails at once and leaves the one in flight alone. */
  lemma RejectionIsLocal(ops: seq<Op>, op: Op)
    requires OwnCallbacks(ops + [op]) && Rejected(op)
    ensures var st, after := Run(ops), Apply(Run(ops), op);
            && after == st.(calls := after.calls)
            && CallsTo(after.calls, op.callback) == 1
            && forall c :: c != op.callback ==> CallsTo(after.calls, c) == CallsTo(st.calls, c)
  {
    CallbacksGrow(ops, op);
    InvariantHolds(ops);
    var st := Run(ops);
    var call := Apply(st, op).calls[|st.calls|];
    forall c ensures CallsTo(Apply(st, op).calls, c) == CallsTo(st.calls, c) + if call.callback == c then 1 else 0 {
      CallAdded(st.calls, call, c);
    }
  }

  /** A status event reports only to the latest accepted request, and only when it carries that request's cookie. */
  lemma StatusCompletesLatest(ops: seq<Op>, cookie: int, acked: bool)
    requires OwnCallbacks(ops)
    ensures var st, after := Run(ops), Apply(Run(ops), TxStatus(cookie, acked));
            if st.inProgress && cookie == st.cookie then
              && LastAccepted(ops).Some? && LastAccepted(ops).value.kernelCookie == Some(cookie)
              && after.calls == st.calls + [Call(LastAccepted(ops).value.callback, if acked then Acked else NoAck)]
              && !after.inProgress
            else after == st
  {
    InvariantHolds(ops);
  }

  /** A request that is neither in flight nor answered stays that way. */
  lemma {:induction false} SilenceLasts(ops: seq<Op>, later: seq<Op>, callback: nat)
    requires OwnCallbacks(ops + later) && callback in Callbacks(ops)
    requires CallsTo(Run(ops).calls, callback) == 0 && Run(ops).handler != Some(callback)
    ensures CallsTo(Run(ops + later).calls, callback) == 0 && Run(ops + later).handler != Some(callback)
    decreases |later|
  {
    if later == [] {
      assert ops + later == ops;
    } else {
      var front, op := later[..|later| - 1], later[|later| - 1];
      var all := ops + front;
      assert ops + later == all + [op] && (all + [op])[..|all|] == all;
      CallbacksGrow(all, op);
      SilenceLasts(ops, front, callback);
      InCallbacks(ops, front, callback);
      SilentStep(all, op, callback);
    }
  }

  /** A request in flight that is superseded by another accepted one is never called, whatever happens later. */
  lemma SupersededStaysSilent(ops: seq<Op>, op: Op, later: seq<Op>, callback: nat)
    requires OwnCallbacks(ops + [op] + later) && Run(ops).handler == Some(callback)
    requires op.Send? && !Rejected(op)
    ensures CallsTo(Run(ops + [op] + later).calls, callback) == 0
    ensures Run(ops + [op] + later).handler != Some(callback)
  {
    var superseded := ops + [op];
    CallbacksOfPrefix(superseded, later);
    CallbacksGrow(ops, op);
    InvariantHolds(ops);
    InCallbacks(ops, [op], callback);
    assert superseded[..|ops|] == ops && superseded[|ops|] == op;
    assert Run(superseded) == Apply(Run(ops), op);
    SilenceLasts(superseded, later, callback);
  }

  lemma CallbacksOfPrefix(ops: seq<Op>, later: seq<Op>)
    requires OwnCallbacks(ops + later)
    ensures OwnCallbacks(ops)
  {
    forall i, j | 0 <= i < j < |ops| && ops[i].Send? && ops[j].Send? ensures ops[i].callback != ops[j].callback {
      assert (ops + later)[i] == ops[i] && (ops + later)[j] == ops[j];
    }
  }

  /** The callback invocation that an operation makes, if any. */
  function CallMade(st: State, op: Op): Option<Call> {
    match op
    case Send(callback, mcsRejected, kernelCookie) =>
      if mcsRejected then Some(Call(callback, McsUnsupported))
      else if kernelCookie.None? then Some(Call(callback, Unknown)) else None
    case TxStatus(cookie, acked) =>
      if st.inProgress && st.cookie == cookie && st.handler.Some? then
        Some(Call(st.handler.value, if acked then Acked else NoAck))
      else None
  }

  function WithCall(calls: seq<Call>, call: Option<Call>): seq<Call> {
    if call.Some? then calls + [call.value] else calls
  }

  lemma CallsAre(st: State, op: Op)
    ensures Apply(st, op).calls == WithCall(st.calls, CallMade(st, op))
  {
  }

  lemma NotCalled(calls: seq<Call>, call: Option<Call>, callback: nat)
    requires call.Some? ==> call.value.callback != callback
    ensures CallsTo(WithCall(calls, call), callback) == CallsTo(calls, callback)
  {
    if call.Some? {
      CallAdded(calls, call.value, callback);
    }
  }

  lemma SilentApply(st: State, op: Op, callback: nat)
    requires CallsTo(st.calls, callback) == 0 && st.handler != Some(callback)
    requires op.Send? ==> op.callback != callback
    ensures CallsTo(Apply(st, op).calls, callback) == 0 && Apply(st, op).handler != Some(callback)
  {
    CallsAre(st, op);
    NotCalled(st.calls, CallMade(st, op), callback);
  }

  lemma SilentStep(ops: seq<Op>, op: Op, callback: nat)
    requires OwnCallbacks(ops + [op]) && callback in Callbacks(ops)
    requires CallsTo(Run(ops).calls, callback) == 0 && Run(ops).handler != Some(callback)
    ensures CallsTo(Run(ops + [op]).calls, callback) == 0 && Run(ops + [op]).handler != Some(callback)
  {
    assert (ops + [op])[..|ops|] == ops;
    CallbacksGrow(ops, op);
    SilentApply(Run(ops), op, callback);
  }

  lemma InCallbacks(ops: seq<Op>, later: seq<Op>, callback: nat)
    requires callback in Callbacks(ops)
    ensures callback in Callbacks(ops + later)
  {
    var i :| 0 <= i < |ops| && ops[i].Send? && ops[i].callback == callback;
    assert (ops + later)[i] == ops[i];
  }

  // ----- the machine from its history alone -----

  datatype Flying = Flying(callback: nat, cookie: int)

  /** The request in flight: the last one accepted, unless a status with its cookie has come since. */
  function Flight(ops: seq<Op>): Option<Flying>
    decreases |ops|
  {
    if ops == [] then None else
    var before, op := Flight(ops[..|ops| - 1]), ops[|ops| - 1];
    if op.Send? && !op.mcsRejected && op.kernelCookie.Some? then Some(Flying(op.callback, op.kernelCookie.value))
    else if op.TxStatus? && before.Some? && before.value.cookie == op.cookie then None
    else before
  }

  /** Rejections are reported at once, the fate of a frame when a status with its cookie comes. */
  function Reports(ops: seq<Op>): seq<Call>
    decreases |ops|
  {
    if ops == [] then [] else
    var before, op := Flight(ops[..|ops| - 1]), ops[|ops| - 1];
    Reports(ops[..|ops| - 1]) +
    if op.Send? && op.mcsRejected then [Call(op.callback, McsUnsupported)]
    else if op.Send? && op.kernelCookie.None? then [Call(op.callback, Unknown)]
    else if op.TxStatus? && before.Some? && before.value.cookie == op.cookie then
      [Call(before.value.callback, if op.acked then Acked else NoAck)]
    else []
  }

  /** On every run the state and all callback invocations are what the operations so far say. */
  lemma {:induction false} HistoryIs(ops: seq<Op>)
    ensures var st, flight := Run(ops), Flight(ops);
            && (st.inProgress <==> flight.Some?)
            && st.handler == (if flight.Some? then Some(flight.value.callback) else None)
            && st.cookie == (if flight.Some? then flight.value.cookie else 0)
            && st.calls == Reports(ops)
    decreases |ops|
  {
    if ops != [] {
      HistoryIs(ops[..|ops| - 1]);
      assert Reports(ops[..|ops| - 1]) + [] == Reports(ops[..|ops| - 1]);
    }
  }

  /** Operations that leave a request in flight with this cookie alone. */
  predicate LeavesAlone(op: Op, cookie: int) {
    if op.Send? then op.mcsRejected || op.kernelCookie.None? else op.cookie != cookie
  }

  lemma {:induction false} StaysInFlight(ops: seq<Op>, later: seq<Op>, callback: nat, cookie: int)
    requires Flight(ops) == Some(Flying(callback, cookie))
    requires forall i :: 0 <= i < |later| ==> LeavesAlone(later[i], cookie)
    ensures Flight(ops + later) == Some(Flying(callback, cookie))
    decreases |later|
  {
    if later == [] {
      assert ops + later == ops;
    } else {
      var front, op := later[..|later| - 1], later[|later| - 1];
      var all := ops + later;
      assert all[..|all| - 1] == ops + front && all[|all| - 1] == op;
      StaysInFlight(ops, front, callback, cookie);
    }
  }

  /**
   * An accepted request, whatever is rejected and whatever foreign statuses come in between, is completed by the status
   * with its cookie: its callback hears the outcome, exactly once.
   */
  lemma AcceptedCompletes(ops: seq<Op>, callback: nat, cookie: int, later: seq<Op>, acked: bool)
    requires forall i :: 0 <= i < |later| ==> LeavesAlone(later[i], cookie)
    requires var all := ops + [Send(callback, false, Some(cookie))] + later + [TxStatus(cookie, acked)];
             OwnCallbacks(all)
    ensures var all := ops + [Send(callback, false, Some(cookie))] + later + [TxStatus(cookie, acked)];
            var calls := Run(all).calls;
            && calls != [] && calls[|calls| - 1] == Call(callback, if acked then Acked else NoAck)
            && CallsTo(calls, callback) == 1 && !Run(all).inProgress
  {
    var sent := ops + [Send(callback, false, Some(cookie))];
    var front := sent + later;
    var all := front + [TxStatus(cookie, acked)];
    assert sent[..|ops|] == ops && sent[|ops|] == Send(callback, false, Some(cookie));
    StaysInFlight(sent, later, callback, cookie);
    assert all[..|front|] == front && all[|front|] == TxStatus(cookie, acked);
    HistoryIs(front);
    HistoryIs(all);
    CallsToLast(Run(all).calls, callback);
    AtMostOneOutcome(all, callback);
  }

  lemma CallsToLast(calls: seq<Call>, callback: nat)
    requires calls != [] && calls[|calls| - 1].callback == callback
    ensures CallsTo(calls, callback) >= 1
  {
  }

  // ----- the code -----

  class FrameSender {
    var inProgress: bool
    var cookie: int
    var handler: Option<nat>
    var calls: seq<Call>  // callback invocations made so far

    ghost function View(): State
      reads this
    {
      State(inProgress, cookie, handler, calls)
    }

    constructor ()
      ensures View() == IDLE
    {
      inProgress, cookie, handler, calls := false, 0, None, [];
    }

    /** The handler registered for transmit status events. */
    method OnFrameTxStatus(eventCookie: int, acked: bool)
      modifies this
      ensures View() == Apply(old(View()), TxStatus(eventCookie, acked))
    {
      if inProgress && cookie == eventCookie {
        if handler.Some? {
          calls := calls + [Call(handler.value, if acked then Acked else NoAck)];
        }
        inProgress := false;
        cookie := 0;
        handler := None;
      }
    }

    method SendMgmtFrame(callback: nat, mcs: int, supportsMcs: bool, kernelCookie: Option<int>)
      modifies this
      ensures View() == Apply(old(View()), Send(callback, mcs >= 0 && !supportsMcs, kernelCookie))
    {
      if mcs >= 0 && !supportsMcs {
        calls := calls + [Call(callback, McsUnsupported)];
        return;
      }
      if kernelCookie.None? {
        calls := calls + [Call(callback, Unknown)];
        return;
      }
      inProgress := true;
      cookie := kernelCookie.value;
      handler := Some(callback);
    }
  }
}
