/**
 Who writes to the transport in pkg/jsonrpc/jsonrpc.go: one `Serve` loop and any number of
 concurrent `Send`s of any number of notification services, as a transition system.  `mx` is the
 lock of the service, `sendL` the lock of each notification service.
 */
module JsonRpcFrames {

  /** handleMessage, here any function of the request. */
  type Handler = string -> string

  datatype Frame = Reply(response: string) | Notice(service: nat, value: string)

  datatype ServePc =
    | Reading
    | Locking(response: string)
    | Opening(response: string)             // holds mx, about to ask for a writer
    | Writing(response: string)             // holds mx, its frame is open
    | Unlocking                             // holds mx, its frame is closed
    | Stopped

  datatype SendPc = Queueing | SendLocking | SendOpening | SendWriting | SendUnlocking | Releasing | Sent
  datatype Sending = Sending(service: nat, value: string, pc: SendPc)

  datatype Owner = Nobody | Server | Sender(t: nat)

  datatype State = State(
    mx: Owner,
    sendL: map<nat, nat>,                   // the sender that holds it, if any
    open: seq<Frame>,                       // frames begun and not closed
    wire: seq<Frame>,                       // frames closed, in order
    serve: ServePc,
    sends: seq<Sending>,
    requests: seq<string>,                  // history: requests read
    acquired: seq<Frame>)                   // history: what each holder of a sendL came to send, in order

  const Init := State(Nobody, map[], [], [], Reading, [], [], [])

  datatype Step =
    | ServeRead(request: string)
    | ServeStop                             // the context is done, or reading fails
    | ServeLock
    | ServeOpen(ok: bool)
    | ServeClose
    | ServeUnlock
    | SendBegin(service: nat, value: string)
    | SendQueue(t: nat)
    | SendLock(t: nat)
    | SendOpen(t: nat, ok: bool)
    | SendClose(t: nat)
    | SendUnlock(t: nat)
    | SendRelease(t: nat)

  predicate At(st: State, t: nat, pc: SendPc) {
    t < |st.sends| && st.sends[t].pc == pc
  }

  predicate Enabled(st: State, step: Step) {
    match step
    case ServeRead(_) => st.serve.Reading?
    case ServeStop => st.serve.Reading?
    case ServeLock => st.serve.Locking? && st.mx.Nobody?
    case ServeOpen(_) => st.serve.Opening?
    case ServeClose => st.serve.Writing? && st.open != []
    case ServeUnlock => st.serve.Unlocking?
    case SendBegin(_, _) => true
    case SendQueue(t) => At(st, t, Queueing) && st.sends[t].service !in st.sendL
    case SendLock(t) => At(st, t, SendLocking) && st.mx.Nobody?
    case SendOpen(t, _) => At(st, t, SendOpening)
    case SendClose(t) => At(st, t, SendWriting) && st.open != []
    case SendUnlock(t) => At(st, t, SendUnlocking)
    case SendRelease(t) => At(st, t, Releasing)
  }

  function Goto(st: State, t: nat, pc: SendPc): State
    requires t < |st.sends|
  {
    st.(sends := st.sends[t := st.sends[t].(pc := pc)])
  }

  function NoticeOf(st: State, t: nat): Frame
    requires t < |st.sends|
  {
    Notice(st.sends[t].service, st.sends[t].value)
  }

  function Apply(handle: Handler, st: State, step: Step): State
    requires Enabled(st, step)
  {
    match step
    case ServeRead(request) => st.(requests := st.requests + [request], serve := Locking(handle(request)))
    case ServeStop => st.(serve := Stopped)
    case ServeLock => st.(mx := Server, serve := Opening(st.serve.response))
    case ServeOpen(ok) =>
      if ok then st.(open := st.open + [Reply(st.serve.response)], serve := Writing(st.serve.response))
      else st.(mx := Nobody, serve := Stopped)
    case ServeClose =>
      st.(open := st.open[..|st.open| - 1], wire := st.wire + [Reply(st.serve.response)], serve := Unlocking)
    case ServeUnlock => st.(mx := Nobody, serve := Reading)
    case SendBegin(service, value) => st.(sends := st.sends + [Sending(service, value, Queueing)])
    case SendQueue(t) =>
      Goto(st, t, SendLocking).(sendL := st.sendL[st.sends[t].service := t],
                                acquired := st.acquired + [NoticeOf(st, t)])
    case SendLock(t) => Goto(st, t, SendOpening).(mx := Sender(t))
    case SendOpen(t, ok) =>
      if ok then Goto(st, t, SendWriting).(open := st.open + [NoticeOf(st, t)])
      else Goto(st, t, SendLocking).(mx := Nobody)
    case SendClose(t) =>
      Goto(st, t, SendUnlocking).(open := st.open[..|st.open| - 1], wire := st.wire + [NoticeOf(st, t)])
    case SendUnlock(t) => Goto(st, t, Releasing).(mx := Nobody)
    case SendRelease(t) => Goto(st, t, Sent).(sendL := st.sendL - {st.sends[t].service})
  }

  ghost predicate Leads(handle: Handler, st: State, steps: seq<Step>, st': State)
    decreases |steps|
  {
    if steps == [] then st' == st
    else Enabled(st, steps[0]) && Leads(handle, Apply(handle, st, steps[0]), steps[1..], st')
  }

  // ---------- one frame at a time ----------

  predicate HoldsMx(pc: SendPc) {
    pc.SendOpening? || pc.SendWriting? || pc.SendUnlocking?
  }

  ghost predicate MxInv(st: State) {
    && (st.mx.Server? <==> st.serve.Opening? || st.serve.Writing? || st.serve.Unlocking?)
    && (forall t :: 0 <= t < |st.sends| ==> (HoldsMx(st.sends[t].pc) <==> st.mx == Sender(t)))
    && (st.mx.Sender? ==> st.mx.t < |st.sends|)
    && st.open == (if st.serve.Writing? then [Reply(st.serve.response)]
                   else if st.mx.Sender? && At(st, st.mx.t, SendWriting) then [NoticeOf(st, st.mx.t)]
                   else [])
  }

  lemma MxStep(handle: Handler, st: State, step: Step)
    requires MxInv(st) && Enabled(st, step)
    ensures MxInv(Apply(handle, st, step))
  {
  }

  // ---------- what the frames are ----------

  function Replies(frames: seq<Frame>): seq<string>
    decreases |frames|
  {
    if frames == [] then []
    else
      var last := frames[|frames| - 1];
      Replies(frames[..|frames| - 1]) + if last.Reply? then [last.response] else []
  }

  function Notices(frames: seq<Frame>, service: nat): seq<string>
    decreases |frames|
  {
    if frames == [] then []
    else
      var last := frames[|frames| - 1];
      Notices(frames[..|frames| - 1], service) + if last.Notice? && last.service == service then [last.value] else []
  }

  lemma OneMore(frames: seq<Frame>, f: Frame, service: nat)
    ensures Replies(frames + [f]) == Replies(frames) + if f.Reply? then [f.response] else []
    ensures Notices(frames + [f], service) ==
              Notices(frames, service) + if f.Notice? && f.service == service then [f.value] else []
  {
    assert (frames + [f])[..|frames|] == frames;
  }

  function Responses(handle: Handler, requests: seq<string>): (r: seq<string>)
    ensures |r| == |requests| && forall i :: 0 <= i < |r| ==> r[i] == handle(requests[i])
  {
    seq(|requests|, i requires 0 <= i < |requests| => handle(requests[i]))
  }

  /** The response that Serve still has to put on the wire. */
  function Owed(pc: ServePc): seq<string> {
    if pc.Locking? || pc.Opening? || pc.Writing? then [pc.response] else []
  }

  ghost predicate ServeInv(handle: Handler, st: State) {
    if st.serve.Stopped? then
      || Replies(st.wire) == Responses(handle, st.requests)
      || (st.requests != [] && Replies(st.wire) == Responses(handle, st.requests[..|st.requests| - 1]))
    else Replies(st.wire) + Owed(st.serve) == Responses(handle, st.requests)
  }

  predicate OfServe(step: Step) {
    step.ServeRead? || step.ServeStop? || step.ServeLock? || step.ServeOpen? || step.ServeClose? || step.ServeUnlock?
  }

  lemma ServeOwnStep(handle: Handler, st: State, step: Step)
    requires ServeInv(handle, st) && Enabled(st, step) && OfServe(step)
    ensures ServeInv(handle, Apply(handle, st, step))
  {
    match step
    case ServeRead(request) =>
      assert Responses(handle, st.requests + [request]) == Responses(handle, st.requests) + [handle(request)];
    case ServeOpen(ok) =>
      if !ok {
        var n := |st.requests| - 1;
        var all := Responses(handle, st.requests);
        assert all[..n] == Responses(handle, st.requests[..n]);
        assert Replies(st.wire) == all[..n];
      }
    case ServeClose => OneMore(st.wire, Reply(st.serve.response), 0);
    case _ =>
  }

  lemma ServeOtherStep(handle: Handler, st: State, step: Step)
    requires Enabled(st, step) && !OfServe(step)
    ensures var st' := Apply(handle, st, step);
            st'.serve == st.serve && st'.requests == st.requests && Replies(st'.wire) == Replies(st.wire)
  {
    if step.SendClose? {
      OneMore(st.wire, NoticeOf(st, step.t), 0);
    }
    hide Replies;
  }

  lemma ServeStep(handle: Handler, st: State, step: Step)
    requires ServeInv(handle, st) && Enabled(st, step)
    ensures ServeInv(handle, Apply(handle, st, step))
  {
    if OfServe(step) {
      ServeOwnStep(handle, st, step);
    } else {
      ServeOtherStep(handle, st, step);
      hide Apply, Enabled, Replies;
    }
  }

  /** It holds its sendL. */
  predicate HoldsSendL(pc: SendPc) {
    !pc.Queueing? && !pc.Sent?
  }

  /** It holds its sendL and its frame is not on the wire yet. */
  predicate Due(pc: SendPc) {
    pc.SendLocking? || pc.SendOpening? || pc.SendWriting?
  }

  function DueValue(st: State, service: nat): seq<string> {
    if service in st.sendL && st.sendL[service] < |st.sends| && Due(st.sends[st.sendL[service]].pc)
    then [st.sends[st.sendL[service]].value] else []
  }

  ghost predicate SendInv(st: State) {
    && (forall t :: 0 <= t < |st.sends| && HoldsSendL(st.sends[t].pc) ==>
          st.sends[t].service in st.sendL && st.sendL[st.sends[t].service] == t)
    && (forall n :: n in st.sendL ==>
          st.sendL[n] < |st.sends| && st.sends[st.sendL[n]].service == n && HoldsSendL(st.sends[st.sendL[n]].pc))
  }

  ghost predicate NoticeInv(st: State, service: nat) {
    Notices(st.wire, service) + DueValue(st, service) == Notices(st.acquired, service)
  }

  lemma SendStep(handle: Handler, st: State, step: Step)
    requires SendInv(st) && Enabled(st, step)
    ensures SendInv(Apply(handle, st, step))
  {
    if step.SendQueue? {
      SendQueueStep(handle, st, step.t);
    } else if step.SendRelease? {
      SendReleaseStep(handle, st, step.t);
    }
  }

  lemma SendQueueStep(handle: Handler, st: State, t: nat)
    requires SendInv(st) && Enabled(st, SendQueue(t))
    ensures SendInv(Apply(handle, st, SendQueue(t)))
  {
  }

  lemma SendReleaseStep(handle: Handler, st: State, t: nat)
    requires SendInv(st) && Enabled(st, SendRelease(t))
    ensures SendInv(Apply(handle, st, SendRelease(t)))
  {
  }

  /** The other steps neither put a notice on the wire nor change who owes one. */
  lemma DueKept(handle: Handler, st: State, step: Step, service: nat)
    requires SendInv(st) && Enabled(st, step) && !step.SendQueue? && !step.SendClose? && !step.ServeClose?
    ensures var st' := Apply(handle, st, step);
            st'.wire == st.wire && st'.acquired == st.acquired && DueValue(st', service) == DueValue(st, service)
  {
  }

  /** Closing its frame is how the holder pays what it owes. */
  lemma DueOnClose(handle: Handler, st: State, t: nat, service: nat)
    requires SendInv(st) && Enabled(st, SendClose(t))
    ensures var st' := Apply(handle, st, SendClose(t));
            st'.wire == st.wire + [NoticeOf(st, t)] && st'.acquired == st.acquired
    ensures DueValue(st, service) ==
              (if st.sends[t].service == service then [st.sends[t].value] else [])
              + DueValue(Apply(handle, st, SendClose(t)), service)
  {
  }

  lemma Regroup(a: seq<string>, b: seq<string>, c: seq<string>)
    ensures a + (b + c) == a + b + c
  {
  }

  lemma NoticeOnClose(handle: Handler, st: State, t: nat, service: nat)
    requires SendInv(st) && NoticeInv(st, service) && Enabled(st, SendClose(t))
    ensures NoticeInv(Apply(handle, st, SendClose(t)), service)
  {
    OneMore(st.wire, NoticeOf(st, t), service);
    DueOnClose(handle, st, t, service);
    hide Notices, DueValue, SendInv, Apply, Enabled;
    Regroup(Notices(st.wire, service), if st.sends[t].service == service then [st.sends[t].value] else [],
            DueValue(Apply(handle, st, SendClose(t)), service));
  }

  lemma NoticeOnQueue(handle: Handler, st: State, t: nat, service: nat)
    requires SendInv(st) && NoticeInv(st, service) && Enabled(st, SendQueue(t))
    ensures NoticeInv(Apply(handle, st, SendQueue(t)), service)
  {
    OneMore(st.acquired, NoticeOf(st, t), service);
    hide Notices;
    if st.sends[t].service == service {
      assert DueValue(st, service) == [];
    }
  }

  lemma NoticeStep(handle: Handler, st: State, step: Step, service: nat)
    requires SendInv(st) && NoticeInv(st, service) && Enabled(st, step)
    ensures NoticeInv(Apply(handle, st, step), service)
  {
    if step.SendClose? {
      NoticeOnClose(handle, st, step.t, service);
    } else if step.SendQueue? {
      NoticeOnQueue(handle, st, step.t, service);
    } else if step.ServeClose? {
      OneMore(st.wire, Reply(st.serve.response), service);
      hide Notices, SendInv;
    } else {
      DueKept(handle, st, step, service);
      hide Apply, Enabled, DueValue, SendInv, Notices;
    }
  }

  lemma {:induction false} Along(handle: Handler, st: State, steps: seq<Step>, st': State, service: nat)
    requires Leads(handle, st, steps, st')
    requires MxInv(st) && ServeInv(handle, st) && SendInv(st) && NoticeInv(st, service)
    ensures MxInv(st') && ServeInv(handle, st') && SendInv(st') && NoticeInv(st', service)
    decreases |steps|
  {
    if steps != [] {
      hide Apply, Enabled, MxInv, ServeInv, SendInv, NoticeInv;
      MxStep(handle, st, steps[0]);
      ServeStep(handle, st, steps[0]);
      SendStep(handle, st, steps[0]);
      NoticeStep(handle, st, steps[0], service);
      Along(handle, Apply(handle, st, steps[0]), steps[1..], st', service);
    }
  }

  /** The transport never has two frames open. */
  lemma OneFrameAtATime(handle: Handler, steps: seq<Step>, st: State)
    requires Leads(handle, Init, steps, st)
    ensures |st.open| <= 1
  {
    Along(handle, Init, steps, st, 0);
  }

  /** The replies on the wire are the responses to the requests read, in order, at most the last missing. */
  lemma RepliesFollowRequests(handle: Handler, steps: seq<Step>, st: State)
    requires Leads(handle, Init, steps, st)
    ensures Replies(st.wire) <= Responses(handle, st.requests) && |st.requests| <= |Replies(st.wire)| + 1
  {
    Along(handle, Init, steps, st, 0);
    if st.serve.Stopped? && Replies(st.wire) != Responses(handle, st.requests) {
      var n := |st.requests| - 1;
      assert Responses(handle, st.requests)[..n] == Responses(handle, st.requests[..n]);
    }
  }

  /** The frames of a notification service are what its Sends came with, once each, in the order they
      got sendL, whatever failed in between; only the one that holds sendL may be missing. */
  lemma NoticesFollowSends(handle: Handler, steps: seq<Step>, st: State, service: nat)
    requires Leads(handle, Init, steps, st)
    ensures Notices(st.wire, service) <= Notices(st.acquired, service)
    ensures service !in st.sendL ==> Notices(st.wire, service) == Notices(st.acquired, service)
    ensures |Notices(st.acquired, service)| <= |Notices(st.wire, service)| + 1
  {
    Along(handle, Init, steps, st, service);
  }
}
