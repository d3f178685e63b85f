/**
 The request/response protocol of internal/pkg/core/ws/ws.go together with the waiting half of
 `Service.Call` in internal/app/core/rpc/interceptor.go, as a transition system: callers, one
 listener per connection and connect handlers interleave, one step per critical section.

 A session is one websocket connection, numbered in the order of insertion into `conns`; a call is
 one run of `Call`, numbered in the order of arrival, and owns the reply channel of capacity one.
 Fields marked "history" are not in the program; they only remember what happened.
 */
module WsProtocol {

  type Name = string
  type Id = string

  datatype CoreError = NotFound | NotAvailable

  /** What `listen` can tell apart in what it reads. */
  datatype Frame =
    | Binary                                // not a text message
    | Request(body: string)                 // has a "method"
    | NoId                                  // neither "method" nor "id"
    | Response(id: Id, body: string)

  datatype Msg = CoreMade(error: CoreError, id: Id) | Reply(frame: Frame, session: nat)

  datatype CallPc =
    | Looking                               // about to look the name up
    | Writing(session: nat)                 // about to write the frame
    | Registering(session: nat)             // about to set conn.req[id]
    | Closing(session: nat)                 // closeConnOnErr: about to close the transport
    | Unlisting(session: nat)               // closeConnOnErr: about to delete from conns
    | Refusing(error: CoreError)            // about to send a core-made error
    | Awaiting                              // the channel is returned, the timer runs
    | Answered(msg: Msg)
    | TimedOut

  datatype Call = Call(
    name: Name, id: Id, pc: CallPc,
    buffer: seq<Msg>,                       // the reply channel
    home: int,                              // history: session it was registered with, or -1
    sent: seq<Msg>)                         // history: everything ever sent to the channel

  datatype ListenPc =
    | Reading
    | Forwarding(frame: Frame)              // about to send a request to requestsCh
    | Taking(frame: Frame)                  // about to take conn.req[id]
    | Delivering(frame: Frame, call: nat)   // about to send to the channel it took
    | ListenerClosing
    | ListenerUnlisting
    | Gone

  datatype Session = Session(
    name: Name, open: bool,
    pending: map<Id, nat>,                  // conn.req, shared by every copy of the conn value
    listener: ListenPc,
    registered: set<Id>,                    // history: ids ever put into pending
    taken: set<Id>,                         // history: ids ever taken out of it
    read: seq<Frame>)                       // history: frames read from it

  datatype HandlerPc = Checking | Upgrading | Inserting | Finished
  datatype Handler = Handler(name: Name, pc: HandlerPc)

  datatype State = State(
    conns: map<Name, nat>,
    sessions: seq<Session>,
    calls: seq<Call>,
    handlers: seq<Handler>,
    requests: seq<Frame>,
    crashed: bool)                          // the "resp chan not found" panic ends the process

  const Init := State(map[], [], [], [], [], false)

  datatype Step =
    | Begin(name: Name, id: Id)
    | Lookup(call: nat)
    | Write(call: nat, ok: bool)
    | Register(call: nat)
    | CallClose(call: nat)
    | CallUnlist(call: nat)
    | Refuse(call: nat)
    | Receive(call: nat)
    | Timeout(call: nat)
    | Connect(name: Name)
    | Check(handler: nat)
    | Upgrade(handler: nat, ok: bool)
    | Insert(handler: nat)
    | ReadFrame(session: nat, frame: Frame)
    | ReadFail(session: nat)
    | Forward(session: nat)
    | Take(session: nat)
    | Deliver(session: nat)
    | ListenClose(session: nat)
    | ListenUnlist(session: nat)

  function SetCall(st: State, t: nat, c: Call): State
    requires t < |st.calls|
  {
    st.(calls := st.calls[t := c])
  }

  function SetPc(st: State, t: nat, pc: CallPc): State
    requires t < |st.calls|
  {
    SetCall(st, t, st.calls[t].(pc := pc))
  }

  function SetSession(st: State, s: nat, x: Session): State
    requires s < |st.sessions|
  {
    st.(sessions := st.sessions[s := x])
  }

  function SetListener(st: State, s: nat, pc: ListenPc): State
    requires s < |st.sessions|
  {
    SetSession(st, s, st.sessions[s].(listener := pc))
  }

  function SetHandler(st: State, h: nat, pc: HandlerPc): State
    requires h < |st.handlers|
  {
    st.(handlers := st.handlers[h := st.handlers[h].(pc := pc)])
  }

  /** ch <- msg */
  function Send(c: Call, msg: Msg): Call {
    c.(buffer := c.buffer + [msg], sent := c.sent + [msg])
  }

  /** A step can run: its thread is there, and a send finds room in the channel. */
  predicate Enabled(st: State, step: Step) {
    !st.crashed &&
    match step
    case Begin(_, _) => true
    case Connect(_) => true
    case Lookup(t) => t < |st.calls| && st.calls[t].pc.Looking?
    case Write(t, _) => t < |st.calls| && st.calls[t].pc.Writing? && st.calls[t].pc.session < |st.sessions|
    case Register(t) => t < |st.calls| && st.calls[t].pc.Registering? && st.calls[t].pc.session < |st.sessions|
    case CallClose(t) => t < |st.calls| && st.calls[t].pc.Closing? && st.calls[t].pc.session < |st.sessions|
    case CallUnlist(t) => t < |st.calls| && st.calls[t].pc.Unlisting? && st.calls[t].pc.session < |st.sessions|
    case Refuse(t) => t < |st.calls| && st.calls[t].pc.Refusing? && st.calls[t].buffer == []
    case Receive(t) => t < |st.calls| && st.calls[t].pc.Awaiting? && st.calls[t].buffer != []
    case Timeout(t) => t < |st.calls| && st.calls[t].pc.Awaiting?
    case Check(h) => h < |st.handlers| && st.handlers[h].pc.Checking?
    case Upgrade(h, _) => h < |st.handlers| && st.handlers[h].pc.Upgrading?
    case Insert(h) => h < |st.handlers| && st.handlers[h].pc.Inserting?
    case ReadFrame(s, _) => s < |st.sessions| && st.sessions[s].listener.Reading?
    case ReadFail(s) => s < |st.sessions| && st.sessions[s].listener.Reading?
    case Forward(s) => s < |st.sessions| && st.sessions[s].listener.Forwarding?
    case Take(s) => s < |st.sessions| && st.sessions[s].listener.Taking? && st.sessions[s].listener.frame.Response?
    case Deliver(s) =>
      && s < |st.sessions| && st.sessions[s].listener.Delivering?
      && st.sessions[s].listener.call < |st.calls|
      && st.calls[st.sessions[s].listener.call].buffer == []
    case ListenClose(s) => s < |st.sessions| && st.sessions[s].listener.ListenerClosing?
    case ListenUnlist(s) => s < |st.sessions| && st.sessions[s].listener.ListenerUnlisting?
  }

  function Apply(st: State, step: Step): State
    requires Enabled(st, step)
  {
    match step
    case Begin(name, id) =>
      st.(calls := st.calls + [Call(name, id, Looking, [], -1, [])])
    case Lookup(t) =>
      var name := st.calls[t].name;
      SetPc(st, t, if name in st.conns then Writing(st.conns[name]) else Refusing(NotFound))
    case Write(t, ok) =>
      var s := st.calls[t].pc.session;
      SetPc(st, t, if ok then Registering(s) else Closing(s))
    case Register(t) =>
      var c := st.calls[t];
      var s := c.pc.session;
      var x := st.sessions[s];
      var st' := SetSession(st, s, x.(pending := x.pending[c.id := t], registered := x.registered + {c.id}));
      SetCall(st', t, c.(pc := Awaiting, home := s))
    case CallClose(t) =>
      var s := st.calls[t].pc.session;
      SetPc(SetSession(st, s, st.sessions[s].(open := false)), t, Unlisting(s))
    case CallUnlist(t) =>
      var s := st.calls[t].pc.session;
      SetPc(st.(conns := st.conns - {st.sessions[s].name}), t, Refusing(NotAvailable))
    case Refuse(t) =>
      var c := st.calls[t];
      SetCall(st, t, Send(c, CoreMade(c.pc.error, c.id)).(pc := Awaiting))
    case Receive(t) =>
      var c := st.calls[t];
      SetCall(st, t, c.(pc := Answered(c.buffer[0]), buffer := c.buffer[1..]))
    case Timeout(t) =>
      SetPc(st, t, TimedOut)
    case Connect(name) =>
      st.(handlers := st.handlers + [Handler(name, Checking)])
    case Check(h) =>
      SetHandler(st, h, if st.handlers[h].name in st.conns then Finished else Upgrading)
    case Upgrade(h, ok) =>
      SetHandler(st, h, if ok then Inserting else Finished)
    case Insert(h) =>
      var name := st.handlers[h].name;
      var st' := st.(sessions := st.sessions + [Session(name, true, map[], Reading, {}, {}, [])],
                     conns := st.conns[name := |st.sessions|]);
      SetHandler(st', h, Finished)
    case ReadFrame(s, f) =>
      var x := st.sessions[s];
      var pc := match f
        case Request(_) => Forwarding(f)
        case Response(_, _) => Taking(f)
        case _ => Reading;
      SetSession(st, s, x.(listener := pc, read := x.read + [f]))
    case ReadFail(s) =>
      SetListener(st, s, ListenerClosing)
    case Forward(s) =>
      SetListener(st.(requests := st.requests + [st.sessions[s].listener.frame]), s, Reading)
    case Take(s) =>
      var x := st.sessions[s];
      var id := x.listener.frame.id;
      if id in x.pending then
        SetSession(st, s, x.(pending := x.pending - {id}, taken := x.taken + {id},
                             listener := Delivering(x.listener.frame, x.pending[id])))
      else
        st.(crashed := true)
    case Deliver(s) =>
      var pc := st.sessions[s].listener;
      SetListener(SetCall(st, pc.call, Send(st.calls[pc.call], Reply(pc.frame, s))), s, Reading)
    case ListenClose(s) =>
      SetSession(st, s, st.sessions[s].(open := false, listener := ListenerUnlisting))
    case ListenUnlist(s) =>
      SetListener(st.(conns := st.conns - {st.sessions[s].name}), s, Gone)
  }

  /** A restriction on which steps a run may take, such as a promise of the peer. */
  type Rule = (State, Step) -> bool

  /** From st the steps, all of them enabled and within the rule, lead to st'. */
  ghost predicate Leads(rule: Rule, st: State, steps: seq<Step>, st': State)
    decreases |steps|
  {
    if steps == [] then st' == st
    else Enabled(st, steps[0]) && rule(st, steps[0]) && Leads(rule, Apply(st, steps[0]), steps[1..], st')
  }

  predicate AnyStep(st: State, step: Step) {
    true
  }

  lemma {:induction false} OneStepMore(rule: Rule, st: State, steps: seq<Step>, st': State, step: Step)
    requires Leads(rule, st, steps, st') && Enabled(st', step) && rule(st', step)
    ensures Leads(rule, st, steps + [step], Apply(st', step))
    decreases |steps|
  {
    if steps == [] {
      assert [step][1..] == [];
      assert Leads(rule, Apply(st', step), [], Apply(st', step));
      assert steps + [step] == [step];
    } else {
      hide Apply, Enabled;
      OneStepMore(rule, Apply(st, steps[0]), steps[1..], st', step);
      assert (steps + [step])[1..] == steps[1..] + [step];
    }
  }

  lemma NoSteps(rule: Rule, st: State)
    ensures Leads(rule, st, [], st)
  {
  }

  /** A run under construction. */
  lemma Then(rule: Rule, from: State, steps: seq<Step>, st: State, step: Step) returns (steps': seq<Step>, st': State)
    requires Leads(rule, from, steps, st) && Enabled(st, step) && rule(st, step)
    ensures steps' == steps + [step] && st' == Apply(st, step) && Leads(rule, from, steps', st')
  {
    OneStepMore(rule, from, steps, st, step);
    steps', st' := steps + [step], Apply(st, step);
  }

  lemma {:induction false} Unruled(rule: Rule, st: State, steps: seq<Step>, st': State)
    requires Leads(rule, st, steps, st')
    ensures Leads(AnyStep, st, steps, st')
    decreases |steps|
  {
    if steps != [] {
      Unruled(rule, Apply(st, steps[0]), steps[1..], st');
    }
  }
}
