/** Every reply channel gets at most one message, and the right one, in every interleaving. */
module WsChannels {
  import opened WsProtocol

  /** Before the channel is returned or registered only its own `Call` knows it. */
  predicate Private(pc: CallPc) {
    pc.Looking? || pc.Writing? || pc.Registering? || pc.Closing? || pc.Unlisting? || pc.Refusing?
  }

  /** What may be sent to the channel of c: its own error, or a frame with its id read from a connection
      with its name. */
  predicate Addressed(st: State, c: Call, m: Msg) {
    match m
    case CoreMade(_, id) => id == c.id && c.home == -1
    case Reply(f, s) =>
      && s < |st.sessions| && s == c.home
      && st.sessions[s].name == c.name
      && f.Response? && f.id == c.id && f in st.sessions[s].read
  }

  predicate OnSession(st: State, c: Call, s: int) {
    0 <= s < |st.sessions| && st.sessions[s].name == c.name
  }

  predicate CallOk(st: State, c: Call) {
    && (Private(c.pc) ==> c.sent == [] && c.home == -1)
    && |c.sent| <= 1 && (c.buffer == [] || c.buffer == c.sent)
    && (c.pc.Answered? ==> c.sent == [c.pc.msg] && c.buffer == [])
    && (c.pc.Awaiting? ==> c.buffer == c.sent)
    && (c.sent != [] ==> Addressed(st, c, c.sent[0]))
    && (c.home != -1 ==> OnSession(st, c, c.home))
    && (c.pc.Writing? || c.pc.Registering? || c.pc.Closing? || c.pc.Unlisting? ==> OnSession(st, c, c.pc.session))
  }

  /** The call t is waiting for the answer id on session s. */
  predicate Waits(st: State, s: nat, id: Id, t: nat) {
    && t < |st.calls| && OnSession(st, st.calls[t], s)
    && !Private(st.calls[t].pc) && st.calls[t].home == s && st.calls[t].id == id && st.calls[t].sent == []
  }

  predicate SessionOk(st: State, s: nat)
    requires s < |st.sessions|
  {
    var x := st.sessions[s];
    && (forall id :: id in x.pending ==> Waits(st, s, id, x.pending[id]))
    && (x.listener.Taking? ==> x.listener.frame.Response? && x.listener.frame in x.read)
    && (x.listener.Delivering? ==>
         && x.listener.frame.Response? && x.listener.frame in x.read
         && Waits(st, s, x.listener.frame.id, x.listener.call)
         && (x.listener.frame.id in x.pending ==> x.pending[x.listener.frame.id] != x.listener.call))
  }

  ghost predicate Inv(st: State) {
    && (forall k :: k in st.conns ==> st.conns[k] < |st.sessions| && st.sessions[st.conns[k]].name == k)
    && (forall t :: 0 <= t < |st.calls| ==> CallOk(st, st.calls[t]))
    && (forall s :: 0 <= s < |st.sessions| ==> SessionOk(st, s))
  }

  /** No session is going to send to the channel of t. */
  ghost predicate Unheard(st: State, t: nat) {
    forall s :: 0 <= s < |st.sessions| ==>
      && (forall id :: id in st.sessions[s].pending ==> st.sessions[s].pending[id] != t)
      && (st.sessions[s].listener.Delivering? ==> st.sessions[s].listener.call != t)
  }

  lemma SetCallInv(st: State, t: nat, c: Call)
    requires Inv(st) && t < |st.calls| && c.name == st.calls[t].name && c.id == st.calls[t].id
    requires CallOk(st, c)
    requires Unheard(st, t) || (!Private(c.pc) && c.home == st.calls[t].home && c.sent == st.calls[t].sent)
    ensures Inv(SetCall(st, t, c))
  {
    var st' := SetCall(st, t, c);
    forall i | 0 <= i < |st'.calls| ensures CallOk(st', st'.calls[i]) {
      assert i != t ==> CallOk(st, st.calls[i]);
    }
    forall s | 0 <= s < |st'.sessions| ensures SessionOk(st', s) {
      assert SessionOk(st, s);
      assert forall id, u :: Waits(st, s, id, u) && u != t ==> Waits(st', s, id, u);
      if !Unheard(st, t) {
        assert forall id :: Waits(st, s, id, t) ==> Waits(st', s, id, t);
      }
    }
  }

  lemma PrivateUnheard(st: State, t: nat)
    requires Inv(st) && t < |st.calls| && Private(st.calls[t].pc)
    ensures Unheard(st, t)
  {
    forall s | 0 <= s < |st.sessions|
      ensures (forall id :: id in st.sessions[s].pending ==> st.sessions[s].pending[id] != t)
      ensures st.sessions[s].listener.Delivering? ==> st.sessions[s].listener.call != t
    {
      assert SessionOk(st, s);
    }
  }

  lemma SetSessionInv(st: State, s: nat, x: Session)
    requires Inv(st) && s < |st.sessions| && x.name == st.sessions[s].name
    requires forall f :: f in st.sessions[s].read ==> f in x.read
    requires SessionOk(SetSession(st, s, x), s)
    ensures Inv(SetSession(st, s, x))
  {
    var st' := SetSession(st, s, x);
    forall i | 0 <= i < |st'.calls| ensures CallOk(st', st'.calls[i]) {
      assert CallOk(st, st.calls[i]);
    }
    forall r | 0 <= r < |st'.sessions| ensures SessionOk(st', r) {
      assert SessionOk(st, r);
      assert forall id, u :: Waits(st, r, id, u) ==> Waits(st', r, id, u);
    }
  }

  lemma StepOfCall(st: State, step: Step, t: nat)
    requires Inv(st) && Enabled(st, step)
    requires step in {Lookup(t), Write(t, true), Write(t, false), Refuse(t), Receive(t), Timeout(t)}
    ensures Inv(Apply(st, step))
  {
    var c := st.calls[t];
    assert CallOk(st, c);
    if Private(c.pc) {
      PrivateUnheard(st, t);
    }
    SetCallInv(st, t, Apply(st, step).calls[t]);
  }

  lemma StepOfClosing(st: State, step: Step, t: nat)
    requires Inv(st) && Enabled(st, step) && step in {CallClose(t), CallUnlist(t)}
    ensures Inv(Apply(st, step))
  {
    var c := st.calls[t];
    var s := c.pc.session;
    assert CallOk(st, c);
    PrivateUnheard(st, t);
    var c' := Apply(st, step).calls[t];
    SetCallInv(st, t, c');
    var st' := SetCall(st, t, c');
    if step.CallClose? {
      assert SessionOk(st', s);
      var x := st'.sessions[s].(open := false);
      assert forall id, u :: Waits(st', s, id, u) ==> Waits(SetSession(st', s, x), s, id, u);
      SetSessionInv(st', s, x);
    } else {
      UnlistInv(st', st.sessions[s].name);
    }
  }

  lemma UnlistInv(st: State, name: Name)
    requires Inv(st)
    ensures Inv(st.(conns := st.conns - {name}))
  {
    var st' := st.(conns := st.conns - {name});
    forall i | 0 <= i < |st'.calls| ensures CallOk(st', st'.calls[i]) {
      assert CallOk(st, st.calls[i]);
    }
    forall r | 0 <= r < |st'.sessions| ensures SessionOk(st', r) {
      assert SessionOk(st, r);
      assert forall id, u :: Waits(st, r, id, u) ==> Waits(st', r, id, u);
    }
  }

  lemma StepOfRegister(st: State, t: nat)
    requires Inv(st) && Enabled(st, Register(t))
    ensures Inv(Apply(st, Register(t)))
  {
    var c := st.calls[t];
    var s := c.pc.session;
    assert CallOk(st, c);
    PrivateUnheard(st, t);
    var st' := SetCall(st, t, c.(pc := Awaiting, home := s));
    SetCallInv(st, t, st'.calls[t]);
    var x := st.sessions[s];
    var x' := x.(pending := x.pending[c.id := t], registered := x.registered + {c.id});
    var st'' := SetSession(st', s, x');
    assert SessionOk(st', s);
    assert forall id, u :: Waits(st', s, id, u) ==> Waits(st'', s, id, u);
    assert Waits(st'', s, c.id, t);
    SetSessionInv(st', s, x');
    assert Apply(st, Register(t)) == st'';
  }

  lemma StepOfListener(st: State, step: Step, s: nat)
    requires Inv(st) && Enabled(st, step)
    requires step in {ReadFail(s), Take(s), ListenClose(s)} || (step.ReadFrame? && step.session == s)
    ensures Inv(Apply(st, step))
  {
    var st' := Apply(st, step);
    var x := st'.sessions[s];
    assert SessionOk(st, s);
    var st1 := SetSession(st, s, x);
    assert forall id, u :: Waits(st, s, id, u) ==> Waits(st1, s, id, u);
    SetSessionInv(st, s, x);
    if st'.crashed {
      ElsewhereInv(st1, st');
    }
  }

  /** Inv does not look at the connector's requests or at the panic. */
  lemma ElsewhereInv(st: State, st': State)
    requires Inv(st) && st' == st.(requests := st'.requests, crashed := st'.crashed)
    ensures Inv(st')
  {
    forall i | 0 <= i < |st'.calls| ensures CallOk(st', st'.calls[i]) {
      assert CallOk(st, st.calls[i]);
    }
    forall r | 0 <= r < |st'.sessions| ensures SessionOk(st', r) {
      assert SessionOk(st, r);
      assert forall id, u :: Waits(st, r, id, u) ==> Waits(st', r, id, u);
    }
  }

  lemma StepOfListenerElsewhere(st: State, step: Step, s: nat)
    requires Inv(st) && Enabled(st, step) && step in {Forward(s), ListenUnlist(s)}
    ensures Inv(Apply(st, step))
  {
    var st' := Apply(st, step);
    var x := st'.sessions[s];
    assert SessionOk(st, s);
    var st1 := SetSession(st, s, x);
    assert forall id, u :: Waits(st, s, id, u) ==> Waits(st1, s, id, u);
    SetSessionInv(st, s, x);
    hide Inv;
    if step.ListenUnlist? {
      UnlistInv(st1, st.sessions[s].name);
    } else {
      ElsewhereInv(st1, st');
    }
  }

  lemma StepOfDeliver(st: State, s: nat)
    requires Inv(st) && Enabled(st, Deliver(s))
    ensures Inv(Apply(st, Deliver(s)))
  {
    var pc := st.sessions[s].listener;
    var t := pc.call;
    assert SessionOk(st, s);
    var c := st.calls[t];
    assert CallOk(st, c);
    var st' := SetListener(st, s, Reading);
    assert forall id, u :: Waits(st, s, id, u) ==> Waits(st', s, id, u);
    SetSessionInv(st, s, st'.sessions[s]);
    forall r | 0 <= r < |st'.sessions|
      ensures (forall id :: id in st'.sessions[r].pending ==> st'.sessions[r].pending[id] != t)
      ensures st'.sessions[r].listener.Delivering? ==> st'.sessions[r].listener.call != t
    {
      assert SessionOk(st, r);
    }
    assert Unheard(st', t);
    SetCallInv(st', t, Send(c, Reply(pc.frame, s)));
  }

  lemma StepOfArrival(st: State, step: Step)
    requires Inv(st) && Enabled(st, step)
    requires step.Begin? || step.Connect? || step.Check? || step.Upgrade? || step.Insert?
    ensures Inv(Apply(st, step))
  {
    var st' := Apply(st, step);
    forall i | 0 <= i < |st'.calls| ensures CallOk(st', st'.calls[i]) {
      if i < |st.calls| {
        assert CallOk(st, st.calls[i]);
      }
    }
    forall r | 0 <= r < |st'.sessions| ensures SessionOk(st', r) {
      if r < |st.sessions| {
        assert SessionOk(st, r);
        assert forall id, u :: Waits(st, r, id, u) ==> Waits(st', r, id, u);
      }
    }
  }

  lemma InvStep(st: State, step: Step)
    requires Inv(st) && Enabled(st, step)
    ensures Inv(Apply(st, step))
  {
    hide Inv, Apply;
    match step
    case Lookup(t) => StepOfCall(st, step, t);
    case Write(t, _) => StepOfCall(st, step, t);
    case Refuse(t) => StepOfCall(st, step, t);
    case Receive(t) => StepOfCall(st, step, t);
    case Timeout(t) => StepOfCall(st, step, t);
    case Register(t) => StepOfRegister(st, t);
    case CallClose(t) => StepOfClosing(st, step, t);
    case CallUnlist(t) => StepOfClosing(st, step, t);
    case ReadFrame(s, _) => StepOfListener(st, step, s);
    case ReadFail(s) => StepOfListener(st, step, s);
    case Forward(s) => StepOfListenerElsewhere(st, step, s);
    case Take(s) => StepOfListener(st, step, s);
    case ListenClose(s) => StepOfListener(st, step, s);
    case ListenUnlist(s) => StepOfListenerElsewhere(st, step, s);
    case Deliver(s) => StepOfDeliver(st, s);
    case _ => StepOfArrival(st, step);
  }

  lemma {:induction false} InvAlong(rule: Rule, st: State, steps: seq<Step>, st': State)
    requires Inv(st) && Leads(rule, st, steps, st')
    ensures Inv(st')
    decreases |steps|
  {
    if steps != [] {
      InvStep(st, steps[0]);
      InvAlong(rule, Apply(st, steps[0]), steps[1..], st');
    }
  }

  /** In every run, whatever the peers, the timers and the scheduler do: a reply channel has been sent
      at most one message, addressed to its call; and no thread that is about to send to a channel
      finds it full, so no send blocks, timed out or not. */
  lemma ChannelsCarryOneMessage(rule: Rule, steps: seq<Step>, st: State)
    requires Leads(rule, Init, steps, st)
    ensures forall t :: 0 <= t < |st.calls| ==>
              var c := st.calls[t];
              && |c.sent| <= 1
              && (c.sent != [] ==> Addressed(st, c, c.sent[0]))
              && (c.pc.Answered? ==> c.sent == [c.pc.msg])
    ensures forall t :: 0 <= t < |st.calls| && st.calls[t].pc.Refusing? && !st.crashed ==> Enabled(st, Refuse(t))
    ensures forall s :: 0 <= s < |st.sessions| && st.sessions[s].listener.Delivering? && !st.crashed ==>
              Enabled(st, Deliver(s))
  {
    InvAlong(rule, Init, steps, st);
    assert forall t :: 0 <= t < |st.calls| ==> CallOk(st, st.calls[t]);
    forall s | 0 <= s < |st.sessions| && st.sessions[s].listener.Delivering? && !st.crashed
      ensures Enabled(st, Deliver(s))
    {
      assert SessionOk(st, s);
      assert CallOk(st, st.calls[st.sessions[s].listener.call]);
    }
  }

  predicate Over(pc: CallPc) {
    pc.Answered? || pc.TimedOut?
  }

  /** c2 is c1 later on: same call, its messages kept, and its outcome if it had one. */
  predicate Later(c1: Call, c2: Call) {
    && c1.name == c2.name && c1.id == c2.id && c1.sent <= c2.sent
    && (Over(c1.pc) ==> c2.pc == c1.pc)
  }

  lemma StepIsLater(st: State, step: Step, t: nat)
    requires Enabled(st, step) && t < |st.calls|
    ensures t < |Apply(st, step).calls| && Later(st.calls[t], Apply(st, step).calls[t])
  {
  }

  /** What was sent stays sent, and a call that timed out stays so: a late answer waits in its buffer for nobody. */
  lemma {:induction false} OutcomesAreFinal(rule: Rule, st: State, steps: seq<Step>, st': State, t: nat)
    requires Leads(rule, st, steps, st') && t < |st.calls|
    ensures t < |st'.calls| && Later(st.calls[t], st'.calls[t])
    decreases |steps|
  {
    if steps != [] {
      hide Apply, Enabled;
      StepIsLater(st, steps[0], t);
      OutcomesAreFinal(rule, Apply(st, steps[0]), steps[1..], st', t);
    }
  }
}
