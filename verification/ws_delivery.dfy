/** No answer is lost between the listener that takes it and the call that waits for it. */
module WsDelivery {
  import opened WsProtocol
  import opened WsPending
  import WsChannels

  /** A call that was registered and has been sent nothing is still pending on its session, or in the
      hand of that session's listener; one that was not registered has been sent its error. */
  predicate Accounted(st: State, t: nat)
    requires t < |st.calls|
  {
    var c := st.calls[t];
    if c.home == -1 then WsChannels.Private(c.pc) || c.sent != []
    else
      c.sent == [] ==>
        && 0 <= c.home < |st.sessions|
        && var x := st.sessions[c.home];
           || (c.id in x.pending && x.pending[c.id] == t)
           || (x.listener.Delivering? && x.listener.call == t)
  }

  ghost predicate NoneLost(st: State) {
    forall t :: 0 <= t < |st.calls| ==> Accounted(st, t)
  }

  lemma StepOfCalls(st: State, step: Step)
    requires NoneLost(st) && Enabled(st, step)
    requires !step.Register? && !step.Take? && !step.Deliver?
    ensures NoneLost(Apply(st, step))
  {
    var st' := Apply(st, step);
    forall t | 0 <= t < |st'.calls|
      ensures Accounted(st', t)
    {
      if t < |st.calls| {
        assert Accounted(st, t);
      }
    }
  }

  lemma StepOfRegister(st: State, t: nat)
    requires NoneLost(st) && Ledger(st) && Enabled(st, Register(t)) && DistinctIds(st, Register(t))
    ensures NoneLost(Apply(st, Register(t)))
  {
    var st' := Apply(st, Register(t));
    var s := st.calls[t].pc.session;
    assert st.sessions[s].pending.Keys == st.sessions[s].registered - st.sessions[s].taken;
    forall u | 0 <= u < |st'.calls|
      ensures Accounted(st', u)
    {
      assert Accounted(st, u);
    }
  }

  lemma StepOfTake(st: State, s: nat)
    requires NoneLost(st) && Enabled(st, Take(s))
    ensures NoneLost(Apply(st, Take(s)))
  {
    var st' := Apply(st, Take(s));
    forall u | 0 <= u < |st'.calls|
      ensures Accounted(st', u)
    {
      assert Accounted(st, u);
    }
  }

  lemma StepOfDeliver(st: State, s: nat)
    requires NoneLost(st) && Enabled(st, Deliver(s))
    ensures NoneLost(Apply(st, Deliver(s)))
  {
    var st' := Apply(st, Deliver(s));
    forall u | 0 <= u < |st'.calls|
      ensures Accounted(st', u)
    {
      assert Accounted(st, u);
    }
  }

  lemma NoneLostStep(st: State, step: Step)
    requires NoneLost(st) && Ledger(st) && Enabled(st, step) && DistinctIds(st, step)
    ensures NoneLost(Apply(st, step))
  {
    hide NoneLost, Apply, Ledger, Enabled;
    if step.Register? {
      StepOfRegister(st, step.call);
    } else if step.Take? {
      StepOfTake(st, step.session);
    } else if step.Deliver? {
      StepOfDeliver(st, step.session);
    } else {
      StepOfCalls(st, step);
    }
  }

  lemma {:induction false} NoneLostAlong(st: State, steps: seq<Step>, st': State)
    requires NoneLost(st) && Ledger(st) && Leads(DistinctIds, st, steps, st')
    ensures NoneLost(st')
    decreases |steps|
  {
    if steps != [] {
      hide NoneLost, Ledger, Apply, Enabled, DistinctIds;
      NoneLostStep(st, steps[0]);
      LedgerStep(st, steps[0]);
      NoneLostAlong(Apply(st, steps[0]), steps[1..], st');
    }
  }

  /** In every run with distinct ids: an answer that was taken out of pending, and is not in the
      listener's hand, has been sent to the call that registered its id, and that call can receive it. */
  lemma AnswersAreDelivered(steps: seq<Step>, st: State, t: nat)
    requires Leads(DistinctIds, Init, steps, st) && t < |st.calls|
    ensures Accounted(st, t)
    ensures var c := st.calls[t];
            0 <= c.home < |st.sessions| && c.id in st.sessions[c.home].taken
            && !(st.sessions[c.home].listener.Delivering? && st.sessions[c.home].listener.call == t) ==>
              && |c.sent| == 1 && c.sent[0].Reply? && c.sent[0].session == c.home
              && c.sent[0].frame.Response? && c.sent[0].frame.id == c.id
              && (c.pc.Awaiting? && !st.crashed ==> Enabled(st, Receive(t)))
  {
    NoneLostAlong(Init, steps, st);
    LedgerAlong(Init, steps, st);
    WsChannels.InvAlong(DistinctIds, Init, steps, st);
    var c := st.calls[t];
    assert WsChannels.CallOk(st, c) && Accounted(st, t);
    if 0 <= c.home < |st.sessions| {
      assert st.sessions[c.home].pending.Keys == st.sessions[c.home].registered - st.sessions[c.home].taken;
    }
  }
}
