/** When an answer finds its channel: the "resp chan not found" panic of `listen`. */
module WsPending {
  import opened WsProtocol

  // ---------- exactly when the panic happens ----------

  /** No id is registered twice on one connection. */
  predicate DistinctIds(st: State, step: Step) {
    step.Register? && Enabled(st, step) ==>
      st.calls[step.call].id !in st.sessions[st.calls[step.call].pc.session].registered
  }

  ghost predicate Ledger(st: State) {
    forall s :: 0 <= s < |st.sessions| ==>
      var x := st.sessions[s];
      && x.pending.Keys == x.registered - x.taken
      && x.taken <= x.registered
  }

  lemma LedgerStep(st: State, step: Step)
    requires Ledger(st) && Enabled(st, step) && DistinctIds(st, step)
    ensures Ledger(Apply(st, step))
  {
    var st' := Apply(st, step);
    forall s | 0 <= s < |st'.sessions|
      ensures st'.sessions[s].pending.Keys == st'.sessions[s].registered - st'.sessions[s].taken
      ensures st'.sessions[s].taken <= st'.sessions[s].registered
    {
      if s < |st.sessions| {
        assert st.sessions[s].pending.Keys == st.sessions[s].registered - st.sessions[s].taken;
      }
    }
  }

  lemma {:induction false} LedgerAlong(st: State, steps: seq<Step>, st': State)
    requires Ledger(st) && Leads(DistinctIds, st, steps, st')
    ensures Ledger(st')
    decreases |steps|
  {
    if steps != [] {
      hide Ledger, Apply, Enabled, DistinctIds;
      LedgerStep(st, steps[0]);
      LedgerAlong(Apply(st, steps[0]), steps[1..], st');
    }
  }

  /** In runs with distinct ids, closed connections included: pending is what was registered and not
      yet taken, and an answer about to be looked up panics exactly when its id has not been registered
      yet or was answered before. */
  lemma PanicsIff(steps: seq<Step>, st: State, s: nat)
    requires Leads(DistinctIds, Init, steps, st) && s < |st.sessions|
    ensures st.sessions[s].pending.Keys == st.sessions[s].registered - st.sessions[s].taken
    ensures Enabled(st, Take(s)) ==>
              var id := st.sessions[s].listener.frame.id;
              Apply(st, Take(s)).crashed <==> id !in st.sessions[s].registered || id in st.sessions[s].taken
  {
    LedgerAlong(Init, steps, st);
  }

  // ---------- a peer that makes it unreachable ----------

  /** The ids of the answers among the frames read. */
  function AnswerIds(read: seq<Frame>): set<Id> {
    set f | f in read && f.Response? :: f.id
  }

  /** The peer answers a request only once, and only after its Call has registered it. */
  predicate PatientPeer(st: State, step: Step) {
    && DistinctIds(st, step)
    && (step.ReadFrame? && step.frame.Response? && step.session < |st.sessions| ==>
         var x := st.sessions[step.session];
         step.frame.id in x.registered && step.frame.id !in AnswerIds(x.read))
  }

  /** The answer the listener holds and has not looked up. */
  function InHand(pc: ListenPc): set<Id> {
    if pc.Taking? && pc.frame.Response? then {pc.frame.id} else {}
  }

  predicate Settled(x: Session) {
    && x.taken == AnswerIds(x.read) - InHand(x.listener)
    && InHand(x.listener) <= AnswerIds(x.read) <= x.registered
    && x.pending.Keys == x.registered - x.taken
  }

  ghost predicate Healthy(st: State) {
    !st.crashed && forall s :: 0 <= s < |st.sessions| ==> Settled(st.sessions[s])
  }

  lemma ReadMore(read: seq<Frame>, f: Frame)
    ensures AnswerIds(read + [f]) == AnswerIds(read) + if f.Response? then {f.id} else {}
  {
    forall id | id in AnswerIds(read + [f])
      ensures id in AnswerIds(read) + if f.Response? then {f.id} else {}
    {
      var g :| g in read + [f] && g.Response? && g.id == id;
      assert g in read || g == f;
    }
    assert forall g :: g in read ==> g in read + [f];
    assert f in read + [f];
  }

  lemma HealthyStep(st: State, step: Step)
    requires Healthy(st) && Enabled(st, step) && PatientPeer(st, step)
    ensures Healthy(Apply(st, step))
  {
    if step.ReadFrame? {
      ReadMore(st.sessions[step.session].read, step.frame);
    }
    var st' := Apply(st, step);
    if step.Take? {
      assert Settled(st.sessions[step.session]);
    }
    forall s | 0 <= s < |st'.sessions|
      ensures Settled(st'.sessions[s])
    {
      if s < |st.sessions| {
        assert Settled(st.sessions[s]);
      }
    }
  }

  lemma {:induction false} HealthyAlong(st: State, steps: seq<Step>, st': State)
    requires Healthy(st) && Leads(PatientPeer, st, steps, st')
    ensures Healthy(st')
    decreases |steps|
  {
    if steps != [] {
      hide Healthy, Apply, Enabled, PatientPeer;
      HealthyStep(st, steps[0]);
      HealthyAlong(Apply(st, steps[0]), steps[1..], st');
    }
  }

  /** With such a peer no run panics, and on every connection, closed or not, whose listener holds no
      answer, the pending entries are the registered ids less the answered ones. */
  lemma PatientPeerIsSafe(steps: seq<Step>, st: State)
    requires Leads(PatientPeer, Init, steps, st)
    ensures !st.crashed
    ensures forall s :: 0 <= s < |st.sessions| && !st.sessions[s].listener.Taking? ==>
              st.sessions[s].pending.Keys == st.sessions[s].registered - AnswerIds(st.sessions[s].read)
  {
    HealthyAlong(Init, steps, st);
    assert forall s :: 0 <= s < |st.sessions| ==> Settled(st.sessions[s]);
  }

  // ---------- why the peer has to wait ----------

  const Answer := Response("1", "")

  /** Writing before registering is a race: a prompt answer to the only request ends the process. */
  lemma PromptAnswerPanics() returns (steps: seq<Step>, st: State)
    ensures Leads(DistinctIds, Init, steps, st) && st.crashed
    ensures steps == [Connect("m"), Check(0), Upgrade(0, true), Insert(0),
                      Begin("m", "1"), Lookup(0), Write(0, true), ReadFrame(0, Answer), Take(0)]
  {
    steps, st := Written();
    hide Leads;
    steps, st := Then(DistinctIds, Init, steps, st, ReadFrame(0, Answer));
    assert st.sessions[0].listener == Taking(Answer) && st.sessions[0].pending == map[];
    steps, st := Then(DistinctIds, Init, steps, st, Take(0));
  }

  lemma Written() returns (steps: seq<Step>, st: State)
    ensures steps == [Connect("m"), Check(0), Upgrade(0, true), Insert(0), Begin("m", "1"), Lookup(0), Write(0, true)]
    ensures Leads(DistinctIds, Init, steps, st)
    ensures st == State(map["m" := 0], [Session("m", true, map[], Reading, {}, {}, [])],
                        [Call("m", "1", Registering(0), [], -1, [])], [Handler("m", Finished)], [], false)
  {
    steps, st := Connected();
    hide Leads;
    steps, st := Then(DistinctIds, Init, steps, st, Begin("m", "1"));
    assert st.calls == [Call("m", "1", Looking, [], -1, [])];
    steps, st := Then(DistinctIds, Init, steps, st, Lookup(0));
    assert st.calls == [Call("m", "1", Writing(0), [], -1, [])];
    steps, st := Then(DistinctIds, Init, steps, st, Write(0, true));
  }

  lemma Connected() returns (steps: seq<Step>, st: State)
    ensures steps == [Connect("m"), Check(0), Upgrade(0, true), Insert(0)]
    ensures Leads(DistinctIds, Init, steps, st)
    ensures st == State(map["m" := 0], [Session("m", true, map[], Reading, {}, {}, [])], [],
                        [Handler("m", Finished)], [], false)
  {
    steps, st := Checked();
    hide Leads;
    steps, st := Then(DistinctIds, Init, steps, st, Upgrade(0, true));
    assert st == Init.(handlers := [Handler("m", Inserting)]);
    steps, st := Then(DistinctIds, Init, steps, st, Insert(0));
  }

  lemma Checked() returns (steps: seq<Step>, st: State)
    ensures steps == [Connect("m"), Check(0)] && Leads(DistinctIds, Init, steps, st)
    ensures st == Init.(handlers := [Handler("m", Upgrading)])
  {
    NoSteps(DistinctIds, Init);
    hide Leads;
    steps, st := Then(DistinctIds, Init, [], Init, Connect("m"));
    assert st == Init.(handlers := [Handler("m", Checking)]);
    steps, st := Then(DistinctIds, Init, steps, st, Check(0));
  }
}
