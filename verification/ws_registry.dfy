/** Which session `conns` holds for a name: the connect handler and closeConnOnErr. */
module WsRegistry {
  import opened WsProtocol
  import opened WsPending

  /** A connect attempt between its check of conns and its insert. */
  predicate Attempting(h: Handler) {
    h.pc.Upgrading? || h.pc.Inserting?
  }

  predicate NoOtherAttempt(st: State, name: Name) {
    forall h :: 0 <= h < |st.handlers| ==> !(Attempting(st.handlers[h]) && st.handlers[h].name == name)
  }

  predicate NoSuccessor(st: State, s: nat)
    requires s < |st.sessions|
  {
    forall r :: s < r < |st.sessions| ==> st.sessions[r].name != st.sessions[s].name
  }

  /** Connect attempts for one name do not overlap from check to insert, and no session deletes the
      name after its successor was inserted. */
  predicate Orderly(st: State, step: Step) {
    match step
    case Check(h) => h < |st.handlers| ==> NoOtherAttempt(st, st.handlers[h].name)
    case CallUnlist(t) => t < |st.calls| && st.calls[t].pc.Unlisting? && st.calls[t].pc.session < |st.sessions| ==>
                            NoSuccessor(st, st.calls[t].pc.session)
    case ListenUnlist(s) => s < |st.sessions| ==> NoSuccessor(st, s)
    case _ => true
  }

  /** In every run a name is bound to a session of that name. */
  ghost predicate NamesAgree(st: State) {
    forall k :: k in st.conns ==> st.conns[k] < |st.sessions| && st.sessions[st.conns[k]].name == k
  }

  lemma NamesAgreeStep(st: State, step: Step)
    requires NamesAgree(st) && Enabled(st, step)
    ensures NamesAgree(Apply(st, step))
  {
  }

  lemma {:induction false} NamesAgreeAlong(rule: Rule, st: State, steps: seq<Step>, st': State)
    requires NamesAgree(st) && Leads(rule, st, steps, st')
    ensures NamesAgree(st')
    decreases |steps|
  {
    if steps != [] {
      hide Apply, Enabled, NamesAgree;
      NamesAgreeStep(st, steps[0]);
      NamesAgreeAlong(rule, Apply(st, steps[0]), steps[1..], st');
    }
  }

  ghost predicate RegisteredIsLatest(st: State) {
    forall k :: k in st.conns ==>
      && st.conns[k] < |st.sessions| && st.sessions[st.conns[k]].name == k
      && NoSuccessor(st, st.conns[k])
  }

  ghost predicate OpenIsRegistered(st: State) {
    forall s :: 0 <= s < |st.sessions| && st.sessions[s].open ==>
      st.sessions[s].name in st.conns && st.conns[st.sessions[s].name] == s
  }

  ghost predicate AttemptsAreAlone(st: State) {
    forall h :: 0 <= h < |st.handlers| && Attempting(st.handlers[h]) ==>
      && st.handlers[h].name !in st.conns
      && forall g :: 0 <= g < |st.handlers| && g != h && Attempting(st.handlers[g]) ==>
           st.handlers[g].name != st.handlers[h].name
  }

  /** The listener has closed its session. */
  predicate Ended(pc: ListenPc) {
    pc.ListenerUnlisting? || pc.Gone?
  }

  ghost predicate UnlistedAreClosed(st: State) {
    && (forall t :: 0 <= t < |st.calls| && st.calls[t].pc.Unlisting? ==>
          st.calls[t].pc.session < |st.sessions| && !st.sessions[st.calls[t].pc.session].open)
    && (forall s :: 0 <= s < |st.sessions| && Ended(st.sessions[s].listener) ==> !st.sessions[s].open)
  }

  ghost predicate Inv(st: State) {
    RegisteredIsLatest(st) && OpenIsRegistered(st) && AttemptsAreAlone(st) && UnlistedAreClosed(st)
  }

  predicate NoneOpen(st: State, name: Name) {
    forall s :: 0 <= s < |st.sessions| && st.sessions[s].name == name ==> !st.sessions[s].open
  }

  lemma InvInsert(st: State, h: nat)
    requires Inv(st) && Enabled(st, Insert(h))
    ensures Inv(Apply(st, Insert(h)))
    ensures NoneOpen(st, st.handlers[h].name) && st.handlers[h].name !in st.conns
  {
    var st' := Apply(st, Insert(h));
    var name := st.handlers[h].name;
    assert forall s :: 0 <= s < |st.sessions| && st.sessions[s].name == name ==> !st.sessions[s].open;
    assert RegisteredIsLatest(st') by {
      forall k | k in st'.conns
        ensures st'.conns[k] < |st'.sessions| && st'.sessions[st'.conns[k]].name == k && NoSuccessor(st', st'.conns[k])
      {
        if k != name {
          assert NoSuccessor(st, st.conns[k]);
        }
      }
    }
    assert AttemptsAreAlone(st');
  }

  /** The session whose closeConnOnErr takes the step. */
  function Closer(st: State, step: Step): nat
    requires Enabled(st, step) && (step.CallUnlist? || step.ListenUnlist?)
  {
    if step.CallUnlist? then st.calls[step.call].pc.session else step.session
  }

  lemma InvUnlist(st: State, step: Step)
    requires Inv(st) && Enabled(st, step) && Orderly(st, step) && (step.CallUnlist? || step.ListenUnlist?)
    ensures Inv(Apply(st, step))
    ensures forall k :: k in st.conns ==>
              if st.conns[k] == Closer(st, step) then k !in Apply(st, step).conns
              else k in Apply(st, step).conns && Apply(st, step).conns[k] == st.conns[k]
    ensures Apply(st, step).conns.Keys <= st.conns.Keys
  {
    var s := Closer(st, step);
    var name := st.sessions[s].name;
    var st' := Apply(st, step);
    assert st'.conns == st.conns - {name};
    assert !st.sessions[s].open;
    if name in st.conns {
      assert NoSuccessor(st, st.conns[name]);
      assert st.conns[name] == s;
    }
    forall k | k in st'.conns
      ensures NoSuccessor(st', st'.conns[k])
    {
      assert NoSuccessor(st, st.conns[k]);
    }
  }

  predicate KeepsConns(step: Step) {
    !step.Insert? && !step.CallUnlist? && !step.ListenUnlist?
  }

  /** The other steps leave conns alone and open no session. */
  lemma OtherSessions(st: State, step: Step)
    requires Enabled(st, step) && KeepsConns(step)
    ensures var st' := Apply(st, step);
            && st'.conns == st.conns && |st'.sessions| == |st.sessions|
            && forall s :: 0 <= s < |st.sessions| ==>
                 && st'.sessions[s].name == st.sessions[s].name
                 && (st'.sessions[s].open ==> st.sessions[s].open)
  {
  }

  lemma OtherAttempts(st: State, step: Step)
    requires AttemptsAreAlone(st) && Enabled(st, step) && Orderly(st, step) && KeepsConns(step)
    ensures AttemptsAreAlone(Apply(st, step))
  {
  }

  lemma OtherUnlisted(st: State, step: Step)
    requires UnlistedAreClosed(st) && Enabled(st, step) && KeepsConns(step)
    ensures UnlistedAreClosed(Apply(st, step))
  {
    OtherSessions(st, step);
    ClosersCloseFirst(st, step);
    hide Apply, Enabled;
  }

  /** A thread comes to its delete only by closing its session in the step before. */
  lemma ClosersCloseFirst(st: State, step: Step)
    requires Enabled(st, step) && KeepsConns(step)
    ensures var st' := Apply(st, step);
            && (forall t :: 0 <= t < |st'.calls| && st'.calls[t].pc.Unlisting? ==>
                  || (t < |st.calls| && st.calls[t].pc == st'.calls[t].pc)
                  || (st'.calls[t].pc.session < |st'.sessions| && !st'.sessions[st'.calls[t].pc.session].open))
            && (forall s :: 0 <= s < |st'.sessions| && Ended(st'.sessions[s].listener) ==>
                  || (s < |st.sessions| && st.sessions[s].listener == st'.sessions[s].listener)
                  || !st'.sessions[s].open)
  {
  }

  lemma InvOther(st: State, step: Step)
    requires Inv(st) && Enabled(st, step) && Orderly(st, step) && KeepsConns(step)
    ensures Inv(Apply(st, step))
  {
    var st' := Apply(st, step);
    OtherSessions(st, step);
    OtherAttempts(st, step);
    OtherUnlisted(st, step);
    hide Apply, Enabled, Orderly, AttemptsAreAlone, UnlistedAreClosed;
    forall k | k in st'.conns
      ensures st'.conns[k] < |st'.sessions| && st'.sessions[st'.conns[k]].name == k && NoSuccessor(st', st'.conns[k])
    {
      assert NoSuccessor(st, st.conns[k]);
    }
  }

  lemma {:induction false} InvAlong(st: State, steps: seq<Step>, st': State)
    requires Inv(st) && Leads(Orderly, st, steps, st')
    ensures Inv(st')
    decreases |steps|
  {
    if steps != [] {
      hide Inv, Apply, Enabled, Orderly;
      if steps[0].Insert? {
        InvInsert(st, steps[0].handler);
      } else if steps[0].CallUnlist? || steps[0].ListenUnlist? {
        InvUnlist(st, steps[0]);
      } else {
        InvOther(st, steps[0]);
      }
      InvAlong(Apply(st, steps[0]), steps[1..], st');
    }
  }

  /** In orderly runs the registered session is the latest of its name and the only one that can be open. */
  lemma RegisteredIsTheLiveOne(steps: seq<Step>, st: State)
    requires Leads(Orderly, Init, steps, st)
    ensures forall k :: k in st.conns ==>
              && st.conns[k] < |st.sessions| && st.sessions[st.conns[k]].name == k
              && forall s :: 0 <= s < |st.sessions| && st.sessions[s].name == k ==>
                   s <= st.conns[k] && (st.sessions[s].open ==> s == st.conns[k])
    ensures forall s :: 0 <= s < |st.sessions| && st.sessions[s].open ==> st.sessions[s].name in st.conns
  {
    InvAlong(Init, steps, st);
    forall k | k in st.conns
      ensures forall s :: 0 <= s < |st.sessions| && st.sessions[s].name == k ==> s <= st.conns[k]
    {
      assert NoSuccessor(st, st.conns[k]);
    }
  }

  // ---------- exactly which steps break it ----------

  ghost predicate Good(st: State) {
    RegisteredIsLatest(st) && OpenIsRegistered(st)
  }

  /** A step spoils a good registry exactly when it inserts over an open session of the name, or
      deletes the name while its registered session is open. */
  lemma StepKeepsGoodIff(st: State, step: Step)
    requires Good(st) && Enabled(st, step)
    ensures Good(Apply(st, step)) <==>
              match step
              case Insert(h) => NoneOpen(st, st.handlers[h].name)
              case CallUnlist(t) => NoneOpen(st, st.sessions[st.calls[t].pc.session].name)
              case ListenUnlist(s) => NoneOpen(st, st.sessions[s].name)
              case _ => true
  {
    var st' := Apply(st, step);
    if step.Insert? {
      InsertKeepsGoodIff(st, step.handler);
    } else if step.CallUnlist? || step.ListenUnlist? {
      var s := Closer(st, step);
      UnlistKeepsGoodIff(st, st', st.sessions[s].name);
    } else {
      OtherSessions(st, step);
      hide Apply, Enabled;
      forall k | k in st'.conns ensures NoSuccessor(st', st'.conns[k]) {
        assert NoSuccessor(st, st.conns[k]);
      }
    }
  }

  lemma InsertKeepsGoodIff(st: State, h: nat)
    requires Good(st) && Enabled(st, Insert(h))
    ensures Good(Apply(st, Insert(h))) <==> NoneOpen(st, st.handlers[h].name)
  {
    var st' := Apply(st, Insert(h));
    forall k | k in st'.conns && k != st.handlers[h].name ensures NoSuccessor(st', st'.conns[k]) {
      assert NoSuccessor(st, st.conns[k]);
    }
    if Good(st') {
      forall s | 0 <= s < |st.sessions| && st.sessions[s].name == st.handlers[h].name ensures !st.sessions[s].open {
        assert st'.sessions[s] == st.sessions[s];
      }
    }
  }

  lemma UnlistKeepsGoodIff(st: State, st': State, name: Name)
    requires Good(st) && st'.conns == st.conns - {name} && |st'.sessions| == |st.sessions|
    requires forall s :: 0 <= s < |st.sessions| ==>
               st'.sessions[s].name == st.sessions[s].name && st'.sessions[s].open == st.sessions[s].open
    ensures Good(st') <==> NoneOpen(st, name)
  {
    forall k | k in st'.conns ensures NoSuccessor(st', st'.conns[k]) {
      assert NoSuccessor(st, st.conns[k]);
    }
  }

  // ---------- why the runs have to be orderly ----------

  /** Two attempts that both pass the check: the first session stays open and nobody can reach it. */
  lemma OverlapLeavesTwoOpen() returns (steps: seq<Step>, st: State)
    ensures Leads(AnyStep, Init, steps, st)
    ensures |st.sessions| == 2 && st.sessions[0].name == st.sessions[1].name
    ensures st.sessions[0].open && st.sessions[1].open && 0 !in st.conns.Values
  {
    steps, st := BothChecked();
    hide Leads;
    steps, st := Then(AnyStep, Init, steps, st, Upgrade(0, true));
    steps, st := Then(AnyStep, Init, steps, st, Upgrade(1, true));
    assert st == Init.(handlers := [Handler("m", Inserting), Handler("m", Inserting)]);
    steps, st := InsertBoth(steps, st);
  }

  lemma BothChecked() returns (steps: seq<Step>, st: State)
    ensures Leads(AnyStep, Init, steps, st)
    ensures st == Init.(handlers := [Handler("m", Upgrading), Handler("m", Upgrading)])
  {
    steps, st := Then(AnyStep, Init, [], Init, Connect("m"));
    hide Leads;
    steps, st := Then(AnyStep, Init, steps, st, Connect("m"));
    assert st == Init.(handlers := [Handler("m", Checking), Handler("m", Checking)]);
    steps, st := Then(AnyStep, Init, steps, st, Check(0));
    steps, st := Then(AnyStep, Init, steps, st, Check(1));
  }

  lemma InsertBoth(steps: seq<Step>, st: State) returns (steps': seq<Step>, st': State)
    requires Leads(AnyStep, Init, steps, st)
    requires st == Init.(handlers := [Handler("m", Inserting), Handler("m", Inserting)])
    ensures Leads(AnyStep, Init, steps', st')
    ensures |st'.sessions| == 2 && st'.sessions[0].name == st'.sessions[1].name
    ensures st'.sessions[0].open && st'.sessions[1].open && 0 !in st'.conns.Values
  {
    steps', st' := Then(AnyStep, Init, steps, st, Insert(0));
    hide Leads;
    assert st'.handlers[1] == Handler("m", Inserting) && |st'.sessions| == 1;
    steps', st' := Then(AnyStep, Init, steps', st', Insert(1));
    assert st'.conns == map["m" := 1];
  }

  const First := Session("m", true, map[], Reading, {}, {}, [])

  /** A session whose write failed is replaced; its listener then notices and removes the new one. */
  lemma LateDeleteHidesSuccessor() returns (steps: seq<Step>, st: State)
    ensures Leads(AnyStep, Init, steps, st)
    ensures |st.sessions| == 2 && st.sessions[1].open && st.sessions[1].name == "m" && "m" !in st.conns
  {
    steps, st := Replaced();
    hide Leads;
    steps, st := Then(AnyStep, Init, steps, st, ReadFail(0));
    steps, st := Then(AnyStep, Init, steps, st, ListenClose(0));
    steps, st := Then(AnyStep, Init, steps, st, ListenUnlist(0));
  }

  lemma Replaced() returns (steps: seq<Step>, st: State)
    ensures Leads(AnyStep, Init, steps, st) && !st.crashed
    ensures st.sessions == [First.(open := false), First] && st.conns == map["m" := 1]
  {
    steps, st := Dropped();
    hide Leads;
    steps, st := Then(AnyStep, Init, steps, st, Connect("m"));
    assert st.handlers[1] == Handler("m", Checking);
    steps, st := Then(AnyStep, Init, steps, st, Check(1));
    assert st.handlers[1] == Handler("m", Upgrading);
    steps, st := Then(AnyStep, Init, steps, st, Upgrade(1, true));
    assert st.handlers[1] == Handler("m", Inserting);
    steps, st := Then(AnyStep, Init, steps, st, Insert(1));
  }

  lemma Dropped() returns (steps: seq<Step>, st: State)
    ensures Leads(AnyStep, Init, steps, st) && !st.crashed
    ensures st.sessions == [First.(open := false)] && st.conns == map[] && |st.handlers| == 1
  {
    steps, st := Connected();
    Unruled(DistinctIds, Init, steps, st);
    hide Leads;
    steps, st := Then(AnyStep, Init, steps, st, Begin("m", "1"));
    assert st.calls == [Call("m", "1", Looking, [], -1, [])];
    steps, st := Then(AnyStep, Init, steps, st, Lookup(0));
    assert st.calls[0].pc == Writing(0);
    steps, st := Then(AnyStep, Init, steps, st, Write(0, false));
    assert st.calls[0].pc == Closing(0);
    steps, st := Then(AnyStep, Init, steps, st, CallClose(0));
    assert st.calls[0].pc == Unlisting(0);
    steps, st := Then(AnyStep, Init, steps, st, CallUnlist(0));
  }
}
