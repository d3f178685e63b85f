/**
 The methods of internal/pkg/core/ws/ws.go as they read, over the maps they update, when nothing
 interleaves.  Their outcomes are runs of the transition system, which is what says that its steps
 are the critical sections of the code, in the order of the code.
 */
module WsService {
  import opened WsProtocol
  import WsChannels

  // ---------- the outcomes, and the runs behind them ----------

  function HandleSteps(st: State, name: Name, upgraded: bool): seq<Step> {
    var h := |st.handlers|;
    [Connect(name), Check(h)] +
    if name in st.conns then [] else [Upgrade(h, upgraded)] + if upgraded then [Insert(h)] else []
  }

  function HandleOutcome(st: State, name: Name, upgraded: bool): State {
    var st' := st.(handlers := st.handlers + [Handler(name, Finished)]);
    if name in st.conns || !upgraded then st'
    else st'.(sessions := st.sessions + [Session(name, true, map[], Reading, {}, {}, [])],
              conns := st.conns[name := |st.sessions|])
  }

  lemma HandleRun(st: State, name: Name, upgraded: bool)
    requires !st.crashed
    ensures Leads(AnyStep, st, HandleSteps(st, name, upgraded), HandleOutcome(st, name, upgraded))
  {
    var h := |st.handlers|;
    NoSteps(AnyStep, st);
    hide Leads;
    var steps, end := Then(AnyStep, st, [], st, Connect(name));
    steps, end := Then(AnyStep, st, steps, end, Check(h));
    if name in st.conns {
      assert steps == HandleSteps(st, name, upgraded);
      assert end == HandleOutcome(st, name, upgraded);
    } else {
      assert end == st.(handlers := st.handlers + [Handler(name, Upgrading)]);
      HandleUpgrades(st, name, upgraded, steps, end);
    }
  }

  lemma HandleUpgrades(st: State, name: Name, upgraded: bool, begun: seq<Step>, mid: State)
    requires !st.crashed && name !in st.conns && begun == [Connect(name), Check(|st.handlers|)]
    requires mid == st.(handlers := st.handlers + [Handler(name, Upgrading)]) && Leads(AnyStep, st, begun, mid)
    ensures Leads(AnyStep, st, HandleSteps(st, name, upgraded), HandleOutcome(st, name, upgraded))
  {
    hide Leads;
    var h := |st.handlers|;
    var steps, end := Then(AnyStep, st, begun, mid, Upgrade(h, upgraded));
    if upgraded {
      assert end == st.(handlers := st.handlers + [Handler(name, Inserting)]);
      steps, end := Then(AnyStep, st, steps, end, Insert(h));
    }
    assert steps == HandleSteps(st, name, upgraded);
    assert end == HandleOutcome(st, name, upgraded);
  }

  function Closed(st: State, s: nat): State
    requires s < |st.sessions|
  {
    st.(sessions := st.sessions[s := st.sessions[s].(open := false)], conns := st.conns - {st.sessions[s].name})
  }

  function CallSteps(st: State, name: Name, id: Id, written: bool): seq<Step> {
    var t := |st.calls|;
    [Begin(name, id), Lookup(t)] +
    if name !in st.conns then [Refuse(t)]
    else if written then [Write(t, true), Register(t)]
    else [Write(t, false), CallClose(t), CallUnlist(t), Refuse(t)]
  }

  function CallOutcome(st: State, name: Name, id: Id, written: bool): State
    requires name in st.conns ==> st.conns[name] < |st.sessions|
  {
    var c := Call(name, id, Awaiting, [], -1, []);
    if name !in st.conns then st.(calls := st.calls + [Send(c, CoreMade(NotFound, id))])
    else
      var s := st.conns[name];
      if !written then Closed(st, s).(calls := st.calls + [Send(c, CoreMade(NotAvailable, id))])
      else
        var x := st.sessions[s];
        st.(sessions := st.sessions[s := x.(pending := x.pending[id := |st.calls|], registered := x.registered + {id})],
            calls := st.calls + [c.(home := s)])
  }

  lemma CallBegins(st: State, name: Name, id: Id) returns (steps: seq<Step>, end: State)
    requires !st.crashed && (name in st.conns ==> st.conns[name] < |st.sessions|)
    ensures steps == [Begin(name, id), Lookup(|st.calls|)] && Leads(AnyStep, st, steps, end)
    ensures var pc := if name in st.conns then Writing(st.conns[name]) else Refusing(NotFound);
            end == st.(calls := st.calls + [Call(name, id, pc, [], -1, [])])
  {
    steps, end := Then(AnyStep, st, [], st, Begin(name, id));
    hide Leads;
    steps, end := Then(AnyStep, st, steps, end, Lookup(|st.calls|));
  }

  lemma CallRun(st: State, name: Name, id: Id, written: bool)
    requires !st.crashed && (name in st.conns ==> st.conns[name] < |st.sessions|)
    ensures Leads(AnyStep, st, CallSteps(st, name, id, written), CallOutcome(st, name, id, written))
  {
    var t := |st.calls|;
    var steps, end := CallBegins(st, name, id);
    hide Leads;
    if name !in st.conns {
      steps, end := Then(AnyStep, st, steps, end, Refuse(t));
      assert steps == CallSteps(st, name, id, written);
      assert end == CallOutcome(st, name, id, written);
    } else {
      CallWrites(st, name, id, written, steps, end);
    }
  }

  lemma CallWrites(st: State, name: Name, id: Id, written: bool, begun: seq<Step>, mid: State)
    requires !st.crashed && name in st.conns && st.conns[name] < |st.sessions|
    requires Leads(AnyStep, st, begun, mid) && begun == [Begin(name, id), Lookup(|st.calls|)]
    requires mid == st.(calls := st.calls + [Call(name, id, Writing(st.conns[name]), [], -1, [])])
    ensures Leads(AnyStep, st, CallSteps(st, name, id, written), CallOutcome(st, name, id, written))
  {
    hide Leads;
    var t := |st.calls|;
    var s := st.conns[name];
    var steps, end := Then(AnyStep, st, begun, mid, Write(t, written));
    if written {
      assert end == st.(calls := st.calls + [Call(name, id, Registering(s), [], -1, [])]);
      steps, end := Then(AnyStep, st, steps, end, Register(t));
      assert end == CallOutcome(st, name, id, true);
    } else {
      assert end == st.(calls := st.calls + [Call(name, id, Closing(s), [], -1, [])]);
      hide Apply, Enabled;
      steps, end := CallFails(st, steps, end, t, s);
      assert end == CallOutcome(st, name, id, false);
    }
    assert steps == CallSteps(st, name, id, written);
  }

  lemma CallFails(st: State, steps: seq<Step>, mid: State, t: nat, s: nat) returns (steps': seq<Step>, end: State)
    requires Leads(AnyStep, st, steps, mid) && !mid.crashed && s < |mid.sessions|
    requires t == |mid.calls| - 1 && mid.calls[t].pc == Closing(s) && mid.calls[t].buffer == []
    ensures steps' == steps + [CallClose(t), CallUnlist(t), Refuse(t)] && Leads(AnyStep, st, steps', end)
    ensures var c := mid.calls[t];
            end == Closed(mid, s).(calls := mid.calls[t := Send(c, CoreMade(NotAvailable, c.id)).(pc := Awaiting)])
  {
    hide Leads;
    steps', end := Then(AnyStep, st, steps, mid, CallClose(t));
    assert end.calls[t].pc == Unlisting(s);
    steps', end := Then(AnyStep, st, steps', end, CallUnlist(t));
    assert end.calls[t].pc == Refusing(NotAvailable) && end.calls[t].buffer == [];
    steps', end := Then(AnyStep, st, steps', end, Refuse(t));
  }

  /** listen on its way out. */
  lemma ListenEnds(from: State, before: seq<Step>, st: State, s: nat) returns (steps: seq<Step>)
    requires Leads(AnyStep, from, before, st) && Enabled(st, ReadFail(s))
    ensures Leads(AnyStep, from, steps, SetListener(Closed(st, s), s, Gone))
  {
    var end;
    hide Leads;
    steps, end := Then(AnyStep, from, before, st, ReadFail(s));
    steps, end := Then(AnyStep, from, steps, end, ListenClose(s));
    steps, end := Then(AnyStep, from, steps, end, ListenUnlist(s));
    assert end == SetListener(Closed(st, s), s, Gone);
  }

  predicate ChannelsExist(st: State, s: nat) {
    s < |st.sessions| && forall id :: id in st.sessions[s].pending ==> st.sessions[s].pending[id] < |st.calls|
  }

  function Answered(st: State, s: nat, msg: Frame): State
    requires ChannelsExist(st, s) && msg.Response?
  {
    var x := st.sessions[s];
    if msg.id !in x.pending then SetListener(st, s, Taking(msg)).(crashed := true)
    else
      var ch := x.pending[msg.id];
      var x' := x.(pending := x.pending - {msg.id}, taken := x.taken + {msg.id}, listener := Reading);
      st.(sessions := st.sessions[s := x'],
          calls := st.calls[ch := Send(st.calls[ch], Reply(msg, s))])
  }

  lemma KnownChannels(st: State, s: nat)
    requires WsChannels.Inv(st) && s < |st.sessions|
    ensures ChannelsExist(st, s)
    ensures st.sessions[s].listener.Delivering? && !st.crashed ==> Enabled(st, Deliver(s))
  {
    assert WsChannels.SessionOk(st, s);
    if st.sessions[s].listener.Delivering? {
      assert WsChannels.CallOk(st, st.calls[st.sessions[s].listener.call]);
    }
  }

  /** listen with an answer in hand. */
  lemma AnswerRun(from: State, before: seq<Step>, st: State, s: nat, msg: Frame) returns (steps: seq<Step>)
    requires ChannelsExist(st, s) && msg.Response? && !st.crashed
    requires WsChannels.Inv(SetListener(st, s, Taking(msg)))
    requires Leads(AnyStep, from, before, SetListener(st, s, Taking(msg)))
    ensures Leads(AnyStep, from, steps, Answered(st, s, msg)) && WsChannels.Inv(Answered(st, s, msg))
  {
    hide Leads, WsChannels.Inv;
    var held := SetListener(st, s, Taking(msg));
    WsChannels.InvStep(held, Take(s));
    var end;
    steps, end := Then(AnyStep, from, before, held, Take(s));
    if msg.id in st.sessions[s].pending {
      KnownChannels(end, s);
      WsChannels.InvStep(end, Deliver(s));
      steps, end := Then(AnyStep, from, steps, end, Deliver(s));
    }
    assert end == Answered(st, s, msg);
  }

  function MessageOutcome(st: State, s: nat, msg: Frame): State
    requires ChannelsExist(st, s)
  {
    var st' := SetSession(st, s, st.sessions[s].(read := st.sessions[s].read + [msg]));
    match msg
    case Request(_) => st'.(requests := st.requests + [msg])
    case Response(_, _) => Answered(st', s, msg)
    case _ => st'
  }

  lemma MessageRun(from: State, before: seq<Step>, st: State, s: nat, msg: Frame) returns (steps: seq<Step>)
    requires Enabled(st, ReadFrame(s, msg)) && ChannelsExist(st, s)
    requires WsChannels.Inv(st) && Leads(AnyStep, from, before, st)
    ensures Leads(AnyStep, from, steps, MessageOutcome(st, s, msg)) && WsChannels.Inv(MessageOutcome(st, s, msg))
  {
    hide Leads, WsChannels.Inv;
    var st' := SetSession(st, s, st.sessions[s].(read := st.sessions[s].read + [msg]));
    var end;
    WsChannels.InvStep(st, ReadFrame(s, msg));
    steps, end := Then(AnyStep, from, before, st, ReadFrame(s, msg));
    match msg
    case Request(_) =>
      assert end == SetListener(st', s, Forwarding(msg));
      WsChannels.InvStep(end, Forward(s));
      steps, end := Then(AnyStep, from, steps, end, Forward(s));
      assert end == MessageOutcome(st, s, msg);
    case Response(_, _) =>
      assert end == SetListener(st', s, Taking(msg));
      steps := AnswerRun(from, steps, st', s, msg);
    case _ =>
      assert end == MessageOutcome(st, s, msg);
  }

  // ---------- the code ----------

  class Service {
    var conns: map<Name, nat>
    var sessions: seq<Session>
    var calls: seq<Call>
    var handlers: seq<Handler>
    var requests: seq<Frame>
    var crashed: bool

    ghost function View(): State
      reads this
    {
      State(conns, sessions, calls, handlers, requests, crashed)
    }

    constructor ()
      ensures View() == Init
    {
      conns, sessions, calls, handlers, requests, crashed := map[], [], [], [], [], false;
    }

    /** handler, after the version and path checks; `upgraded` says whether the upgrade succeeds. */
    method Handle(name: Name, upgraded: bool)
      requires !crashed
      modifies this
      ensures View() == HandleOutcome(old(View()), name, upgraded)
      ensures calls == old(calls) && requests == old(requests) && !crashed
      ensures if name in old(conns) || !upgraded then conns == old(conns) && sessions == old(sessions)
              else
                && |sessions| == |old(sessions)| + 1 && sessions[..|old(sessions)|] == old(sessions)
                && conns == old(conns)[name := |old(sessions)|]
                && var x := sessions[|old(sessions)|];
                   x.name == name && x.open && x.pending == map[] && x.listener.Reading?
      ensures Leads(AnyStep, old(View()), HandleSteps(old(View()), name, upgraded), View())
    {
      HandleRun(View(), name, upgraded);
      hide Leads;
      handlers := handlers + [Handler(name, Finished)];
      if name in conns {
        return;
      }
      if !upgraded {
        return;
      }
      var wsc := Session(name, true, map[], Reading, {}, {}, []);
      sessions := sessions + [wsc];
      conns := conns[name := |sessions| - 1];
    }

    /** closeConnOnErr: its `conn.req = nil` clears a local copy, so the pending entries stay. */
    method CloseConnOnErr(conn: nat)
      requires conn < |sessions|
      modifies this`sessions, this`conns
      ensures View() == Closed(old(View()), conn)
      ensures sessions[conn].name !in conns && conns == old(conns) - {old(sessions[conn]).name}
      ensures sessions == old(sessions)[conn := sessions[conn]]
      ensures !sessions[conn].open && sessions[conn].pending == old(sessions[conn].pending)
    {
      sessions := sessions[conn := sessions[conn].(open := false)];
      conns := conns - {sessions[conn].name};
    }

    /** Call; `written` says whether WriteMessage succeeds.  The result is the number of the reply channel. */
    method Call(name: Name, id: Id, written: bool) returns (resp: nat)
      requires !crashed && (name in conns ==> conns[name] < |sessions|)
      modifies this
      ensures resp == |old(calls)| && View() == CallOutcome(old(View()), name, id, written)
      ensures |calls| == resp + 1 && calls[..resp] == old(calls) && |sessions| == |old(sessions)|
      ensures name !in old(conns) ==>
                calls[resp].buffer == [CoreMade(NotFound, id)] && sessions == old(sessions) && conns == old(conns)
      ensures name in old(conns) && written ==>
                && calls[resp].buffer == [] && conns == old(conns)
                && sessions[conns[name]].pending == old(sessions[conns[name]].pending)[id := resp]
                && forall s :: 0 <= s < |sessions| && s != conns[name] ==> sessions[s] == old(sessions)[s]
      ensures name in old(conns) && !written ==>
                && calls[resp].buffer == [CoreMade(NotAvailable, id)]
                && conns == old(conns) - {old(sessions[conns[name]]).name}
                && !sessions[old(conns[name])].open
                && sessions[old(conns[name])].pending == old(sessions[conns[name]].pending)
      ensures Leads(AnyStep, old(View()), CallSteps(old(View()), name, id, written), View())
    {
      CallRun(View(), name, id, written);
      hide Leads;
      resp := |calls|;
      calls := calls + [WsProtocol.Call(name, id, Awaiting, [], -1, [])];
      if name !in conns {
        calls := calls[resp := Send(calls[resp], CoreMade(NotFound, id))];
        return;
      }
      var conn := conns[name];
      if !written {
        CloseConnOnErr(conn);
        calls := calls[resp := Send(calls[resp], CoreMade(NotAvailable, id))];
        return;
      }
      var x := sessions[conn];
      sessions := sessions[conn := x.(pending := x.pending[id := resp], registered := x.registered + {id})];
      calls := calls[resp := calls[resp].(home := conn)];
    }

    /** listen, until its read fails: `incoming` is what the peer sends before that. */
    method Listen(conn: nat, incoming: seq<Frame>) returns (ghost steps: seq<Step>)
      requires !crashed && conn < |sessions| && sessions[conn].listener.Reading?
      requires WsChannels.Inv(View())
      modifies this
      ensures Leads(AnyStep, old(View()), steps, View())
      ensures conn < |sessions| && old(sessions[conn]).read <= sessions[conn].read
      ensures !crashed ==>
                && sessions[conn].listener.Gone? && !sessions[conn].open && sessions[conn].name !in conns
                && sessions[conn].read == old(sessions[conn]).read + incoming
                && requests == old(requests) + Requests(incoming)
    {
      hide Leads, WsChannels.Inv, Apply;
      steps := [];
      ghost var from := View();
      NoSteps(AnyStep, from);
      for i := 0 to |incoming|
        invariant !crashed && conn < |sessions| && sessions[conn].listener.Reading?
        invariant WsChannels.Inv(View()) && Leads(AnyStep, from, steps, View())
        invariant sessions[conn].read == old(sessions[conn]).read + incoming[..i]
        invariant requests == old(requests) + Requests(incoming[..i])
      {
        RequestsStep(incoming, i);
        steps := Message(conn, incoming[i], from, steps);
        if crashed {
          return;
        }
      }
      assert incoming[..|incoming|] == incoming;
      steps := ListenEnds(from, steps, View(), conn);
      CloseConnOnErr(conn);
      sessions := sessions[conn := sessions[conn].(listener := Gone)];
    }

    /** One turn of the loop of listen. */
    method Message(conn: nat, msg: Frame, ghost from: State, ghost before: seq<Step>) returns (ghost steps: seq<Step>)
      requires !crashed && conn < |sessions| && sessions[conn].listener.Reading?
      requires WsChannels.Inv(View()) && Leads(AnyStep, from, before, View())
      modifies this
      ensures ChannelsExist(old(View()), conn) && View() == MessageOutcome(old(View()), conn, msg)
      ensures conns == old(conns) && |sessions| == |old(sessions)| && |calls| == |old(calls)|
      ensures sessions[conn].read == old(sessions[conn].read) + [msg]
      ensures requests == old(requests) + if msg.Request? then [msg] else []
      ensures crashed <==> msg.Response? && msg.id !in old(sessions[conn].pending)
      ensures msg.Response? && !crashed ==>
                && sessions[conn].pending == old(sessions[conn].pending) - {msg.id}
                && var ch := old(sessions[conn].pending[msg.id]);
                   && calls[ch].buffer == old(calls)[ch].buffer + [Reply(msg, conn)]
                   && calls[ch].sent == old(calls)[ch].sent + [Reply(msg, conn)]
                   && forall t :: 0 <= t < |calls| && t != ch ==> calls[t] == old(calls)[t]
      ensures !msg.Response? ==> calls == old(calls) && sessions[conn].pending == old(sessions[conn].pending)
      ensures Leads(AnyStep, from, steps, View()) && WsChannels.Inv(View())
    {
      KnownChannels(View(), conn);
      steps := MessageRun(from, before, View(), conn, msg);
      hide Leads, WsChannels.Inv;
      sessions := sessions[conn := sessions[conn].(read := sessions[conn].read + [msg])];
      match msg
      case Binary =>
      case NoId =>
      case Request(_) =>
        requests := requests + [msg];
      case Response(id, _) =>
        var x := sessions[conn];
        if id !in x.pending {
          crashed := true;
          sessions := sessions[conn := x.(listener := Taking(msg))];
          return;
        }
        var ch := x.pending[id];
        sessions := sessions[conn := x.(pending := x.pending - {id}, taken := x.taken + {id})];
        calls := calls[ch := Send(calls[ch], Reply(msg, conn))];
    }
  }

  /** The connector's own requests among what was read, in order. */
  function Requests(frames: seq<Frame>): seq<Frame> {
    if frames == [] then []
    else (if frames[0].Request? then [frames[0]] else []) + Requests(frames[1..])
  }

  lemma {:induction false} RequestsStep(frames: seq<Frame>, i: nat)
    requires i < |frames|
    ensures Requests(frames[..i + 1]) == Requests(frames[..i]) + if frames[i].Request? then [frames[i]] else []
    decreases i
  {
    if i > 0 {
      RequestsStep(frames[1..], i - 1);
      assert frames[1..][..i] == frames[..i + 1][1..] && frames[1..][..i - 1] == frames[..i][1..];
    } else {
      assert frames[..1] == [frames[0]];
    }
  }
}
