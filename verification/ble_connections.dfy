/**
 Who owns a connection to a peripheral in internal/app/ble/handler/handler.go.  A call that needs a
 client takes the one a subscription left in `conns`, or dials one of its own.  discover, read and
 write hang up their own client on every way out; subscribe keeps its own, in `conns` on success.
 Clients are numbered in the order they are dialled; a deferred CancelConnection always hangs up.
 */
module BleConnections {

  type Address = string

  /** What a lookup on the device gives; the empty answer makes the code index an empty slice. */
  datatype Found = Failed | Empty | Some

  /** How the device behaves during one call. */
  datatype Device = Device(
    dials: bool, services: Found, characteristics: Found, descriptors: bool,
    works: bool,                            // the step the call is for succeeds
    clears: bool, cancels: bool)            // the two steps of subscribeCancel succeed

  datatype Outcome = Done | Error | Panic

  datatype State = State(
    conns: map<Address, nat>,
    open: set<nat>,                         // clients dialled and not hung up
    dialled: nat)

  const Init := State(map[], {}, 0)

  datatype Kind = Discover | Read | Write | Subscribe | SubscribeCancel

  /** A call; `valid` is false when its parameters do not parse. */
  datatype Op = Op(kind: Kind, address: Address, valid: bool, device: Device)

  // ---------- what a call does ----------

  /** The call dials a client of its own. */
  predicate Dials(st: State, op: Op) {
    !op.kind.SubscribeCancel? && op.valid && op.address !in st.conns && op.device.dials
  }

  /** How the work with a client ends. */
  function Work(kind: Kind, d: Device): Outcome {
    if kind.Discover? then (if d.works then Done else Error)
    else if d.services.Failed? then Error
    else if d.services.Empty? then Panic
    else if d.characteristics.Failed? then Error
    else if d.characteristics.Empty? then Panic
    else if kind.Subscribe? && !d.descriptors then Error
    else if d.works then Done else Error
  }

  function Ends(st: State, op: Op): Outcome {
    if op.kind.SubscribeCancel? then
      if op.address in st.conns && op.device.clears && op.device.cancels then Done else Error
    else if op.valid && (op.address in st.conns || op.device.dials) then Work(op.kind, op.device)
    else Error
  }

  function After(st: State, op: Op): State {
    if op.kind.SubscribeCancel? then
      if Ends(st, op).Done? then st.(open := st.open - {st.conns[op.address]}, conns := st.conns - {op.address}) else st
    else if !Dials(st, op) then st
    else if !op.kind.Subscribe? then st.(dialled := st.dialled + 1)
    else
      var st' := st.(open := st.open + {st.dialled}, dialled := st.dialled + 1);
      if Ends(st, op).Done? then st'.(conns := st.conns[op.address := st.dialled]) else st'
  }

  // ---------- the code ----------

  class Service {
    var conns: map<Address, nat>
    var open: set<nat>
    var dialled: nat

    ghost function View(): State
      reads this
    {
      State(conns, open, dialled)
    }

    constructor ()
      ensures View() == Init
    {
      conns, open, dialled := map[], {}, 0;
    }

    method Dial() returns (cli: nat)
      modifies this`open, this`dialled
      ensures cli == old(dialled) && dialled == old(dialled) + 1 && open == old(open) + {cli}
    {
      cli := dialled;
      dialled := dialled + 1;
      open := open + {cli};
    }

    method CancelConnection(cli: nat)
      modifies this`open
      ensures open == old(open) - {cli}
    {
      open := open - {cli};
    }

    /** The deferred function of discover, read and write. */
    method HangUp(ok: bool, cli: nat)
      modifies this`open
      ensures open == if ok then old(open) else old(open) - {cli}
    {
      if !ok {
        CancelConnection(cli);
      }
    }

    /** discover */
    method DiscoverProfile(address: Address, valid: bool, d: Device) returns (r: Outcome)
      requires dialled !in open
      modifies this
      ensures var op := Op(Discover, address, valid, d); View() == After(old(View()), op) && r == Ends(old(View()), op)
      ensures conns == old(conns) && open == old(open)
      ensures dialled == old(dialled) + if valid && address !in conns && d.dials then 1 else 0
      ensures !r.Panic? && (r.Done? <==> valid && (address in conns || d.dials) && d.works)
    {
      if !valid {
        return Error;
      }
      var ok := address in conns;
      var cli;
      if ok {
        cli := conns[address];
      } else if d.dials {
        cli := Dial();
      } else {
        return Error;
      }
      r := if d.works then Done else Error;
      HangUp(ok, cli);
    }

    /** read and write, which differ in their last step only. */
    method Exchange(kind: Kind, address: Address, valid: bool, d: Device) returns (r: Outcome)
      requires dialled !in open && (kind.Read? || kind.Write?)
      modifies this
      ensures var op := Op(kind, address, valid, d); View() == After(old(View()), op) && r == Ends(old(View()), op)
      ensures conns == old(conns) && open == old(open)
      ensures dialled == old(dialled) + if valid && address !in conns && d.dials then 1 else 0
      ensures r.Done? <==>
                valid && (address in conns || d.dials) && d.services.Some? && d.characteristics.Some? && d.works
      ensures r.Panic? <==>
                && valid && (address in conns || d.dials)
                && (d.services.Empty? || (d.services.Some? && d.characteristics.Empty?))
    {
      if !valid {
        return Error;
      }
      var ok := address in conns;
      var cli;
      if ok {
        cli := conns[address];
      } else if d.dials {
        cli := Dial();
      } else {
        return Error;
      }
      if d.services.Failed? {
        HangUp(ok, cli);
        return Error;
      }
      if d.services.Empty? {
        HangUp(ok, cli);
        return Panic;
      }
      if d.characteristics.Failed? {
        HangUp(ok, cli);
        return Error;
      }
      if d.characteristics.Empty? {
        HangUp(ok, cli);
        return Panic;
      }
      r := if d.works then Done else Error;
      HangUp(ok, cli);
    }

    /** subscribe: nothing is deferred. */
    method StartSubscription(address: Address, valid: bool, d: Device) returns (r: Outcome)
      requires dialled !in open
      modifies this
      ensures var op := Op(Subscribe, address, valid, d); View() == After(old(View()), op) && r == Ends(old(View()), op)
      ensures conns == if r.Done? && address !in old(conns) then old(conns)[address := old(dialled)] else old(conns)
      ensures open == old(open) + if valid && address !in old(conns) && d.dials then {old(dialled)} else {}
      ensures r.Done? <==>
                && valid && (address in old(conns) || d.dials)
                && d.services.Some? && d.characteristics.Some? && d.descriptors && d.works
      ensures r.Panic? <==>
                && valid && (address in old(conns) || d.dials)
                && (d.services.Empty? || (d.services.Some? && d.characteristics.Empty?))
    {
      if !valid {
        return Error;
      }
      var ok := address in conns;
      var cli;
      if ok {
        cli := conns[address];
      } else if d.dials {
        cli := Dial();
      } else {
        return Error;
      }
      if d.services.Failed? {
        return Error;
      }
      if d.services.Empty? {
        return Panic;
      }
      if d.characteristics.Failed? {
        return Error;
      }
      if d.characteristics.Empty? {
        return Panic;
      }
      if !d.descriptors || !d.works {
        return Error;
      }
      if !ok {
        conns := conns[address := cli];
      }
      r := Done;
    }

    /** subscribeCancel */
    method CancelSubscription(address: Address, d: Device) returns (r: Outcome)
      modifies this
      ensures var op := Op(SubscribeCancel, address, true, d);
              View() == After(old(View()), op) && r == Ends(old(View()), op)
      ensures !r.Panic? && (r.Done? <==> address in old(conns) && d.clears && d.cancels)
      ensures r.Done? ==> conns == old(conns) - {address} && open == old(open) - {old(conns[address])}
      ensures !r.Done? ==> conns == old(conns) && open == old(open)
    {
      if address !in conns {
        return Error;
      }
      var cli := conns[address];
      if !d.clears {
        return Error;
      }
      if !d.cancels {
        return Error;
      }
      CancelConnection(cli);
      conns := conns - {address};
      r := Done;
    }
  }

  // ---------- conservation ----------

  function AfterAll(st: State, ops: seq<Op>): State
    decreases |ops|
  {
    if ops == [] then st else AfterAll(After(st, ops[0]), ops[1..])
  }

  /** A subscribe that dialled and then failed or panicked. */
  predicate Leaks(st: State, op: Op) {
    op.kind.Subscribe? && Dials(st, op) && !Ends(st, op).Done?
  }

  function LeaksAlong(st: State, ops: seq<Op>): nat
    decreases |ops|
  {
    if ops == [] then 0 else (if Leaks(st, ops[0]) then 1 else 0) + LeaksAlong(After(st, ops[0]), ops[1..])
  }

  /** The clients in conns are open, each for one address; `lost` are the open ones in no entry. */
  ghost predicate Inv(st: State, lost: set<nat>) {
    && st.open == st.conns.Values + lost && st.conns.Values !! lost
    && (forall c :: c in st.open ==> c < st.dialled)
    && (forall a, b :: a in st.conns && b in st.conns && a != b ==> st.conns[a] != st.conns[b])
  }

  lemma InvStep(st: State, lost: set<nat>, op: Op)
    requires Inv(st, lost)
    ensures Inv(After(st, op), if Leaks(st, op) then lost + {st.dialled} else lost)
    ensures Leaks(st, op) ==> st.dialled !in lost
  {
    var st' := After(st, op);
    if op.kind.SubscribeCancel? && Ends(st, op).Done? {
      var a := op.address;
      forall c | c in st.conns.Values && c != st.conns[a]
        ensures c in st'.conns.Values
      {
        var k :| k in st.conns && st.conns[k] == c;
        assert k in st'.conns && st'.conns[k] == c;
      }
      assert st'.conns.Values == st.conns.Values - {st.conns[a]};
    } else if op.kind.Subscribe? && Dials(st, op) && Ends(st, op).Done? {
      forall c | c in st.conns.Values
        ensures c in st'.conns.Values
      {
        var k :| k in st.conns && st.conns[k] == c;
        assert k in st'.conns && st'.conns[k] == c;
      }
      assert st'.conns[op.address] == st.dialled;
      assert st'.conns.Values == st.conns.Values + {st.dialled};
    }
  }

  lemma {:induction false} InvAlong(st: State, lost: set<nat>, ops: seq<Op>) returns (lost': set<nat>)
    requires Inv(st, lost)
    ensures Inv(AfterAll(st, ops), lost') && |lost'| == |lost| + LeaksAlong(st, ops)
    decreases |ops|
  {
    if ops == [] {
      lost' := lost;
    } else {
      InvStep(st, lost, ops[0]);
      hide Inv, After;
      lost' := InvAlong(After(st, ops[0]), if Leaks(st, ops[0]) then lost + {st.dialled} else lost, ops[1..]);
    }
  }

  lemma {:induction false} InjectiveSize(m: map<Address, nat>)
    requires forall a, b :: a in m && b in m && a != b ==> m[a] != m[b]
    ensures |m.Values| == |m|
    decreases |m|
  {
    if m != map[] {
      var a :| a in m;
      var rest := m - {a};
      InjectiveSize(rest);
      forall c | c in m.Values && c != m[a]
        ensures c in rest.Values
      {
        var k :| k in m && m[k] == c;
        assert k in rest && rest[k] == c;
      }
      assert m.Values == rest.Values + {m[a]};
      assert m.Keys == rest.Keys + {a};
    }
  }

  /** After any calls: one open client per entry of conns, and one for every subscribe that dialled and
      then failed or panicked. */
  lemma OpenClients(ops: seq<Op>)
    ensures var st := AfterAll(Init, ops);
            |st.open| == |st.conns| + LeaksAlong(Init, ops) && st.conns.Values <= st.open
  {
    var lost := InvAlong(Init, {}, ops);
    var st := AfterAll(Init, ops);
    InjectiveSize(st.conns);
    assert |st.conns.Values + lost| == |st.conns.Values| + |lost|;
  }

  /** Calls other than subscribe and subscribeCancel leave the open clients and conns alone, and so
      do those that fail without a leak. */
  lemma OthersLeaveNoTrace(st: State, op: Op)
    requires op.kind.Discover? || op.kind.Read? || op.kind.Write? || (!Ends(st, op).Done? && !Leaks(st, op))
    ensures After(st, op).open == st.open && After(st, op).conns == st.conns
  {
  }

  /** An entry of conns stays until its own subscribeCancel succeeds; it is never overwritten. */
  lemma EntriesStay(st: State, op: Op, a: Address)
    requires a in st.conns
    ensures a in After(st, op).conns ==> After(st, op).conns[a] == st.conns[a]
    ensures a !in After(st, op).conns <==> op.kind.SubscribeCancel? && op.address == a && Ends(st, op).Done?
  {
  }

  /** A client that a failed subscribe left behind stays open: no later call hangs it up. */
  lemma {:induction false} LostClientsStayOpen(st: State, lost: set<nat>, ops: seq<Op>, c: nat)
    requires Inv(st, lost) && c in lost
    ensures c in AfterAll(st, ops).open && c !in AfterAll(st, ops).conns.Values
    decreases |ops|
  {
    if ops != [] {
      InvStep(st, lost, ops[0]);
      hide Inv, After;
      LostClientsStayOpen(After(st, ops[0]), if Leaks(st, ops[0]) then lost + {st.dialled} else lost, ops[1..], c);
    }
  }
}
