/**
 The last known value of every parameter, kept three times: in the memory of the state service
 (pkg/store/state/state.go), in the database bucket behind it, and with whoever listens to what
 `sendState` of internal/app/core/rpc/interceptor.go publishes.  Values are decoded JSON; encoding is
 taken as lossless.
 */
module StateStore {

  type Value = string

  /** objx takes '.' and '[' in a key for a selector. */
  predicate SelectorFree(key: string) {
    '.' !in key && '[' !in key
  }

  /** strings.TrimPrefix(parent, "edge.") */
  function Topic(key: string): string {
    if "edge." <= key then key[|"edge."|..] else key
  }

  lemma EdgeHasDot(key: string)
    ensures "edge." <= key ==> '.' in key
  {
    if "edge." <= key {
      assert key[4] == '.';
    }
  }

  lemma TopicIsKey(key: string)
    requires SelectorFree(key)
    ensures Topic(key) == key
  {
    EdgeHasDot(key);
  }

  lemma TopicDropsEdge(key: string)
    ensures Topic("edge." + key) == key
    ensures !("edge." <= key) ==> Topic(key) == key
  {
    assert "edge." <= "edge." + key;
  }

  // ---------- the code ----------

  datatype Bucket = NoBucket | Bucket(entries: map<string, Value>)

  /** The database file, with the bucket "state" in it. */
  class Database {
    var bucket: Bucket

    constructor (bucket: Bucket)
      ensures this.bucket == bucket
    {
      this.bucket := bucket;
    }
  }

  function Kept(b: Bucket, cleanStart: bool): map<string, Value> {
    if cleanStart || b.NoBucket? then map[] else b.entries
  }

  class Service {
    const db: Database
    var state: map<string, Value>

    ghost predicate Valid()
      reads this, db
    {
      db.bucket.Bucket?
    }

    /** NewService, when the database does not fail: the bucket is emptied on a clean start, created
        if there is none, and copied into memory. */
    constructor (db: Database, cleanStart: bool)
      modifies db
      ensures Valid() && this.db == db
      ensures state == db.bucket.entries == Kept(old(db.bucket), cleanStart)
      ensures cleanStart || old(db.bucket).NoBucket? ==> state == map[]
      ensures !cleanStart && old(db.bucket).Bucket? ==> state == old(db.bucket).entries
    {
      this.db := db;
      state := map[];
      new;
      if cleanStart {
        db.bucket := NoBucket;
      }
      if db.bucket.NoBucket? {
        db.bucket := Bucket(map[]);
      }
      state := GetAll();
    }

    /** getAll; the order of ForEach does not matter. */
    method GetAll() returns (values: map<string, Value>)
      requires Valid()
      ensures values == db.bucket.entries
    {
      values := map[];
      var todo := db.bucket.entries.Keys;
      while todo != {}
        invariant todo <= db.bucket.entries.Keys && values.Keys == db.bucket.entries.Keys - todo
        invariant forall k :: k in values ==> values[k] == db.bucket.entries[k]
        decreases todo
      {
        var k :| k in todo;
        values := values[k := db.bucket.entries[k]];
        todo := todo - {k};
      }
    }

    /** Set; `saved` says whether the database update succeeds. */
    method Set(key: string, v: Value, saved: bool) returns (ok: bool)
      requires Valid()
      modifies this`state, db
      ensures Valid() && ok == saved
      ensures state == old(state)[key := v]
      ensures db.bucket.entries == if saved then old(db.bucket.entries)[key := v] else old(db.bucket.entries)
    {
      state := state[key := v];
      if !saved {
        return false;
      }
      db.bucket := Bucket(db.bucket.entries[key := v]);
      ok := true;
    }
  }

  /** Who stores a value: requestsListener gives up when Set fails, prepareResponse publishes all the same. */
  datatype Origin = Listener | Response

  /** The core, as far as state goes: the service and what was published, by topic, last. */
  class Core {
    const store: Service
    var published: map<string, Value>

    constructor (store: Service)
      ensures this.store == store && published == map[]
    {
      this.store := store;
      published := map[];
    }

    ghost function View(): State
      requires store.Valid()
      reads this, store, store.db
    {
      Quiet(store.state, store.db.bucket.entries, published)
    }

    /** The update at the end of requestsListener and of prepareResponse, uninterrupted. */
    method Update(origin: Origin, key: string, v: Value, saved: bool)
      requires store.Valid()
      modifies this, store`state, store.db
      ensures store.Valid()
      ensures store.state == old(store.state)[key := v]
      ensures saved ==> store.db.bucket.entries == old(store.db.bucket.entries)[key := v]
      ensures !saved ==> store.db.bucket.entries == old(store.db.bucket.entries)
      ensures saved || origin.Response? ==> published == old(published)[Topic(key) := v]
      ensures !saved && origin.Listener? ==> published == old(published)
      ensures View() == Finished(old(View()), origin, key, v, saved)
      ensures Leads(Anything, old(View()), UpdateSteps(origin, key, v, saved), Noted(View(), origin, key, v, saved))
    {
      UpdateRun(View(), origin, key, v, saved);
      hide Leads;
      var ok := store.Set(key, v, saved);
      if !ok && origin.Listener? {
        return;
      }
      published := published[Topic(key) := v];
    }
  }

  // ---------- interleaved updates ----------

  datatype UpdatePc = Storing | Saving | Publishing | Over

  datatype Update = Update(origin: Origin, key: string, value: Value, pc: UpdatePc)

  datatype State = State(
    mem: map<string, Value>, db: map<string, Value>, published: map<string, Value>, updates: seq<Update>,
    stored: map<string, nat>,               // history: the update that last stored a key
    saved: map<string, nat>,                // history: the update that last saved a key
    told: map<string, nat>)                 // history: the update that last published under a topic

  function Quiet(mem: map<string, Value>, db: map<string, Value>, published: map<string, Value>): State {
    State(mem, db, published, [], map[], map[], map[])
  }

  datatype Step =
    | Begin(origin: Origin, key: string, value: Value)
    | Store(u: nat)
    | Save(u: nat, ok: bool)
    | Publish(u: nat)

  predicate Enabled(st: State, step: Step) {
    match step
    case Begin(_, _, _) => true
    case Store(u) => u < |st.updates| && st.updates[u].pc.Storing?
    case Save(u, _) => u < |st.updates| && st.updates[u].pc.Saving?
    case Publish(u) => u < |st.updates| && st.updates[u].pc.Publishing?
  }

  function Goto(st: State, u: nat, pc: UpdatePc): State
    requires u < |st.updates|
  {
    st.(updates := st.updates[u := st.updates[u].(pc := pc)])
  }

  function Apply(st: State, step: Step): State
    requires Enabled(st, step)
  {
    match step
    case Begin(origin, key, v) => st.(updates := st.updates + [Update(origin, key, v, Storing)])
    case Store(u) =>
      var x := st.updates[u];
      Goto(st, u, Saving).(mem := st.mem[x.key := x.value], stored := st.stored[x.key := u])
    case Save(u, ok) =>
      var x := st.updates[u];
      if ok then Goto(st, u, Publishing).(db := st.db[x.key := x.value], saved := st.saved[x.key := u])
      else Goto(st, u, if x.origin.Listener? then Over else Publishing)
    case Publish(u) =>
      var x := st.updates[u];
      Goto(st, u, Over).(published := st.published[Topic(x.key) := x.value], told := st.told[Topic(x.key) := u])
  }

  type Rule = (State, Step) -> bool

  ghost predicate Leads(rule: Rule, st: State, steps: seq<Step>, st': State)
    decreases |steps|
  {
    if steps == [] then st' == st
    else Enabled(st, steps[0]) && rule(st, steps[0]) && Leads(rule, Apply(st, steps[0]), steps[1..], st')
  }

  predicate Anything(st: State, step: Step) {
    true
  }

  lemma {:induction false} OneStepMore(rule: Rule, st: State, steps: seq<Step>, st': State, step: Step)
    requires Leads(rule, st, steps, st') && Enabled(st', step) && rule(st', step)
    ensures Leads(rule, st, steps + [step], Apply(st', step))
    decreases |steps|
  {
    if steps == [] {
      assert [step][1..] == [];
      assert Leads(rule, Apply(st', step), [], Apply(st', step));
      assert steps + [step] == [step];
    } else {
      hide Apply, Enabled;
      OneStepMore(rule, Apply(st, steps[0]), steps[1..], st', step);
      assert (steps + [step])[1..] == steps[1..] + [step];
    }
  }

  /** A run under construction. */
  lemma Then(rule: Rule, from: State, steps: seq<Step>, st: State, step: Step) returns (steps': seq<Step>, st': State)
    requires Leads(rule, from, steps, st) && Enabled(st, step) && rule(st, step)
    ensures steps' == steps + [step] && st' == Apply(st, step) && Leads(rule, from, steps', st')
  {
    OneStepMore(rule, from, steps, st, step);
    steps', st' := steps + [step], Apply(st, step);
  }

  function UpdateSteps(origin: Origin, key: string, v: Value, saved: bool): seq<Step> {
    [Begin(origin, key, v), Store(0), Save(0, saved)] + if saved || origin.Response? then [Publish(0)] else []
  }

  function Finished(st: State, origin: Origin, key: string, v: Value, saved: bool): State {
    Quiet(st.mem[key := v],
          if saved then st.db[key := v] else st.db,
          if saved || origin.Response? then st.published[Topic(key) := v] else st.published)
  }

  /** The same with the one update that led there. */
  function Noted(st: State, origin: Origin, key: string, v: Value, saved: bool): State {
    st.(updates := [Update(origin, key, v, Over)], stored := map[key := 0],
        saved := if saved then map[key := 0] else map[],
        told := if saved || origin.Response? then map[Topic(key) := 0] else map[])
  }

  lemma UpdateRun(st: State, origin: Origin, key: string, v: Value, saved: bool)
    requires st == Quiet(st.mem, st.db, st.published)
    ensures Leads(Anything, st, UpdateSteps(origin, key, v, saved),
                  Noted(Finished(st, origin, key, v, saved), origin, key, v, saved))
  {
    assert Leads(Anything, st, [], st);
    hide Leads;
    var steps, end := Then(Anything, st, [], st, Begin(origin, key, v));
    assert end.updates == [Update(origin, key, v, Storing)];
    steps, end := Then(Anything, st, steps, end, Store(0));
    steps, end := Then(Anything, st, steps, end, Save(0, saved));
    hide Apply, Enabled;
    steps, end := UpdateEnds(st, steps, end, origin, key, v, saved);
  }

  lemma UpdateEnds(from: State, begun: seq<Step>, st: State, origin: Origin, key: string, v: Value, saved: bool)
    returns (steps: seq<Step>, end: State)
    requires Leads(Anything, from, begun, st) && begun == [Begin(origin, key, v), Store(0), Save(0, saved)]
    requires from == Quiet(from.mem, from.db, from.published) && st.mem == from.mem[key := v]
    requires st.db == (if saved then from.db[key := v] else from.db) && st.published == from.published
    requires st.updates == [Update(origin, key, v, if saved || origin.Response? then Publishing else Over)]
    requires st.stored == map[key := 0] && st.saved == (if saved then map[key := 0] else map[]) && st.told == map[]
    ensures Leads(Anything, from, steps, end)
    ensures steps == UpdateSteps(origin, key, v, saved)
    ensures end == Noted(Finished(from, origin, key, v, saved), origin, key, v, saved)
  {
    hide Leads;
    steps, end := begun, st;
    if saved || origin.Response? {
      steps, end := Then(Anything, from, begun, st, Publish(0));
    }
  }

  predicate InFlight(x: Update, key: string) {
    x.key == key && !x.pc.Over?
  }

  /** No update of the key starts while another one is under way; no Set fails; keys have no selectors. */
  predicate Apart(key: string, st: State, step: Step) {
    && (step.Begin? ==> SelectorFree(step.key))
    && (step.Begin? && step.key == key ==> forall u :: 0 <= u < |st.updates| ==> !InFlight(st.updates[u], key))
    && (step.Save? ==> step.ok)
  }

  function Look(m: map<string, Value>, key: string): seq<Value> {
    if key in m then [m[key]] else []
  }

  /** The three copies of a key agree; nothing is published before the first update. */
  predicate Agree(st: State, key: string) {
    && Look(st.mem, key) == Look(st.db, key)
    && (key in st.published ==> Look(st.mem, key) == [st.published[key]])
  }

  /** Update number cur is the one of the key that is under way; -1 when there is none. */
  ghost predicate InvAt(key: string, st: State, cur: int) {
    && -1 <= cur < |st.updates|
    && (forall u :: 0 <= u < |st.updates| ==> SelectorFree(st.updates[u].key))
    && (forall u :: 0 <= u < |st.updates| ==> (InFlight(st.updates[u], key) <==> u == cur))
    && (forall u :: 0 <= u < |st.updates| && st.updates[u].key == key && st.updates[u].pc.Over? ==> key in st.published)
    && if cur == -1 || st.updates[cur].pc.Storing? then Agree(st, key)
       else
         && Look(st.mem, key) == [st.updates[cur].value]
         && (st.updates[cur].pc.Publishing? ==> Look(st.db, key) == [st.updates[cur].value])
  }

  ghost predicate Inv(key: string, st: State) {
    exists cur :: InvAt(key, st, cur)
  }

  lemma InvStep(key: string, st: State, step: Step)
    requires Inv(key, st) && Enabled(st, step) && Apart(key, st, step)
    ensures Inv(key, Apply(st, step))
  {
    var cur :| InvAt(key, st, cur);
    hide InvAt;
    match step
    case Begin(_, k, _) => InvBegin(key, st, step, cur);
    case Store(u) => InvStore(key, st, u, cur);
    case Save(u, _) => InvSave(key, st, u, cur);
    case Publish(u) => InvPublish(key, st, u, cur);
  }

  lemma InvBegin(key: string, st: State, step: Step, cur: int)
    requires InvAt(key, st, cur) && step.Begin? && Apart(key, st, step)
    ensures InvAt(key, Apply(st, step), if step.key == key then |st.updates| else cur)
  {
  }

  lemma InvStore(key: string, st: State, u: nat, cur: int)
    requires InvAt(key, st, cur) && Enabled(st, Store(u))
    ensures InvAt(key, Apply(st, Store(u)), cur)
  {
  }

  lemma InvSave(key: string, st: State, u: nat, cur: int)
    requires InvAt(key, st, cur) && Enabled(st, Save(u, true))
    ensures InvAt(key, Apply(st, Save(u, true)), cur)
  {
  }

  lemma InvPublish(key: string, st: State, u: nat, cur: int)
    requires InvAt(key, st, cur) && Enabled(st, Publish(u))
    ensures InvAt(key, Apply(st, Publish(u)), if u == cur then -1 else cur)
  {
    TopicIsKey(st.updates[u].key);
  }

  lemma {:induction false} InvAlong(key: string, st: State, steps: seq<Step>, st': State)
    requires Inv(key, st) && Leads((s, x) => Apart(key, s, x), st, steps, st')
    ensures Inv(key, st')
    decreases |steps|
  {
    if steps != [] {
      hide Inv, Apply, Enabled, Apart;
      InvStep(key, st, steps[0]);
      InvAlong(key, Apply(st, steps[0]), steps[1..], st');
    }
  }

  /** A key whose updates did not overlap has one value in all three places whenever none of them is
      under way, however the updates of other keys interleave with them. */
  lemma AgreeWhenQuiet(start: map<string, Value>, steps: seq<Step>, st: State, key: string)
    requires Leads((s, x) => Apart(key, s, x), Quiet(start, start, map[]), steps, st)
    requires forall u :: 0 <= u < |st.updates| ==> !InFlight(st.updates[u], key)
    ensures Agree(st, key)
    ensures (exists u :: 0 <= u < |st.updates| && st.updates[u].key == key) ==> key in st.published
  {
    assert InvAt(key, Quiet(start, start, map[]), -1);
    InvAlong(key, Quiet(start, start, map[]), steps, st);
  }

  predicate AllApart(st: State, step: Step) {
    step.Begin? ==> Apart(step.key, st, step)
  }

  lemma {:induction false} ApartForEach(key: string, st: State, steps: seq<Step>, st': State)
    requires Leads((s, x) => AllApart(s, x) && (x.Save? ==> x.ok), st, steps, st')
    ensures Leads((s, x) => Apart(key, s, x), st, steps, st')
    decreases |steps|
  {
    if steps != [] {
      ApartForEach(key, Apply(st, steps[0]), steps[1..], st');
    }
  }

  /** After such a run for every key, a restart without clean start loads the very map that was in memory. */
  lemma RestartKeepsState(start: map<string, Value>, steps: seq<Step>, st: State)
    requires Leads((s, x) => AllApart(s, x) && (x.Save? ==> x.ok), Quiet(start, start, map[]), steps, st)
    requires forall u :: 0 <= u < |st.updates| ==> st.updates[u].pc.Over?
    ensures Kept(Bucket(st.db), false) == st.db == st.mem
  {
    forall key
      ensures Look(st.db, key) == Look(st.mem, key)
    {
      ApartForEach(key, Quiet(start, start, map[]), steps, st);
      AgreeWhenQuiet(start, steps, st, key);
    }
    assert forall key :: key in st.db <==> Look(st.db, key) != [];
    assert forall key :: key in st.mem <==> Look(st.mem, key) != [];
    assert forall key :: key in st.mem ==> Look(st.mem, key)[0] == Look(st.db, key)[0];
  }

  // ---------- interleaved updates, exactly ----------

  function KeyOf(x: Update): string {
    x.key
  }

  function TopicOf(x: Update): string {
    Topic(x.key)
  }

  /** A copy holds the values of the updates that last wrote to it, and what it began with elsewhere. */
  ghost predicate Traces(start: map<string, Value>, m: map<string, Value>, who: map<string, nat>, updates: seq<Update>,
                         name: Update -> string) {
    && (forall k :: k in who ==> who[k] < |updates| && name(updates[who[k]]) == k)
    && (forall k :: Look(m, k) == if k in who then [updates[who[k]].value] else Look(start, k))
  }

  ghost predicate Traced(start: map<string, Value>, st: State) {
    && Traces(start, st.mem, st.stored, st.updates, KeyOf)
    && Traces(start, st.db, st.saved, st.updates, KeyOf)
    && Traces(map[], st.published, st.told, st.updates, TopicOf)
  }

  /** Updates only move on, and new ones come at the end. */
  predicate Grown(a: seq<Update>, b: seq<Update>) {
    && |a| <= |b|
    && forall u :: 0 <= u < |a| ==> a[u].key == b[u].key && a[u].value == b[u].value && a[u].origin == b[u].origin
  }

  lemma StepGrows(st: State, step: Step)
    requires Enabled(st, step)
    ensures Grown(st.updates, Apply(st, step).updates)
  {
    hide Topic;
    match step
    case Begin(_, _, _) =>
    case Store(u) =>
    case Save(u, _) =>
    case Publish(u) =>
  }

  lemma TracesKept(start: map<string, Value>, m: map<string, Value>, who: map<string, nat>, a: seq<Update>,
                   b: seq<Update>, name: Update -> string)
    requires Traces(start, m, who, a, name) && Grown(a, b)
    requires forall u :: 0 <= u < |a| ==> name(a[u]) == name(b[u])
    ensures Traces(start, m, who, b, name)
  {
  }

  lemma TracesWrite(start: map<string, Value>, m: map<string, Value>, who: map<string, nat>, updates: seq<Update>,
                    name: Update -> string, u: nat)
    requires Traces(start, m, who, updates, name) && u < |updates|
    ensures var x := updates[u]; Traces(start, m[name(x) := x.value], who[name(x) := u], updates, name)
  {
  }

  lemma AllKept(start: map<string, Value>, st: State, st': State, step: Step)
    requires Traced(start, st) && Enabled(st, step) && st' == Apply(st, step)
    ensures Traced(start, st.(updates := st'.updates)) && Grown(st.updates, st'.updates)
  {
    StepGrows(st, step);
    hide Traces, Apply, Enabled;
    TracesKept(start, st.mem, st.stored, st.updates, st'.updates, KeyOf);
    TracesKept(start, st.db, st.saved, st.updates, st'.updates, KeyOf);
    TracesKept(map[], st.published, st.told, st.updates, st'.updates, TopicOf);
  }

  lemma TracedStep(start: map<string, Value>, st: State, step: Step)
    requires Traced(start, st) && Enabled(st, step)
    ensures Traced(start, Apply(st, step))
  {
    hide Traces, Topic;
    var st' := Apply(st, step);
    AllKept(start, st, st', step);
    hide Grown;
    match step
    case Begin(_, _, _) =>
    case Store(u) => TracesWrite(start, st.mem, st.stored, st'.updates, KeyOf, u);
    case Save(u, _) => TracesWrite(start, st.db, st.saved, st'.updates, KeyOf, u);
    case Publish(u) => TracesWrite(map[], st.published, st.told, st'.updates, TopicOf, u);
  }

  /** No Set fails, and keys have no selectors. */
  predicate Succeeds(st: State, step: Step) {
    (step.Begin? ==> SelectorFree(step.key)) && (step.Save? ==> step.ok)
  }

  /** Each update leaves its mark where it has been. */
  ghost predicate Marked(st: State) {
    forall u :: 0 <= u < |st.updates| ==>
      var x := st.updates[u];
      && SelectorFree(x.key)
      && (!x.pc.Storing? ==> x.key in st.stored)
      && (x.pc.Publishing? || x.pc.Over? ==> x.key in st.saved)
      && (x.pc.Over? ==> x.key in st.told)
  }

  lemma MarkedStep(st: State, step: Step)
    requires Marked(st) && Enabled(st, step) && Succeeds(st, step)
    ensures Marked(Apply(st, step))
  {
    var st' := Apply(st, step);
    if step.Publish? {
      TopicIsKey(st.updates[step.u].key);
    }
    forall u | 0 <= u < |st'.updates|
      ensures var x := st'.updates[u];
              && SelectorFree(x.key)
              && (!x.pc.Storing? ==> x.key in st'.stored)
              && (x.pc.Publishing? || x.pc.Over? ==> x.key in st'.saved)
              && (x.pc.Over? ==> x.key in st'.told)
    {
      if u < |st.updates| {
        assert SelectorFree(st.updates[u].key);
      }
    }
  }

  lemma {:induction false} TracedAlong(start: map<string, Value>, st: State, steps: seq<Step>, st': State)
    requires Traced(start, st) && Marked(st) && Leads(Succeeds, st, steps, st')
    ensures Traced(start, st') && Marked(st')
    decreases |steps|
  {
    if steps != [] {
      hide Traced, Marked, Apply, Enabled, Succeeds;
      TracedStep(start, st, steps[0]);
      MarkedStep(st, steps[0]);
      TracedAlong(start, Apply(st, steps[0]), steps[1..], st');
    }
  }

  /** Whatever overlaps: a key none of whose updates is under way has one value in all three places exactly
      when the updates that were last to store, to save and to publish it carry one value. */
  lemma QuietAgreesIff(start: map<string, Value>, steps: seq<Step>, st: State, key: string, u: nat)
    requires Leads(Succeeds, Quiet(start, start, map[]), steps, st)
    requires u < |st.updates| && st.updates[u].key == key
    requires forall u :: 0 <= u < |st.updates| ==> !InFlight(st.updates[u], key)
    ensures key in st.stored && key in st.saved && key in st.told
    ensures st.stored[key] < |st.updates| && st.saved[key] < |st.updates| && st.told[key] < |st.updates|
    ensures var a, b, c := st.updates[st.stored[key]], st.updates[st.saved[key]], st.updates[st.told[key]];
            && a.key == b.key == c.key == key
            && (Agree(st, key) && key in st.published <==> a.value == b.value == c.value)
  {
    TracedAlong(start, Quiet(start, start, map[]), steps, st);
    assert st.updates[u].pc.Over?;
    assert SelectorFree(st.updates[st.told[key]].key);
    TopicIsKey(st.updates[st.told[key]].key);
    var a, b, c := st.updates[st.stored[key]], st.updates[st.saved[key]], st.updates[st.told[key]];
    assert Look(st.mem, key) == [a.value] && Look(st.db, key) == [b.value] && Look(st.published, key) == [c.value];
    assert [a.value] == [b.value] <==> a.value == b.value;
  }

  /** When no two updates of the key carry the same value, that is one update last in all three. */
  lemma LastOfAllIff(start: map<string, Value>, steps: seq<Step>, st: State, key: string, u: nat)
    requires Leads(Succeeds, Quiet(start, start, map[]), steps, st)
    requires u < |st.updates| && st.updates[u].key == key
    requires forall u :: 0 <= u < |st.updates| ==> !InFlight(st.updates[u], key)
    requires forall u, v :: 0 <= u < v < |st.updates| && st.updates[u].key == st.updates[v].key == key ==>
               st.updates[u].value != st.updates[v].value
    ensures key in st.stored && key in st.saved && key in st.told
    ensures Agree(st, key) && key in st.published <==> st.stored[key] == st.saved[key] == st.told[key]
  {
    QuietAgreesIff(start, steps, st, key, u);
  }

  // ---------- which updates can overlap ----------

  /** requestsListener is one goroutine: it ends an update before it begins the next. */
  predicate OneListener(st: State, step: Step) {
    step.Begin? && step.origin.Listener? ==>
      forall u :: 0 <= u < |st.updates| && st.updates[u].origin.Listener? ==> st.updates[u].pc.Over?
  }

  predicate AsInCode(st: State, step: Step) {
    OneListener(st, step) && Succeeds(st, step)
  }

  /** The updates of the key all come from the listener. */
  predicate FromListener(key: string, st: State, step: Step) {
    AsInCode(st, step) && (step.Begin? && step.key == key ==> step.origin.Listener?)
  }

  predicate ListenersOnly(key: string, updates: seq<Update>) {
    forall u :: 0 <= u < |updates| && updates[u].key == key ==> updates[u].origin.Listener?
  }

  lemma FromListenerStep(key: string, st: State, step: Step)
    requires ListenersOnly(key, st.updates) && Enabled(st, step) && FromListener(key, st, step)
    ensures Apart(key, st, step) && ListenersOnly(key, Apply(st, step).updates)
  {
    StepGrows(st, step);
    hide Topic;
    if !step.Begin? {
      assert |Apply(st, step).updates| == |st.updates|;
    }
  }

  /** A key that only the listener updates has no overlapping updates, so AgreeWhenQuiet is about it. */
  lemma {:induction false} ListenerIsApart(key: string, st: State, steps: seq<Step>, st': State)
    requires Leads((s, x) => FromListener(key, s, x), st, steps, st') && ListenersOnly(key, st.updates)
    ensures Leads((s, x) => Apart(key, s, x), st, steps, st')
    decreases |steps|
  {
    if steps != [] {
      hide Apply, Enabled, Apart, FromListener, ListenersOnly;
      FromListenerStep(key, st, steps[0]);
      ListenerIsApart(key, Apply(st, steps[0]), steps[1..], st');
    }
  }

  /** A notification and a response for one key overlap: memory ends with the value of the response, the
      database with that of the notification. */
  lemma OverlapDisagrees(key: string, a: Value, b: Value) returns (steps: seq<Step>, st: State)
    requires a != b && SelectorFree(key)
    ensures steps == [Begin(Listener, key, a), Begin(Response, key, b), Store(0), Store(1),
                      Save(1, true), Save(0, true), Publish(0), Publish(1)]
    ensures Leads(AsInCode, Quiet(map[], map[], map[]), steps, st)
    ensures forall u :: 0 <= u < |st.updates| ==> st.updates[u].pc.Over?
    ensures st.mem == map[key := b] && st.db == map[key := a] && !Agree(st, key)
  {
    steps, st := BothStored(key, a, b);
    hide Leads;
    steps, st := Then(AsInCode, Quiet(map[], map[], map[]), steps, st, Save(1, true));
    assert st.db == map[key := b] && st.updates[0].pc.Saving?;
    steps, st := Then(AsInCode, Quiet(map[], map[], map[]), steps, st, Save(0, true));
    assert st.updates == [Update(Listener, key, a, Publishing), Update(Response, key, b, Publishing)];
    steps, st := Then(AsInCode, Quiet(map[], map[], map[]), steps, st, Publish(0));
    assert st.updates[1] == Update(Response, key, b, Publishing);
    steps, st := Then(AsInCode, Quiet(map[], map[], map[]), steps, st, Publish(1));
    assert Look(st.mem, key) == [b] && Look(st.db, key) == [a];
  }

  lemma BothStored(key: string, a: Value, b: Value) returns (steps: seq<Step>, st: State)
    requires SelectorFree(key)
    ensures steps == [Begin(Listener, key, a), Begin(Response, key, b), Store(0), Store(1)]
    ensures Leads(AsInCode, Quiet(map[], map[], map[]), steps, st) && st.mem == map[key := b] && st.db == map[]
    ensures st.updates == [Update(Listener, key, a, Saving), Update(Response, key, b, Saving)]
  {
    assert Leads(AsInCode, Quiet(map[], map[], map[]), [], Quiet(map[], map[], map[]));
    hide Leads;
    steps, st := Then(AsInCode, Quiet(map[], map[], map[]), [], Quiet(map[], map[], map[]), Begin(Listener, key, a));
    steps, st := Then(AsInCode, Quiet(map[], map[], map[]), steps, st, Begin(Response, key, b));
    assert st.updates == [Update(Listener, key, a, Storing), Update(Response, key, b, Storing)];
    steps, st := Then(AsInCode, Quiet(map[], map[], map[]), steps, st, Store(0));
    assert st.updates == [Update(Listener, key, a, Saving), Update(Response, key, b, Storing)];
    steps, st := Then(AsInCode, Quiet(map[], map[], map[]), steps, st, Store(1));
  }
}
