/**
 internal/pkg/core/cloud/types.go.  `walk` flattens the model tree into expressions, commands and
 actions, and finds the connector of an action on a stack of subsystem ids; the stack is a Go slice
 whose backing array is shared between the levels of the recursion.  `afterWalk` and `fillPayload`
 then fill in the payload of every action, in whatever order the maps are iterated.
 */
module ModelTree {

  /** A decoded JSON value, as far as anything here looks at it. */
  datatype Json = Str(s: string) | Other(raw: string)

  /** A Go map that may be nil. */
  datatype Params = Nil | Params(entries: map<string, Json>)

  datatype Read = Read(typ: string, command: string, interval: string, expr: string)

  datatype Node = Node(
    id: string, name: string, typ: string, active: bool,
    read: Read, writeExpr: string,
    command: string, params: Params,
    children: seq<Node>)
  {
    predicate Subsystem() { typ == "subsystem" }
    predicate Action() { typ == "action" }
    predicate Reads() { read.command != "" }
    /** walk goes into its children. */
    predicate Recursed() { active && !Action() && !Reads() }
  }

  datatype Command = Command(command: string, params: Params)

  /** A JSON-RPC request before it is written out: what the payload of an action holds. */
  datatype Payload = Payload(jsonrpc: string, rpcMethod: string, params: map<string, Json>)
  datatype Body = Unfilled | Body(payload: Payload)

  datatype ActionConfig = ActionConfig(id: string, connector: string, typ: string, interval: string, body: Body)

  // ---------- what walk is for ----------

  datatype Tables = Tables(
    expr: map<string, string>,
    commands: map<string, Node>,
    acmd: map<string, Command>,
    actions: map<string, ActionConfig>)

  const EMPTY := Tables(map[], map[], map[], map[])

  datatype Effect =
    | SetExpr(key: string, code: string)
    | SetCommand(id: string, node: Node)
    | SetActionCommand(id: string, command: Command)
    | SetAction(name: string, config: ActionConfig)

  function Do(t: Tables, e: Effect): Tables {
    match e
    case SetExpr(k, code) => t.(expr := t.expr[k := code])
    case SetCommand(id, n) => t.(commands := t.commands[id := n])
    case SetActionCommand(id, c) => t.(acmd := t.acmd[id := c])
    case SetAction(name, c) => t.(actions := t.actions[name := c])
  }

  function DoAll(t: Tables, es: seq<Effect>): Tables
    decreases |es|
  {
    if es == [] then t else DoAll(Do(t, es[0]), es[1..])
  }

  function Exprs(c: Node): seq<Effect> {
    (if c.read.expr != "" then [SetExpr("read." + c.id, c.read.expr)] else []) +
    (if c.writeExpr != "" then [SetExpr("write." + c.id, c.writeExpr)] else [])
  }

  /** The children of a read node that define its command, active or not; the last one wins. */
  function CommandDefs(c: Node, children: seq<Node>): seq<Effect> {
    if children == [] then []
    else
      var cc := children[0];
      (if cc.id == c.read.command then [SetActionCommand(c.id, Command(cc.command, cc.params))] else [])
      + CommandDefs(c, children[1..])
  }

  function ConfigOf(c: Node, connector: string): ActionConfig {
    ActionConfig(c.id, connector, c.read.typ, c.read.interval, Unfilled)
  }

  lemma {:induction false} DoAllConcat(t: Tables, a: seq<Effect>, b: seq<Effect>)
    ensures DoAll(t, a + b) == DoAll(DoAll(t, a), b)
    decreases |a|
  {
    if a == [] {
      assert a + b == b;
    } else {
      assert (a + b)[1..] == a[1..] + b;
      DoAllConcat(Do(t, a[0]), a[1..], b);
    }
  }

  /** The effects of a node, the nearest enclosing subsystem being `connector`. */
  function NodeEffects(connector: string, c: Node): seq<Effect>
    decreases c, 1
  {
    if !c.active then []
    else if c.Action() then [SetCommand(c.id, c.(children := []))]
    else if c.Reads() then Exprs(c) + (CommandDefs(c, c.children) + [SetAction(c.name, ConfigOf(c, connector))])
    else Exprs(c) + Effects(if c.Subsystem() then c.id else connector, c.children)
  }

  function Effects(connector: string, children: seq<Node>): seq<Effect>
    decreases children, 0
  {
    if children == [] then [] else NodeEffects(connector, children[0]) + Effects(connector, children[1..])
  }

  // ---------- what walk does ----------

  /** A []string seen from its first entry: `mem` runs to its capacity, the first `len` entries are its
      contents.  Slices that share an array share its `mem`. */
  datatype Stack = Stack(mem: seq<string>, len: nat)

  predicate ValidStack(s: Stack) {
    s.len <= |s.mem|
  }

  function Ids(s: Stack): seq<string>
    requires ValidStack(s)
  {
    s.mem[..s.len]
  }

  /** append(s, id); a full stack moves to a new array.  `extra` is the growth policy of the runtime. */
  function Pushed(s: Stack, id: string, extra: nat -> nat): (r: Stack)
    requires ValidStack(s)
    ensures ValidStack(r) && Ids(r) == Ids(s) + [id]
    ensures s.len < |s.mem| ==> |r.mem| == |s.mem| && Ids(s) == r.mem[..s.len]
  {
    if s.len < |s.mem| then Stack(s.mem[s.len := id], s.len + 1)
    else
      var r := s.mem + [id] + seq(extra(s.len + 1), _ => "");
      assert r[..s.len + 1] == s.mem + [id];
      Stack(r, s.len + 1)
  }

  /** One turn of the loop of walk: the stack becomes `next`, in a new array if it `moved`; the array it
      came in holds `caller` then.  `ok` is false when it indexes the empty stack. */
  datatype Turn = Turn(ok: bool, next: Stack, moved: bool, caller: seq<string>, effects: seq<Effect>)

  /** A whole call: the final length of its local stack, and what the array it was given holds then. */
  datatype Walked = Walked(ok: bool, end: nat, caller: seq<string>, effects: seq<Effect>)

  function TurnOf(s: Stack, c: Node, extra: nat -> nat): (t: Turn)
    requires ValidStack(s)
    ensures ValidStack(t.next) && |t.caller| == |s.mem|
    ensures !t.moved ==> t.next.mem == t.caller
    decreases c, 1
  {
    if !c.active then Turn(true, s, false, s.mem, [])
    else if c.Action() then Turn(true, s, false, s.mem, [SetCommand(c.id, c.(children := []))])
    else
      var q := if c.Subsystem() then Pushed(s, c.id, extra) else s;
      var moved := c.Subsystem() && s.len == |s.mem|;
      if c.Reads() then
        if q.len == 0 then Turn(false, q, moved, s.mem, Exprs(c))
        else
          Turn(true, q, moved, if moved then s.mem else q.mem,
               Exprs(c) + (CommandDefs(c, c.children) + [SetAction(c.name, ConfigOf(c, q.mem[q.len - 1]))]))
      else
        var w := WalkOf(q, c.children, extra);
        Turn(w.ok, Stack(w.caller, if w.ok && q.len > 0 then q.len - 1 else q.len), moved,
             if moved then s.mem else w.caller, Exprs(c) + w.effects)
  }

  function WalkOf(s: Stack, children: seq<Node>, extra: nat -> nat): (w: Walked)
    requires ValidStack(s)
    ensures |w.caller| == |s.mem|
    decreases children, 0
  {
    if children == [] then Walked(true, s.len, s.mem, [])
    else
      var t := TurnOf(s, children[0], extra);
      if !t.ok then Walked(false, 0, t.caller, t.effects)
      else
        var w := WalkOf(t.next, children[1..], extra);
        Walked(w.ok, w.end, if t.moved then t.caller else w.caller, t.effects + w.effects)
  }

  // ---------- which trees walk gets right ----------

  /** The length of the stack after a child: up for a subsystem, down for every child it goes into. */
  function Depth1(n: nat, c: Node): nat {
    if !c.active then n
    else
      var up := if c.Subsystem() then n + 1 else n;
      if c.Recursed() && up > 0 then up - 1 else up
  }

  function DepthAfter(n: nat, children: seq<Node>): nat
    decreases |children|
  {
    if children == [] then n else DepthAfter(Depth1(n, children[0]), children[1..])
  }

  /** No read node is met with an empty stack. */
  predicate Safe1(n: nat, c: Node)
    decreases c, 1
  {
    c.active && !c.Action() ==>
      var up := if c.Subsystem() then n + 1 else n;
      if c.Reads() then up > 0 else Safe(up, c.children)
  }

  predicate Safe(n: nat, children: seq<Node>)
    decreases children, 0
  {
    children != [] ==> Safe1(n, children[0]) && Safe(Depth1(n, children[0]), children[1..])
  }

  /** The trees the stack discipline is made for: walk goes into subsystems only, a subsystem has no
      read command, and a read node has a subsystem above it. */
  predicate WellShaped(enclosed: bool, children: seq<Node>)
    decreases children, 0
  {
    children != [] ==> WellShaped1(enclosed, children[0]) && WellShaped(enclosed, children[1..])
  }

  predicate WellShaped1(enclosed: bool, c: Node)
    decreases c, 1
  {
    c.active && !c.Action() ==>
      if c.Subsystem() then !c.Reads() && WellShaped(true, c.children)
      else c.Reads() && enclosed
  }

  lemma {:induction false} WellShapedIsSafe(n: nat, children: seq<Node>)
    requires WellShaped(n > 0, children)
    ensures Safe(n, children) && DepthAfter(n, children) == n
    decreases children, 0
  {
    if children != [] {
      WellShapedIsSafe1(n, children[0]);
      WellShapedIsSafe(n, children[1..]);
    }
  }

  lemma {:induction false} WellShapedIsSafe1(n: nat, c: Node)
    requires WellShaped1(n > 0, c)
    ensures Safe1(n, c) && Depth1(n, c) == n
    decreases c, 1
  {
    if c.active && !c.Action() && c.Subsystem() {
      WellShapedIsSafe(n + 1, c.children);
    }
  }

  /** It panics on exactly the trees that are not safe, and its stack ends as long as computed. */
  lemma {:induction false} WalkIsSafe(s: Stack, children: seq<Node>, extra: nat -> nat)
    requires ValidStack(s)
    ensures var w := WalkOf(s, children, extra);
            (w.ok <==> Safe(s.len, children)) && (w.ok ==> w.end == DepthAfter(s.len, children))
    decreases children, 0
  {
    if children != [] {
      TurnIsSafe(s, children[0], extra);
      if Safe1(s.len, children[0]) {
        WalkIsSafe(TurnOf(s, children[0], extra).next, children[1..], extra);
      }
    }
  }

  lemma {:induction false} TurnIsSafe(s: Stack, c: Node, extra: nat -> nat)
    requires ValidStack(s)
    ensures var t := TurnOf(s, c, extra);
            (t.ok <==> Safe1(s.len, c)) && (t.ok ==> t.next.len == Depth1(s.len, c))
    decreases c, 1
  {
    if c.Recursed() {
      WalkIsSafe(if c.Subsystem() then Pushed(s, c.id, extra) else s, c.children, extra);
    }
  }

  /** The connector a read node takes: the top of the stack. */
  function Top(s: Stack): string
    requires ValidStack(s)
  {
    if s.len == 0 then "" else s.mem[s.len - 1]
  }

  /** Every read node finds its nearest enclosing subsystem on top of the stack. */
  predicate Attended1(s: Stack, connector: string, c: Node, extra: nat -> nat)
    requires ValidStack(s)
    decreases c, 1
  {
    c.active && !c.Action() ==>
      var q := if c.Subsystem() then Pushed(s, c.id, extra) else s;
      if c.Reads() then q.len > 0 && Top(q) == connector
      else Attended(q, if c.Subsystem() then c.id else connector, c.children, extra)
  }

  predicate Attended(s: Stack, connector: string, children: seq<Node>, extra: nat -> nat)
    requires ValidStack(s)
    decreases children, 0
  {
    children != [] ==>
      && Attended1(s, connector, children[0], extra)
      && Attended(TurnOf(s, children[0], extra).next, connector, children[1..], extra)
  }

  lemma SameHalves<T>(a: seq<T>, b: seq<T>, c: seq<T>, d: seq<T>)
    requires |a| == |c|
    ensures a + b == c + d <==> a == c && b == d
  {
    if a + b == c + d {
      assert a == (a + b)[..|a|] && b == (a + b)[|a|..];
    }
  }

  /** A walk gives every action its nearest enclosing subsystem as connector exactly when every read
      node finds that one on top of the stack. */
  lemma {:induction false} WalkIsRightIff(s: Stack, connector: string, children: seq<Node>, extra: nat -> nat)
    requires ValidStack(s)
    ensures var w := WalkOf(s, children, extra);
            && (w.ok && w.effects == Effects(connector, children) <==> Attended(s, connector, children, extra))
            && (w.ok ==> |w.effects| == |Effects(connector, children)|)
    decreases children, 0
  {
    if children != [] {
      var c, rest := children[0], children[1..];
      var t := TurnOf(s, c, extra);
      TurnIsRightIff(s, connector, c, extra);
      WalkIsRightIff(t.next, connector, rest, extra);
      if t.ok {
        SameHalves(t.effects, WalkOf(t.next, rest, extra).effects, NodeEffects(connector, c), Effects(connector, rest));
      }
    }
  }

  lemma ReadIsRightIff(c: Node, x: string, y: string)
    ensures var a, b := SetAction(c.name, ConfigOf(c, x)), SetAction(c.name, ConfigOf(c, y));
            Exprs(c) + (CommandDefs(c, c.children) + [a]) == Exprs(c) + (CommandDefs(c, c.children) + [b]) <==> x == y
  {
    var a, b := SetAction(c.name, ConfigOf(c, x)), SetAction(c.name, ConfigOf(c, y));
    SameHalves(Exprs(c), CommandDefs(c, c.children) + [a], Exprs(c), CommandDefs(c, c.children) + [b]);
    SameHalves(CommandDefs(c, c.children), [a], CommandDefs(c, c.children), [b]);
    assert [a] == [b] <==> a == b;
  }

  lemma {:induction false} TurnIsRightIff(s: Stack, connector: string, c: Node, extra: nat -> nat)
    requires ValidStack(s)
    ensures var t := TurnOf(s, c, extra);
            && (t.ok && t.effects == NodeEffects(connector, c) <==> Attended1(s, connector, c, extra))
            && (t.ok ==> |t.effects| == |NodeEffects(connector, c)|)
    decreases c, 1
  {
    if c.active && !c.Action() {
      var q := if c.Subsystem() then Pushed(s, c.id, extra) else s;
      if c.Reads() {
        hide Exprs, CommandDefs;
        ReadIsRightIff(c, Top(q), connector);
      } else {
        hide Exprs;
        var inner := if c.Subsystem() then c.id else connector;
        WalkIsRightIff(q, inner, c.children, extra);
        SameHalves(Exprs(c), WalkOf(q, c.children, extra).effects, Exprs(c), Effects(inner, c.children));
      }
    }
  }

  /** On well-shaped trees all of that holds, and the entries of the caller's stack stay as they were. */
  lemma {:induction false} WellShapedIsAttended(s: Stack, children: seq<Node>, extra: nat -> nat)
    requires ValidStack(s) && WellShaped(s.len > 0, children)
    ensures Attended(s, Top(s), children, extra)
    ensures WalkOf(s, children, extra).ok && WalkOf(s, children, extra).caller[..s.len] == Ids(s)
    decreases children, 0
  {
    if children != [] {
      WellShapedTurn(s, children[0], extra);
      var t := TurnOf(s, children[0], extra);
      WellShapedIsAttended(t.next, children[1..], extra);
    }
  }

  lemma {:induction false} WellShapedTurn(s: Stack, c: Node, extra: nat -> nat)
    requires ValidStack(s) && WellShaped1(s.len > 0, c)
    ensures var t := TurnOf(s, c, extra);
            && Attended1(s, Top(s), c, extra)
            && t.ok && t.next.len == s.len && Ids(t.next) == t.caller[..s.len] == Ids(s)
    decreases c, 1
  {
    if c.Recursed() {
      var q := Pushed(s, c.id, extra);
      WellShapedIsAttended(q, c.children, extra);
      assert WalkOf(q, c.children, extra).caller[..s.len] == Ids(q)[..s.len] == Ids(s);
    }
  }

  lemma WellShapedWalk(s: Stack, children: seq<Node>, extra: nat -> nat)
    requires ValidStack(s) && WellShaped(s.len > 0, children)
    ensures var w := WalkOf(s, children, extra);
            w.ok && w.end == s.len && w.caller[..s.len] == Ids(s) && w.effects == Effects(Top(s), children)
  {
    WellShapedIsSafe(s.len, children);
    WalkIsSafe(s, children, extra);
    WellShapedIsAttended(s, children, extra);
    WalkIsRightIff(s, Top(s), children, extra);
  }

  // ---------- what afterWalk is for ----------

  /** Decoding the text of a payload; None when it is not the JSON of a request. */
  datatype Decoded = Malformed | Request(payload: Payload)
  type Decoder = string -> Decoded

  /** The slice vv[2:len(vv)-2] of the code is in range for every such value. */
  predicate IsPlaceholder(v: string): (p: bool)
    ensures p ==> 2 <= |v| - 2
  {
    |v| >= 2 && v[0] == v[1] == '{' && v[|v| - 2] == v[|v| - 1] == '}'
  }

  datatype Filled = Missing | Value(json: Json)

  function FillParam(k: string, v: Json, data: map<string, Json>): Filled {
    if k == "_cancel" then Value(v)
    else if !v.Str? then Missing
    else if !IsPlaceholder(v.s) then Value(v)
    else
      var key := v.s[2..|v.s| - 2];
      if key in data then Value(data[key]) else Missing
  }

  predicate AllFilled(params: map<string, Json>, data: map<string, Json>) {
    forall k :: k in params ==> FillParam(k, params[k], data).Value?
  }

  function FillParams(params: map<string, Json>, data: map<string, Json>): map<string, Json>
    requires AllFilled(params, data)
  {
    map k | k in params :: FillParam(k, params[k], data).json
  }

  const PARENT := "node.parent.id"

  function Bind(id: string, c: Command): Command {
    if c.params.Nil? then c else c.(params := Params(c.params.entries[PARENT := Str(id)]))
  }

  /** A missing entry of acmd reads as the zero value. */
  function CommandOf(acmd: map<string, Command>, id: string): Command {
    if id in acmd then acmd[id] else Command("", Nil)
  }

  datatype Prepared = Ready(action: ActionConfig) | Broken | Panics

  /** What should become of one action, whatever happens to the others. */
  function Prepare1(decode: Decoder, commands: map<string, Node>, acmd: map<string, Command>, a: ActionConfig): Prepared
  {
    var c := CommandOf(acmd, a.id);
    if c.command !in commands then Broken
    else
      var def := commands[c.command].params;
      if def.Nil? || "payload" !in def.entries || !def.entries["payload"].Str? then Broken
      else if c.params.Nil? then Panics
      else
        var data := Bind(a.id, c).params.entries;
        match decode(def.entries["payload"].s)
        case Malformed => Broken
        case Request(p) =>
          if AllFilled(p.params, data) then Ready(a.(body := Body(p.(params := FillParams(p.params, data)))))
          else Broken
  }
}
