/** The methods of internal/pkg/core/cloud/types.go as they read, over the maps and the arrays they update. */
module ModelTreeCode {
  import opened ModelTree
  import opened ModelTreeShape
  import opened ModelTreeTables

  /** A []string: `len` entries of `arr`, which other slices may share. */
  datatype Path = Path(arr: array<string>, len: nat)

  ghost predicate ValidPath(p: Path) {
    p.len <= p.arr.Length
  }

  ghost function View(p: Path): Stack
    requires ValidPath(p)
    reads p.arr
  {
    Stack(p.arr[..], p.len)
  }

  /** append(path, id) */
  method Append(p: Path, id: string, extra: nat -> nat) returns (r: Path)
    requires ValidPath(p)
    modifies p.arr
    ensures ValidPath(r) && View(r) == Pushed(old(View(p)), id, extra)
    ensures if p.len < p.arr.Length then r.arr == p.arr else fresh(r.arr) && p.arr[..] == old(p.arr[..])
  {
    if p.len < p.arr.Length {
      p.arr[p.len] := id;
      r := p.(len := p.len + 1);
    } else {
      var ids := p.arr[..] + [id];
      var arr := new string[p.len + 1 + extra(p.len + 1)](i requires i >= 0 => if i < |ids| then ids[i] else "");
      r := Path(arr, p.len + 1);
      assert arr[..] == ids + seq(extra(p.len + 1), _ => "");
    }
  }

  /** What is to come of a walk, `w`, is the rest of all of it, `all`; its first array is left alone once
      the stack has moved. */
  predicate ToCome(all: Walked, w: Walked, moved: bool, caller: seq<string>) {
    all.ok == w.ok && all.end == w.end && all.caller == if moved then caller else w.caller
  }

  lemma WalkUnfolds(s: Stack, children: seq<Node>, i: nat, extra: nat -> nat)
    requires ValidStack(s) && i < |children|
    ensures var t, w := TurnOf(s, children[i], extra), WalkOf(s, children[i..], extra);
            if !t.ok then w == Walked(false, 0, t.caller, t.effects)
            else
              var v := WalkOf(t.next, children[i + 1..], extra);
              w == Walked(v.ok, v.end, if t.moved then t.caller else v.caller, t.effects + v.effects)
  {
    assert children[i..][1..] == children[i + 1..] && children[i..][0] == children[i];
    hide TurnOf;
  }

  lemma WalkEnds(s: Stack, children: seq<Node>, extra: nat -> nat)
    requires ValidStack(s)
    ensures WalkOf(s, children[|children|..], extra) == Walked(true, s.len, s.mem, [])
    ensures forall t :: DoAll(t, []) == t
  {
  }

  class Model {
    var expr: map<string, string>
    var commands: map<string, Node>
    var acmd: map<string, Command>
    var actions: map<string, ActionConfig>

    ghost function Now(): Tables
      reads this
    {
      Tables(expr, commands, acmd, actions)
    }

    constructor ()
      ensures Now() == EMPTY
    {
      expr, commands, acmd, actions := map[], map[], map[], map[];
    }

    /** prepare.  `walked` is false when walk panics, `ok` when afterWalk fails. */
    method Prepare(decode: Decoder, children: seq<Node>, extra: nat -> nat) returns (walked: bool, ok: bool)
      modifies this
      ensures walked <==> Safe(0, children)
      ensures walked ==>
                var t := DoAll(EMPTY, WalkOf(Stack([], 0), children, extra).effects);
                && expr == t.expr && commands == t.commands
                && (ok <==> forall k :: k in t.actions ==> CanBePrepared(decode, t.commands, t.acmd, t.actions[k]))
                && (ok ==> actions.Keys == t.actions.Keys)
                && (ok ==> forall k :: k in actions ==>
                      IsPreparation(decode, t.commands, t.acmd, t.actions[k], actions[k]))
      ensures Shape(0, 0, false, children) ==> walked && (ok ==> ListsReadNodes(children, actions))
    {
      expr, commands, acmd, actions := map[], map[], map[], map[];
      var none := new string[0];
      var nilPath := Path(none, 0);
      assert View(nilPath) == Stack([], 0);
      WalkIsSafe(Stack([], 0), children, extra);
      if Shape(0, 0, false, children) {
        ShapeIsRight(children, extra);
      }
      var end;
      walked, end := Walk(nilPath, children, extra);
      if !walked {
        return false, false;
      }
      ghost var t := Now();
      hide CanBePrepared, ListsReadNodes, Shape, Effects, DoAll, Safe, WalkOf, BindAll;
      var failure;
      failure, ok := AfterWalk(decode);
      if Shape(0, 0, false, children) && ok {
        PreparedReadNodes(children, t.actions, actions);
      }
    }

    method FindCommand(c: Node)
      modifies this`acmd
      ensures Now() == DoAll(old(Now()), CommandDefs(c, c.children))
      ensures forall i :: DefinedBy(c, c.children, i) ==>
                acmd == old(acmd)[c.id := Command(c.children[i].command, c.children[i].params)]
      ensures (forall i :: 0 <= i < |c.children| ==> c.children[i].id != c.read.command) ==> acmd == old(acmd)
    {
      ghost var before := Now();
      for i := 0 to |c.children|
        invariant DoAll(Now(), CommandDefs(c, c.children[i..])) == DoAll(old(Now()), CommandDefs(c, c.children))
        invariant expr == old(expr) && commands == old(commands) && actions == old(actions)
      {
        var cc := c.children[i];
        assert c.children[i..][1..] == c.children[i + 1..];
        ghost var rest := CommandDefs(c, c.children[i + 1..]);
        if cc.id == c.read.command {
          ghost var e := SetActionCommand(c.id, Command(cc.command, cc.params));
          assert CommandDefs(c, c.children[i..]) == [e] + rest;
          assert ([e] + rest)[1..] == rest;
          acmd := acmd[c.id := Command(cc.command, cc.params)];
        } else {
          assert CommandDefs(c, c.children[i..]) == [] + rest == rest;
        }
      }
      forall i | DefinedBy(c, c.children, i)
        ensures acmd == before.acmd[c.id := Command(c.children[i].command, c.children[i].params)]
      {
        CommandIsTheLastChild(before, c, c.children, i);
      }
      CommandIsTheLastChild(before, c, c.children, 0);
    }

    method AddExprs(c: Node)
      modifies this`expr
      ensures Now() == DoAll(old(Now()), Exprs(c))
    {
      DoAllConcat(Now(), if c.read.expr != "" then [SetExpr("read." + c.id, c.read.expr)] else [],
                  if c.writeExpr != "" then [SetExpr("write." + c.id, c.writeExpr)] else []);
      if c.read.expr != "" {
        expr := expr["read." + c.id := c.read.expr];
      }
      if c.writeExpr != "" {
        expr := expr["write." + c.id := c.writeExpr];
      }
    }

    /** The action of a read node, and its command. */
    method AddAction(c: Node, connector: string)
      modifies this`acmd, this`actions
      ensures Now() == DoAll(old(Now()), CommandDefs(c, c.children) + [SetAction(c.name, ConfigOf(c, connector))])
    {
      ghost var last := [SetAction(c.name, ConfigOf(c, connector))];
      DoAllConcat(Now(), CommandDefs(c, c.children), last);
      assert last[1..] == [];
      FindCommand(c);
      actions := actions[c.name := ConfigOf(c, connector)];
    }

    /** One turn of the loop of walk: the stack p becomes q.  The result is false when it indexes the empty stack. */
    method Child(p: Path, c: Node, extra: nat -> nat) returns (ok: bool, q: Path)
      requires ValidPath(p)
      modifies this, p.arr
      ensures ValidPath(q) && (q.arr == p.arr || fresh(q.arr))
      ensures var t := TurnOf(old(View(p)), c, extra);
              && ok == t.ok && (ok ==> View(q) == t.next && (t.moved <==> q.arr != p.arr))
              && p.arr[..] == t.caller && Now() == DoAll(old(Now()), t.effects)
      decreases c
    {
      ok, q := true, p;
      if !c.active {
        return;
      }
      if c.Subsystem() {
        q := Append(p, c.id, extra);
      }
      if c.Action() {
        commands := commands[c.id := c.(children := [])];
        assert DoAll(Now(), []) == Now();
        return;
      }
      AddExprs(c);
      if c.Reads() {
        if q.len == 0 {
          ok := false;
          return;
        }
        var connector := q.arr[q.len - 1];
        AddAction(c, connector);
        DoAllConcat(old(Now()), Exprs(c), CommandDefs(c, c.children) + [SetAction(c.name, ConfigOf(c, connector))]);
        return;
      }
      ghost var w := WalkOf(View(q), c.children, extra);
      hide DoAll, Exprs, CommandDefs, Effects, WellShaped;
      var end;
      ok, end := Walk(q, c.children, extra);
      if ok && q.len > 0 {
        q := q.(len := q.len - 1);
      }
      DoAllConcat(old(Now()), Exprs(c), w.effects);
    }

    /** walk.  The result is false when it indexes the empty stack; `end` is the final length of its
        local variable `path`. */
    method Walk(path: Path, children: seq<Node>, extra: nat -> nat) returns (ok: bool, end: nat)
      requires ValidPath(path)
      modifies this, path.arr
      ensures var w := WalkOf(old(View(path)), children, extra);
              && ok == w.ok && (ok ==> end == w.end)
              && path.arr[..] == w.caller && Now() == DoAll(old(Now()), w.effects)
      ensures WellShaped(path.len > 0, children) ==>
                && ok && end == path.len
                && path.arr[..path.len] == old(path.arr[..path.len])
                && Now() == DoAll(old(Now()), Effects(Top(old(View(path))), children))
      decreases children
    {
      ghost var start, w, t0 := View(path), WalkOf(View(path), children, extra), Now();
      if WellShaped(path.len > 0, children) {
        WellShapedWalk(start, children, extra);
      }
      var p := path;
      assert children[0..] == children;
      hide WalkOf, TurnOf, DoAll, WellShaped, Effects;
      for i := 0 to |children|
        invariant ValidPath(p) && (p.arr == path.arr || fresh(p.arr))
        invariant ToCome(w, WalkOf(View(p), children[i..], extra), p.arr != path.arr, path.arr[..])
        invariant DoAll(Now(), WalkOf(View(p), children[i..], extra).effects) == DoAll(t0, w.effects)
      {
        ghost var s, t, here := View(p), TurnOf(View(p), children[i], extra), Now();
        WalkUnfolds(s, children, i, extra);
        ok, p := Child(p, children[i], extra);
        if !ok {
          end := 0;
          return;
        }
        DoAllConcat(here, t.effects, WalkOf(t.next, children[i + 1..], extra).effects);
      }
      WalkEnds(View(p), children, extra);
      ok, end := true, p.len;
    }

    /** fillPayload */
    method FillPayload(decode: Decoder, text: string, data: map<string, Json>) returns (r: Body)
      ensures r == match decode(text)
                   case Malformed => Unfilled
                   case Request(p) =>
                     if AllFilled(p.params, data) then Body(p.(params := FillParams(p.params, data))) else Unfilled
      ensures r.Body? <==> decode(text).Request? && Fillable(decode(text).payload, data)
      ensures r.Body? ==> IsFilling(decode(text).payload, data, r.payload)
    {
      if decode(text).Malformed? {
        return Unfilled;
      }
      var pld := decode(text).payload;
      FillableIff(pld, data);
      hide Fillable, IsFilling, AllFilled, FillParams;
      var ok, params := ReplaceParams(pld.params, data);
      if !ok {
        return Unfilled;
      }
      r := Body(pld.(params := params));
      FillingIff(pld, data, r.payload);
    }

    /** Its loop, over the parameters in any order. */
    method ReplaceParams(given: map<string, Json>, data: map<string, Json>)
      returns (ok: bool, params: map<string, Json>)
      ensures ok <==> AllFilled(given, data)
      ensures ok ==> params == FillParams(given, data)
    {
      params := given;
      var todo := given.Keys;
      while todo != {}
        invariant todo <= given.Keys == params.Keys
        invariant forall k :: k in todo ==> params[k] == given[k]
        invariant forall k :: k in params && k !in todo ==> FillParam(k, given[k], data) == Value(params[k])
        decreases todo
      {
        var k :| k in todo;
        todo := todo - {k};
        var v := params[k];
        if k == "_cancel" {
          continue;
        }
        if !v.Str? {
          return false, params;
        }
        var vv := v.s;
        if IsPlaceholder(vv) {
          var key := vv[2..|vv| - 2];
          if key !in data {
            return false, params;
          }
          params := params[k := data[key]];
        }
      }
      ok := true;
    }

    /** One turn of the loop of afterWalk. */
    method PrepareAction(decode: Decoder, v: ActionConfig) returns (r: Prepared)
      modifies this`acmd
      ensures r == Prepare1(decode, commands, old(acmd), v)
      ensures r.Ready? ==> v.id in old(acmd) && acmd == old(acmd)[v.id := Bind(v.id, old(acmd)[v.id])]
    {
      var c := CommandOf(acmd, v.id);
      if c.command !in commands {
        return Broken;
      }
      var def := commands[c.command].params;
      if def.Nil? || "payload" !in def.entries || !def.entries["payload"].Str? {
        return Broken;
      }
      if c.params.Nil? {
        return Panics;
      }
      acmd := acmd[v.id := Command(c.command, Params(c.params.entries[PARENT := Str(v.id)]))];
      var body := FillPayload(decode, def.entries["payload"].s, acmd[v.id].params.entries);
      r := if body.Body? then Ready(v.(body := body)) else Broken;
    }

    /** The same with its update of the action in the map. */
    method UpdateAction(decode: Decoder, k: string, ghost t0: Tables, ghost todo: set<string>, ghost done: set<string>)
      returns (failure: Prepared)
      requires commands == t0.commands && Progress(decode, t0, Now(), todo, done) && k in todo
      modifies this`acmd, this`actions
      ensures failure == Prepare1(decode, commands, t0.acmd, t0.actions[k])
      ensures failure.Ready? ==> Progress(decode, t0, Now(), todo - {k}, done + {t0.actions[k].id})
    {
      ghost var t := Now();
      BoundTwice(decode, commands, t0.acmd, done, t0.actions[k]);
      assert actions[k] == t0.actions[k] && acmd == BindAll(t0.acmd, done);
      hide Prepare1, Bind, BindAll, Progress;
      failure := PrepareAction(decode, actions[k]);
      if failure.Ready? {
        MoreProgress(decode, t0, t, todo, done, k, failure.action);
        actions := actions[k := failure.action];
      }
    }

    /** afterWalk; it ranges over the actions in any order, and stops at the first that fails. */
    method AfterWalk(decode: Decoder) returns (failure: Prepared, ok: bool)
      modifies this`acmd, this`actions
      ensures ok <==> forall k :: k in old(actions) ==> CanBePrepared(decode, commands, old(acmd), old(actions)[k])
      ensures ok ==>
                && actions.Keys == old(actions).Keys
                && (forall k :: k in actions ==>
                      IsPreparation(decode, commands, old(acmd), old(actions)[k], actions[k]))
                && acmd == BindAll(old(acmd), ActionIds(old(actions)))
      ensures !ok ==> !failure.Ready? && Fails(decode, old(Now()), failure)
    {
      ghost var t0 := Now();
      ghost var done: set<string> := {};
      var todo := actions.Keys;
      StartProgress(decode, t0);
      AllPrepared(decode, t0);
      hide Prepare1, Bind, BindAll, CanBePrepared, IsPreparation;
      failure := Broken;
      while todo != {}
        invariant commands == t0.commands && Progress(decode, t0, Now(), todo, done)
        decreases todo
      {
        var k :| k in todo;
        failure := UpdateAction(decode, k, t0, todo, done);
        todo := todo - {k};
        if !failure.Ready? {
          return failure, false;
        }
        done := done + {t0.actions[k].id};
      }
      assert done == ActionIds(t0.actions);
      ok := true;
    }
  }

  /** The loop of afterWalk on its way from t0, with the actions of `todo` still to come. */
  ghost predicate Progress(decode: Decoder, t0: Tables, t: Tables, todo: set<string>, done: set<string>) {
    && todo <= t.actions.Keys == t0.actions.Keys
    && t.commands == t0.commands && t.expr == t0.expr
    && (forall k :: k in todo ==> t.actions[k] == t0.actions[k])
    && (forall k :: k in t.actions && k !in todo ==>
          && Prepare1(decode, t0.commands, t0.acmd, t0.actions[k]) == Ready(t.actions[k])
          && t0.actions[k].id in done)
    && done <= ActionIds(t0.actions)
    && t.acmd == BindAll(t0.acmd, done)
  }

  lemma StartProgress(decode: Decoder, t0: Tables)
    ensures Progress(decode, t0, t0, t0.actions.Keys, {})
  {
  }

  lemma MoreProgress(decode: Decoder, t0: Tables, t: Tables, todo: set<string>, done: set<string>,
                     k: string, a: ActionConfig)
    requires Progress(decode, t0, t, todo, done) && k in todo && t0.actions[k].id in t0.acmd
    requires Prepare1(decode, t0.commands, t0.acmd, t0.actions[k]) == Ready(a)
    ensures var id := t0.actions[k].id;
            && id in t.acmd
            && var t' := t.(acmd := t.acmd[id := Bind(id, t.acmd[id])], actions := t.actions[k := a]);
               Progress(decode, t0, t', todo - {k}, done + {id})
  {
    BindAllMore(t0.acmd, done, t0.actions[k].id);
    hide Prepare1, Bind, BindAll;
  }

  lemma AllPrepared(decode: Decoder, t: Tables)
    ensures forall k :: k in t.actions ==>
              (Prepare1(decode, t.commands, t.acmd, t.actions[k]).Ready? <==>
               CanBePrepared(decode, t.commands, t.acmd, t.actions[k]))
    ensures forall k, r :: k in t.actions && Prepare1(decode, t.commands, t.acmd, t.actions[k]) == Ready(r) ==>
              && CanBePrepared(decode, t.commands, t.acmd, t.actions[k])
              && IsPreparation(decode, t.commands, t.acmd, t.actions[k], r)
  {
    hide Prepare1, CanBePrepared, IsPreparation;
    forall k | k in t.actions
      ensures Prepare1(decode, t.commands, t.acmd, t.actions[k]).Ready? <==>
              CanBePrepared(decode, t.commands, t.acmd, t.actions[k])
    {
      PreparedIff(decode, t.commands, t.acmd, t.actions[k], t.actions[k]);
    }
    forall k, r | k in t.actions && Prepare1(decode, t.commands, t.acmd, t.actions[k]) == Ready(r)
      ensures CanBePrepared(decode, t.commands, t.acmd, t.actions[k])
      ensures IsPreparation(decode, t.commands, t.acmd, t.actions[k], r)
    {
      PreparedIff(decode, t.commands, t.acmd, t.actions[k], r);
    }
  }

  ghost predicate Fails(decode: Decoder, t: Tables, failure: Prepared) {
    exists k :: k in t.actions && Prepare1(decode, t.commands, t.acmd, t.actions[k]) == failure
  }

  function ActionIds(actions: map<string, ActionConfig>): set<string> {
    set k | k in actions :: actions[k].id
  }

  function BindAll(acmd: map<string, Command>, ids: set<string>): map<string, Command> {
    map id | id in acmd :: if id in ids then Bind(id, acmd[id]) else acmd[id]
  }

  lemma BindAllMore(acmd: map<string, Command>, ids: set<string>, id: string)
    requires id in acmd
    ensures BindAll(acmd, ids)[id := Bind(id, BindAll(acmd, ids)[id])] == BindAll(acmd, ids + {id})
    ensures id in BindAll(acmd, ids)
  {
    BoundOnce(acmd[id], id);
  }

  lemma BoundOnce(c: Command, id: string)
    ensures Bind(id, Bind(id, c)) == Bind(id, c)
  {
    if !c.params.Nil? {
      var e := c.params.entries;
      assert e[PARENT := Str(id)][PARENT := Str(id)] == e[PARENT := Str(id)];
    }
  }

  /** Binding twice is binding once, so earlier rounds do not change what a later one computes. */
  lemma BoundTwice(decode: Decoder, commands: map<string, Node>, acmd: map<string, Command>, ids: set<string>,
                   a: ActionConfig)
    ensures Prepare1(decode, commands, BindAll(acmd, ids), a) == Prepare1(decode, commands, acmd, a)
    ensures a.id in BindAll(acmd, ids) <==> a.id in acmd
  {
    BoundOnce(CommandOf(acmd, a.id), a.id);
  }
}
