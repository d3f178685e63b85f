/** What the tables mean that `walk` builds from the nodes of a tree, and the payloads that are filled in afterwards. */
module ModelTreeTables {
  import opened ModelTree

  // ---------- every action, and the connector it gets ----------

  /** A way down the tree: child numbers, through nodes walk goes into. */
  predicate Route(children: seq<Node>, route: seq<nat>)
    decreases |route|
  {
    && route != [] && route[0] < |children|
    && (|route| > 1 ==>
         && var c := children[route[0]];
         && c.active && c.typ != "action" && c.read.command == "" && Route(c.children, route[1..]))
  }

  function Target(children: seq<Node>, route: seq<nat>): Node
    requires Route(children, route)
    decreases |route|
  {
    if |route| == 1 then children[route[0]] else Target(children[route[0]].children, route[1..])
  }

  /** The id of the last subsystem passed on the way, or `connector` when there was none. */
  function Nearest(connector: string, children: seq<Node>, route: seq<nat>): string
    requires Route(children, route)
    decreases |route|
  {
    var c := children[route[0]];
    if |route| == 1 then connector
    else Nearest(if c.typ == "subsystem" then c.id else connector, c.children, route[1..])
  }

  /** What a node contributes itself, its nearest enclosing subsystem being `connector`. */
  function Own(connector: string, c: Node): seq<Effect> {
    if !c.active then []
    else if c.Action() then [SetCommand(c.id, c.(children := []))]
    else if c.Reads() then Exprs(c) + (CommandDefs(c, c.children) + [SetAction(c.name, ConfigOf(c, connector))])
    else Exprs(c)
  }

  /** The way ends at a node that contributes e. */
  predicate Yields(connector: string, children: seq<Node>, route: seq<nat>, e: Effect) {
    Route(children, route) && e in Own(Nearest(connector, children, route), Target(children, route))
  }

  lemma {:induction false} FindRoute(connector: string, children: seq<Node>, e: Effect) returns (route: seq<nat>)
    requires e in Effects(connector, children)
    ensures Yields(connector, children, route, e)
    decreases children
  {
    var c := children[0];
    if e in Own(connector, c) {
      route := [0];
    } else if e in NodeEffects(connector, c) {
      var deeper := FindRoute(if c.Subsystem() then c.id else connector, c.children, e);
      route := [0] + deeper;
      assert route[1..] == deeper;
    } else {
      var later := FindRoute(connector, children[1..], e);
      route := [later[0] + 1] + later[1..];
      assert route[1..] == later[1..];
    }
  }

  lemma {:induction false} RouteIsFound(connector: string, children: seq<Node>, route: seq<nat>, e: Effect)
    requires Yields(connector, children, route, e)
    ensures e in Effects(connector, children)
    decreases children
  {
    if route[0] > 0 {
      var later := [route[0] - 1] + route[1..];
      assert later[1..] == route[1..];
      RouteIsFound(connector, children[1..], later, e);
    } else if |route| > 1 {
      var c := children[0];
      RouteIsFound(if c.Subsystem() then c.id else connector, c.children, route[1..], e);
    }
  }

  lemma EffectsAreOwn(connector: string, children: seq<Node>, e: Effect)
    ensures e in Effects(connector, children) <==> exists route :: Yields(connector, children, route, e)
  {
    if e in Effects(connector, children) {
      var route := FindRoute(connector, children, e);
    }
    forall route | Yields(connector, children, route, e)
      ensures e in Effects(connector, children)
    {
      RouteIsFound(connector, children, route, e);
    }
  }

  // ---------- what the tables hold in the end ----------

  predicate SameSlot(a: Effect, b: Effect) {
    match a
    case SetExpr(k, _) => b.SetExpr? && b.key == k
    case SetCommand(id, _) => b.SetCommand? && b.id == id
    case SetActionCommand(id, _) => b.SetActionCommand? && b.id == id
    case SetAction(name, _) => b.SetAction? && b.name == name
  }

  /** The tables hold what e wrote. */
  predicate Holds(t: Tables, e: Effect) {
    match e
    case SetExpr(k, code) => k in t.expr && t.expr[k] == code
    case SetCommand(id, n) => id in t.commands && t.commands[id] == n
    case SetActionCommand(id, c) => id in t.acmd && t.acmd[id] == c
    case SetAction(name, c) => name in t.actions && t.actions[name] == c
  }

  predicate Writes(es: seq<Effect>, e: Effect) {
    exists x :: x in es && SameSlot(x, e)
  }

  /** e is in es, and nothing after it writes to its slot. */
  predicate LastIn(es: seq<Effect>, e: Effect)
    decreases |es|
  {
    es != [] && (LastIn(es[1..], e) || (es[0] == e && !Writes(es[1..], e)))
  }

  lemma {:induction false} DoAllHolds(t: Tables, es: seq<Effect>, e: Effect)
    ensures Holds(DoAll(t, es), e) <==> LastIn(es, e) || (Holds(t, e) && !Writes(es, e))
    ensures LastIn(es, e) ==> e in es
    decreases |es|
  {
    if es != [] {
      DoHolds(t, es[0], e);
      WritesOneMore(es, e);
      hide Do, Holds, SameSlot, Writes;
      DoAllHolds(Do(t, es[0]), es[1..], e);
    }
  }

  lemma DoHolds(t: Tables, x: Effect, e: Effect)
    ensures Holds(Do(t, x), e) <==> x == e || (Holds(t, e) && !SameSlot(x, e))
    ensures SameSlot(e, e)
  {
  }

  lemma WritesOneMore(es: seq<Effect>, e: Effect)
    requires es != []
    ensures Writes(es, e) <==> SameSlot(es[0], e) || Writes(es[1..], e)
  {
    hide SameSlot;
    if Writes(es, e) {
      var x :| x in es && SameSlot(x, e);
      assert x == es[0] || x in es[1..];
    }
  }

  /** Tables filled from nothing hold exactly the last effect on every slot. */
  lemma TablesHoldTheLast(es: seq<Effect>, e: Effect)
    ensures Holds(DoAll(EMPTY, es), e) <==> LastIn(es, e)
  {
    DoAllHolds(EMPTY, es, e);
  }

  lemma {:induction false} SomeIsLast(es: seq<Effect>, e: Effect) returns (last: Effect)
    requires Writes(es, e)
    ensures LastIn(es, last) && SameSlot(last, e)
    decreases |es|
  {
    if Writes(es[1..], e) {
      last := SomeIsLast(es[1..], e);
    } else {
      last := es[0];
      var x :| x in es && SameSlot(x, e);
      assert x == es[0];
    }
  }

  lemma {:induction false} LastInConcat(a: seq<Effect>, b: seq<Effect>, e: Effect)
    ensures LastIn(a + b, e) <==> LastIn(b, e) || (LastIn(a, e) && !Writes(b, e))
    decreases |a|
  {
    if a == [] {
      assert a + b == b;
    } else {
      assert (a + b)[1..] == a[1..] + b;
      LastInConcat(a[1..], b, e);
      assert Writes(a[1..] + b, e) <==> Writes(a[1..], e) || Writes(b, e);
      if LastIn(b, e) {
        DoAllHolds(EMPTY, b, e);
      }
    }
  }

  // ---------- the last way in the order of the tree ----------

  /** Document order: a node before its children, children by their number. */
  predicate Precedes(r: seq<nat>, q: seq<nat>)
    decreases |r|
  {
    q != [] && (r == [] || r[0] < q[0] || (r[0] == q[0] && Precedes(r[1..], q[1..])))
  }

  /** A way that writes e, and no later way in document order writes to the same slot. */
  ghost predicate LastYields(connector: string, children: seq<Node>, route: seq<nat>, e: Effect) {
    && Route(children, route) && LastIn(Own(Nearest(connector, children, route), Target(children, route)), e)
    && forall r, x :: Yields(connector, children, r, x) && SameSlot(x, e) ==> r == route || Precedes(r, route)
  }

  lemma {:induction false} LastRoute(connector: string, children: seq<Node>, e: Effect) returns (route: seq<nat>)
    requires LastIn(Effects(connector, children), e)
    ensures LastYields(connector, children, route, e)
    decreases children
  {
    var c, rest := children[0], children[1..];
    LastInConcat(NodeEffects(connector, c), Effects(connector, rest), e);
    if LastIn(Effects(connector, rest), e) {
      var later := LastRoute(connector, rest, e);
      route := [later[0] + 1] + later[1..];
      LaterIsLast(connector, children, e, later, route);
    } else {
      NothingLater(connector, rest, e);
      route := LastRouteInNode(connector, children, e);
    }
  }

  lemma LaterIsLast(connector: string, children: seq<Node>, e: Effect, later: seq<nat>, route: seq<nat>)
    requires children != [] && LastYields(connector, children[1..], later, e)
    requires route == [later[0] + 1] + later[1..]
    ensures LastYields(connector, children, route, e)
  {
    hide Own, LastIn, SameSlot;
    assert route[1..] == later[1..];
    forall r, x | Yields(connector, children, r, x) && SameSlot(x, e)
      ensures r == route || Precedes(r, route)
    {
      WayGoesOn(connector, children, r, x);
      if r[0] > 0 {
        var r' := [r[0] - 1] + r[1..];
        assert r'[1..] == r[1..];
        if r' == later {
          assert r == [r[0]] + r[1..] == route;
        }
      }
    }
  }

  lemma NothingLater(connector: string, rest: seq<Node>, e: Effect)
    requires !Writes(Effects(connector, rest), e)
    ensures forall r, x :: Yields(connector, rest, r, x) ==> !SameSlot(x, e)
  {
    forall r, x | Yields(connector, rest, r, x)
      ensures !SameSlot(x, e)
    {
      RouteIsFound(connector, rest, r, x);
    }
  }

  lemma {:induction false} LastRouteInNode(connector: string, children: seq<Node>, e: Effect) returns (route: seq<nat>)
    requires children != [] && LastIn(NodeEffects(connector, children[0]), e)
    requires forall r, x :: Yields(connector, children[1..], r, x) ==> !SameSlot(x, e)
    ensures LastYields(connector, children, route, e)
    decreases children, 0
  {
    var c := children[0];
    DoAllHolds(EMPTY, NodeEffects(connector, c), e);
    hide Exprs, CommandDefs, LastIn, SameSlot;
    if c.Recursed() {
      var inner := if c.Subsystem() then c.id else connector;
      LastInConcat(Exprs(c), Effects(inner, c.children), e);
      if LastIn(Effects(inner, c.children), e) {
        var deeper := LastRoute(inner, c.children, e);
        route := [0] + deeper;
        DeeperIsLast(connector, children, inner, e, deeper, route);
        return;
      }
      NothingLater(inner, c.children, e);
      DoAllHolds(EMPTY, Exprs(c), e);
    }
    route := [0];
    forall r, x | Yields(connector, children, r, x) && SameSlot(x, e)
      ensures r == route
    {
      NotInRest(connector, children, r, x);
    }
  }

  /** A way goes on among the later children, or at the first child, or below it. */
  lemma WayGoesOn(connector: string, children: seq<Node>, r: seq<nat>, x: Effect)
    requires Yields(connector, children, r, x)
    ensures if r[0] > 0 then Yields(connector, children[1..], [r[0] - 1] + r[1..], x)
            else |r| > 1 ==>
              var c := children[0];
              c.Recursed() && Yields(if c.Subsystem() then c.id else connector, c.children, r[1..], x)
  {
    hide Own;
    assert r[0] > 0 ==> ([r[0] - 1] + r[1..])[1..] == r[1..];
  }

  lemma NotInRest(connector: string, children: seq<Node>, r: seq<nat>, x: Effect)
    requires Yields(connector, children, r, x)
    requires forall q :: !Yields(connector, children[1..], q, x)
    ensures r[0] == 0
    ensures |r| > 1 ==>
              var c := children[0];
              c.Recursed() && Yields(if c.Subsystem() then c.id else connector, c.children, r[1..], x)
  {
    hide Own;
    WayGoesOn(connector, children, r, x);
  }

  lemma DeeperIsLast(connector: string, children: seq<Node>, inner: string, e: Effect,
                     deeper: seq<nat>, route: seq<nat>)
    requires children != [] && children[0].Recursed()
    requires inner == if children[0].Subsystem() then children[0].id else connector
    requires forall r, x :: Yields(connector, children[1..], r, x) ==> !SameSlot(x, e)
    requires LastYields(inner, children[0].children, deeper, e) && route == [0] + deeper
    ensures LastYields(connector, children, route, e)
  {
    hide Own, LastIn, SameSlot;
    assert route[1..] == deeper;
    forall r, x | Yields(connector, children, r, x) && SameSlot(x, e)
      ensures r == route || Precedes(r, route)
    {
      NotInRest(connector, children, r, x);
      if |r| > 1 {
        assert r == [0] + r[1..];
      }
    }
  }

  lemma {:induction false} LastIsOne(es: seq<Effect>, a: Effect, b: Effect)
    requires LastIn(es, a) && LastIn(es, b) && SameSlot(a, b)
    ensures a == b
    decreases |es|
  {
    DoAllHolds(EMPTY, es[1..], a);
    DoAllHolds(EMPTY, es[1..], b);
    if LastIn(es[1..], a) && LastIn(es[1..], b) {
      LastIsOne(es[1..], a, b);
    }
  }

  lemma {:induction false} PrecedesOneWay(r: seq<nat>, q: seq<nat>)
    ensures !(Precedes(r, q) && Precedes(q, r))
    decreases |r|
  {
    if r != [] && q != [] {
      PrecedesOneWay(r[1..], q[1..]);
    }
  }

  lemma LastYieldsOnce(connector: string, children: seq<Node>, e: Effect, x: Effect, r: seq<nat>, q: seq<nat>)
    requires LastYields(connector, children, r, e) && LastYields(connector, children, q, x) && SameSlot(e, x)
    ensures e == x && r == q
  {
    LastIsYielded(connector, children, r, e);
    LastIsYielded(connector, children, q, x);
    PrecedesOneWay(r, q);
    LastIsOne(Own(Nearest(connector, children, r), Target(children, r)), e, x);
  }

  lemma LastIsYielded(connector: string, children: seq<Node>, route: seq<nat>, e: Effect)
    requires LastYields(connector, children, route, e)
    ensures Yields(connector, children, route, e)
  {
    DoAllHolds(EMPTY, Own(Nearest(connector, children, route), Target(children, route)), e);
  }

  /** The tables of a tree hold exactly what its last live node, in document order, wrote to each slot. */
  lemma TablesAreTheLastNodes(connector: string, children: seq<Node>, e: Effect)
    ensures Holds(DoAll(EMPTY, Effects(connector, children)), e)
       <==> exists route :: LastYields(connector, children, route, e)
  {
    var es := Effects(connector, children);
    TablesHoldTheLast(es, e);
    if LastIn(es, e) {
      var route := LastRoute(connector, children, e);
    }
    forall route | LastYields(connector, children, route, e)
      ensures LastIn(es, e)
    {
      LastIsYielded(connector, children, route, e);
      RouteIsFound(connector, children, route, e);
      var last := SomeIsLast(es, e);
      var other := LastRoute(connector, children, last);
      LastYieldsOnce(connector, children, e, last, route, other);
    }
  }

  /** The commands a read node defines set nothing but its own command. */
  lemma {:induction false} CommandDefsOnly(c: Node, children: seq<Node>, e: Effect)
    requires e in CommandDefs(c, children)
    ensures e.SetActionCommand? && e.id == c.id
    decreases |children|
  {
    var first := children[0];
    if !(first.id == c.read.command && e == SetActionCommand(c.id, Command(first.command, first.params))) {
      CommandDefsOnly(c, children[1..], e);
    }
  }

  predicate LiveAt(children: seq<Node>, route: seq<nat>) {
    Route(children, route) && Target(children, route).active
  }

  /** A live read node of that name. */
  predicate ReadAt(children: seq<Node>, route: seq<nat>, name: string) {
    && LiveAt(children, route)
    && var c := Target(children, route);
       c.typ != "action" && c.read.command != "" && c.name == name
  }

  ghost predicate LastReadAt(children: seq<Node>, route: seq<nat>, name: string) {
    ReadAt(children, route, name) && forall r :: ReadAt(children, r, name) ==> r == route || Precedes(r, route)
  }

  lemma ReadNodesYield(connector: string, children: seq<Node>, route: seq<nat>, name: string, config: ActionConfig)
    ensures Yields(connector, children, route, SetAction(name, config)) <==>
              && ReadAt(children, route, name)
              && config == ConfigOf(Target(children, route), Nearest(connector, children, route))
  {
    if Route(children, route) {
      var c, e := Target(children, route), SetAction(name, config);
      if e in CommandDefs(c, c.children) {
        CommandDefsOnly(c, c.children, e);
      }
    }
  }

  /** The entry says what the read node c says, and names its connector. */
  predicate Describes(c: Node, connector: string, a: ActionConfig) {
    a.id == c.id && a.connector == connector && a.typ == c.read.typ && a.interval == c.read.interval
  }

  /** The actions: for every name the last live read node that has it, with its nearest enclosing
      subsystem as connector; and no others. */
  lemma ActionsAreTheReadNodes(connector: string, children: seq<Node>, name: string, config: ActionConfig)
    ensures var actions := DoAll(EMPTY, Effects(connector, children)).actions;
            && (name in actions && actions[name] == config <==>
                  exists route ::
                    && LastReadAt(children, route, name) && config.body.Unfilled?
                    && Describes(Target(children, route), Nearest(connector, children, route), config))
            && (name in actions <==> exists route :: ReadAt(children, route, name))
  {
    var t := DoAll(EMPTY, Effects(connector, children));
    TablesAreTheLastNodes(connector, children, SetAction(name, config));
    forall route
      ensures LastYields(connector, children, route, SetAction(name, config)) <==>
                && LastReadAt(children, route, name) && config.body.Unfilled?
                && Describes(Target(children, route), Nearest(connector, children, route), config)
    {
      LastReadsYield(connector, children, route, name, config);
    }
    if name in t.actions {
      TablesAreTheLastNodes(connector, children, SetAction(name, t.actions[name]));
      var route :| LastYields(connector, children, route, SetAction(name, t.actions[name]));
      LastReadsYield(connector, children, route, name, t.actions[name]);
    }
    forall route | ReadAt(children, route, name)
      ensures name in t.actions
    {
      var e := SetAction(name, ConfigOf(Target(children, route), Nearest(connector, children, route)));
      ReadNodesYield(connector, children, route, name, e.config);
      RouteIsFound(connector, children, route, e);
      var last := SomeIsLast(Effects(connector, children), e);
      TablesHoldTheLast(Effects(connector, children), last);
    }
  }

  lemma LastReadsYield(connector: string, children: seq<Node>, route: seq<nat>, name: string, config: ActionConfig)
    ensures LastYields(connector, children, route, SetAction(name, config)) <==>
              && LastReadAt(children, route, name)
              && config == ConfigOf(Target(children, route), Nearest(connector, children, route))
  {
    var e := SetAction(name, config);
    forall r, x | Yields(connector, children, r, x) && SameSlot(x, e)
      ensures ReadAt(children, r, name)
    {
      ReadNodesYield(connector, children, r, name, x.config);
    }
    forall r | ReadAt(children, r, name)
      ensures exists x :: Yields(connector, children, r, x) && SameSlot(x, e)
    {
      var x := SetAction(name, ConfigOf(Target(children, r), Nearest(connector, children, r)));
      ReadNodesYield(connector, children, r, name, x.config);
      assert SameSlot(x, e);
    }
    if LastYields(connector, children, route, e) {
      LastIsYielded(connector, children, route, e);
      ReadNodesYield(connector, children, route, name, config);
    } else if LastReadAt(children, route, name) {
      forall x | Yields(connector, children, route, x) && SameSlot(x, e)
        ensures x == SetAction(name, ConfigOf(Target(children, route), Nearest(connector, children, route)))
      {
        ReadNodesYield(connector, children, route, name, x.config);
      }
      ReadNodesYield(connector, children, route, name, config);
      if Yields(connector, children, route, e) {
        OnlyIsLast(connector, children, route, e);
      }
    }
  }

  /** A live node, not an action, with an expression of that key. */
  predicate ExprAt(children: seq<Node>, route: seq<nat>, key: string) {
    && LiveAt(children, route)
    && var c := Target(children, route);
       && c.typ != "action"
       && ((key == "read." + c.id && c.read.expr != "") || (key == "write." + c.id && c.writeExpr != ""))
  }

  function ExprOf(c: Node, key: string): string {
    if key == "read." + c.id then c.read.expr else c.writeExpr
  }

  ghost predicate LastExprAt(children: seq<Node>, route: seq<nat>, key: string) {
    ExprAt(children, route, key) && forall r :: ExprAt(children, r, key) ==> r == route || Precedes(r, route)
  }

  lemma ReadIsNotWrite(a: string, b: string)
    ensures "read." + a != "write." + b
  {
    assert ("read." + a)[0] != ("write." + b)[0];
  }

  lemma ExprsYield(connector: string, children: seq<Node>, route: seq<nat>, key: string, code: string)
    ensures Yields(connector, children, route, SetExpr(key, code)) <==>
              ExprAt(children, route, key) && code == ExprOf(Target(children, route), key)
  {
    if Route(children, route) {
      var c, e := Target(children, route), SetExpr(key, code);
      ReadIsNotWrite(c.id, c.id);
      if e in CommandDefs(c, c.children) {
        CommandDefsOnly(c, c.children, e);
      }
    }
  }

  lemma LastExprsYield(connector: string, children: seq<Node>, route: seq<nat>, key: string, code: string)
    ensures LastYields(connector, children, route, SetExpr(key, code)) <==>
              LastExprAt(children, route, key) && code == ExprOf(Target(children, route), key)
  {
    var e := SetExpr(key, code);
    forall r, x | Yields(connector, children, r, x) && SameSlot(x, e)
      ensures ExprAt(children, r, key)
    {
      ExprsYield(connector, children, r, key, x.code);
    }
    forall r | ExprAt(children, r, key)
      ensures exists x :: Yields(connector, children, r, x) && SameSlot(x, e)
    {
      var x := SetExpr(key, ExprOf(Target(children, r), key));
      ExprsYield(connector, children, r, key, x.code);
      assert SameSlot(x, e);
    }
    if LastYields(connector, children, route, e) {
      LastIsYielded(connector, children, route, e);
      ExprsYield(connector, children, route, key, code);
    } else if LastExprAt(children, route, key) {
      forall x | Yields(connector, children, route, x) && SameSlot(x, e)
        ensures x == SetExpr(key, ExprOf(Target(children, route), key))
      {
        ExprsYield(connector, children, route, key, x.code);
      }
      ExprsYield(connector, children, route, key, code);
      if Yields(connector, children, route, e) {
        OnlyIsLast(connector, children, route, e);
      }
    }
  }

  /** Where a node writes to a slot only one thing, that is the last thing it writes there. */
  lemma OnlyIsLast(connector: string, children: seq<Node>, route: seq<nat>, e: Effect)
    requires Yields(connector, children, route, e)
    requires forall x :: Yields(connector, children, route, x) && SameSlot(x, e) ==> x == e
    ensures LastIn(Own(Nearest(connector, children, route), Target(children, route)), e)
  {
    var own := Own(Nearest(connector, children, route), Target(children, route));
    DoHolds(EMPTY, e, e);
    var last := SomeIsLast(own, e);
    DoAllHolds(EMPTY, own, last);
    assert Yields(connector, children, route, last);
  }

  /** The expressions: for every key that of the last live node other than an action that has one. */
  lemma ExpressionsAreOfLiveNodes(connector: string, children: seq<Node>, key: string, code: string)
    ensures key in DoAll(EMPTY, Effects(connector, children)).expr
            && DoAll(EMPTY, Effects(connector, children)).expr[key] == code
       <==> exists route :: LastExprAt(children, route, key) && code == ExprOf(Target(children, route), key)
  {
    TablesAreTheLastNodes(connector, children, SetExpr(key, code));
    forall route
      ensures LastYields(connector, children, route, SetExpr(key, code)) <==>
                LastExprAt(children, route, key) && code == ExprOf(Target(children, route), key)
    {
      LastExprsYield(connector, children, route, key, code);
    }
  }

  predicate ActionAt(children: seq<Node>, route: seq<nat>, id: string) {
    LiveAt(children, route) && Target(children, route).typ == "action" && Target(children, route).id == id
  }

  ghost predicate LastActionAt(children: seq<Node>, route: seq<nat>, id: string) {
    ActionAt(children, route, id) && forall r :: ActionAt(children, r, id) ==> r == route || Precedes(r, route)
  }

  lemma ActionsYield(connector: string, children: seq<Node>, route: seq<nat>, id: string, node: Node)
    ensures Yields(connector, children, route, SetCommand(id, node)) <==>
              ActionAt(children, route, id) && node == Target(children, route).(children := [])
  {
    if Route(children, route) {
      var c, e := Target(children, route), SetCommand(id, node);
      if e in CommandDefs(c, c.children) {
        CommandDefsOnly(c, c.children, e);
      }
    }
  }

  lemma LastActionsYield(connector: string, children: seq<Node>, route: seq<nat>, id: string, node: Node)
    ensures LastYields(connector, children, route, SetCommand(id, node)) <==>
              LastActionAt(children, route, id) && node == Target(children, route).(children := [])
  {
    var e := SetCommand(id, node);
    forall r, x | Yields(connector, children, r, x) && SameSlot(x, e)
      ensures ActionAt(children, r, id)
    {
      ActionsYield(connector, children, r, id, x.node);
    }
    forall r | ActionAt(children, r, id)
      ensures exists x :: Yields(connector, children, r, x) && SameSlot(x, e)
    {
      var x := SetCommand(id, Target(children, r).(children := []));
      ActionsYield(connector, children, r, id, x.node);
      assert SameSlot(x, e);
    }
    if LastYields(connector, children, route, e) {
      LastIsYielded(connector, children, route, e);
      ActionsYield(connector, children, route, id, node);
    } else if LastActionAt(children, route, id) {
      forall x | Yields(connector, children, route, x) && SameSlot(x, e)
        ensures x == SetCommand(id, Target(children, route).(children := []))
      {
        ActionsYield(connector, children, route, id, x.node);
      }
      ActionsYield(connector, children, route, id, node);
      if Yields(connector, children, route, e) {
        OnlyIsLast(connector, children, route, e);
      }
    }
  }

  /** The commands: for every id the last live action that has it, without its children. */
  lemma CommandsAreTheActions(connector: string, children: seq<Node>, id: string, node: Node)
    ensures id in DoAll(EMPTY, Effects(connector, children)).commands
            && DoAll(EMPTY, Effects(connector, children)).commands[id] == node
       <==> exists route :: LastActionAt(children, route, id) && node == Target(children, route).(children := [])
  {
    TablesAreTheLastNodes(connector, children, SetCommand(id, node));
    forall route
      ensures LastYields(connector, children, route, SetCommand(id, node)) <==>
                LastActionAt(children, route, id) && node == Target(children, route).(children := [])
    {
      LastActionsYield(connector, children, route, id, node);
    }
  }

  /** What preparing leaves in the actions: one for every name a live read node has, and for each name it is
      that of the last such node, with its nearest enclosing subsystem as connector. */
  ghost predicate ListsReadNodes(children: seq<Node>, actions: map<string, ActionConfig>) {
    && (forall k :: k in actions <==> exists route :: ReadAt(children, route, k))
    && (forall k :: k in actions ==>
          exists route ::
            && LastReadAt(children, route, k)
            && Describes(Target(children, route), Nearest("", children, route), actions[k]))
  }

  /** All but the body. */
  predicate SameHead(a: ActionConfig, r: ActionConfig) {
    r.id == a.id && r.connector == a.connector && r.typ == a.typ && r.interval == a.interval
  }

  lemma PreparedReadNodes(children: seq<Node>, before: map<string, ActionConfig>, actions: map<string, ActionConfig>)
    requires before == DoAll(EMPTY, Effects("", children)).actions && actions.Keys == before.Keys
    requires forall k :: k in actions ==> SameHead(before[k], actions[k])
    ensures ListsReadNodes(children, actions)
  {
    hide Effects, DoAll;
    forall k
      ensures k in actions <==> exists route :: ReadAt(children, route, k)
    {
      ActionsAreTheReadNodes("", children, k, ActionConfig("", "", "", "", Unfilled));
    }
    forall k | k in actions
      ensures exists route ::
                && LastReadAt(children, route, k)
                && Describes(Target(children, route), Nearest("", children, route), actions[k])
    {
      ActionsAreTheReadNodes("", children, k, before[k]);
      assert SameHead(before[k], actions[k]);
    }
  }

  // ---------- which child defines a command ----------

  /** i is the last of the children that a read node names as its command. */
  predicate DefinedBy(c: Node, children: seq<Node>, i: int) {
    && 0 <= i < |children| && children[i].id == c.read.command
    && forall j :: i < j < |children| ==> children[j].id != c.read.command
  }

  /** It defines the command, active or not; where there is none, nothing is defined. */
  lemma {:induction false} CommandIsTheLastChild(t: Tables, c: Node, children: seq<Node>, i: int)
    ensures DefinedBy(c, children, i) ==>
              DoAll(t, CommandDefs(c, children)) ==
              t.(acmd := t.acmd[c.id := Command(children[i].command, children[i].params)])
    ensures (forall j :: 0 <= j < |children| ==> children[j].id != c.read.command) ==>
              DoAll(t, CommandDefs(c, children)) == t
    decreases |children|
  {
    if children != [] {
      var first, rest := children[0], children[1..];
      var def := SetActionCommand(c.id, Command(first.command, first.params));
      var own := if first.id == c.read.command then [def] else [];
      assert CommandDefs(c, children) == own + CommandDefs(c, rest);
      DoAllConcat(t, own, CommandDefs(c, rest));
      assert own != [] ==> own[1..] == [];
      CommandIsTheLastChild(DoAll(t, own), c, rest, i - 1);
      assert forall j :: 0 <= j < |rest| ==> rest[j] == children[j + 1];
      if DefinedBy(c, children, i) && i > 0 {
        assert DefinedBy(c, rest, i - 1);
      }
    }
  }

  /** The command of an action is the one its read node's last such child defines, the node being the
      last in the tree that has one for that id. */
  lemma ActionCommandsComeFromChildren(connector: string, children: seq<Node>, id: string)
    returns (route: seq<nat>, i: int)
    requires id in DoAll(EMPTY, Effects(connector, children)).acmd
    ensures LiveAt(children, route)
    ensures var c := Target(children, route);
            && c.typ != "action" && c.read.command != "" && c.id == id && DefinedBy(c, c.children, i)
            && var def := c.children[i];
               DoAll(EMPTY, Effects(connector, children)).acmd[id] == Command(def.command, def.params)
    ensures forall r, x :: Yields(connector, children, r, x) && x.SetActionCommand? && x.id == id ==>
              r == route || Precedes(r, route)
  {
    var e := SetActionCommand(id, DoAll(EMPTY, Effects(connector, children)).acmd[id]);
    TablesAreTheLastNodes(connector, children, e);
    route :| LastYields(connector, children, route, e);
    LastIsYielded(connector, children, route, e);
    var c := Target(children, route);
    i := DefiningChild(Nearest(connector, children, route), c, e);
  }

  lemma DefiningChild(connector: string, c: Node, e: Effect) returns (i: int)
    requires e.SetActionCommand? && LastIn(Own(connector, c), e)
    ensures c.active && !c.Action() && c.Reads() && e.id == c.id && DefinedBy(c, c.children, i)
    ensures e.command == Command(c.children[i].command, c.children[i].params)
  {
    var defs := CommandDefs(c, c.children);
    DoAllHolds(EMPTY, Own(connector, c), e);
    var last := [SetAction(c.name, ConfigOf(c, connector))];
    LastInConcat(Exprs(c), defs + last, e);
    LastInConcat(defs, last, e);
    DoAllHolds(EMPTY, Exprs(c), e);
    DoAllHolds(EMPTY, last, e);
    assert LastIn(defs, e);
    DoAllHolds(EMPTY, defs, e);
    CommandDefsOnly(c, c.children, e);
    i := LastChild(c, c.children);
    CommandIsTheLastChild(EMPTY, c, c.children, i);
  }

  lemma LastChild(c: Node, children: seq<Node>) returns (i: int)
    ensures
      || DefinedBy(c, children, i)
      || (i == -1 && forall j :: 0 <= j < |children| ==> children[j].id != c.read.command)
  {
    i := |children| - 1;
    while i >= 0 && children[i].id != c.read.command
      invariant -1 <= i < |children|
      invariant forall j :: i < j < |children| ==> children[j].id != c.read.command
    {
      i := i - 1;
    }
  }

  // ---------- what the payload of an action says ----------

  function Braced(k: string): string {
    "{{" + k + "}}"
  }

  lemma PlaceholderIff(v: string)
    ensures IsPlaceholder(v) <==> exists k :: v == Braced(k)
    ensures forall k :: v == Braced(k) ==> IsPlaceholder(v) && v[2..|v| - 2] == k
  {
    if IsPlaceholder(v) {
      assert v == Braced(v[2..|v| - 2]);
    }
  }

  /** Every parameter but `_cancel` is a string, and where it is a placeholder "{{k}}" there is a k. */
  ghost predicate Fillable(p: Payload, data: map<string, Json>) {
    forall n :: n in p.params && n != "_cancel" ==>
      p.params[n].Str? && forall k :: p.params[n].s == Braced(k) ==> k in data
  }

  /** q is p with every "{{k}}" replaced by k; `_cancel` and all else is as it was. */
  ghost predicate IsFilling(p: Payload, data: map<string, Json>, q: Payload) {
    && q.jsonrpc == p.jsonrpc && q.rpcMethod == p.rpcMethod && q.params.Keys == p.params.Keys
    && (forall n :: n in p.params && (n == "_cancel" || forall k :: p.params[n] != Str(Braced(k))) ==>
          q.params[n] == p.params[n])
    && (forall n, k :: n in p.params && n != "_cancel" && p.params[n] == Str(Braced(k)) ==>
          k in data && q.params[n] == data[k])
  }

  lemma FillParamIs(n: string, v: Json, data: map<string, Json>)
    ensures FillParam(n, v, data).Value? <==>
              n == "_cancel" || (v.Str? && forall k :: v.s == Braced(k) ==> k in data)
    ensures (n == "_cancel" || forall k :: v != Str(Braced(k))) && FillParam(n, v, data).Value? ==>
              FillParam(n, v, data).json == v
    ensures forall k :: n != "_cancel" && v == Str(Braced(k)) && k in data ==> FillParam(n, v, data) == Value(data[k])
  {
    if v.Str? {
      PlaceholderIff(v.s);
      hide IsPlaceholder;
      assert forall k :: v == Str(Braced(k)) <==> v.s == Braced(k);
    }
  }

  lemma FillableIff(p: Payload, data: map<string, Json>)
    ensures AllFilled(p.params, data) <==> Fillable(p, data)
  {
    hide FillParam;
    forall n | n in p.params
      ensures FillParam(n, p.params[n], data).Value? <==>
                n == "_cancel" || (p.params[n].Str? && forall k :: p.params[n].s == Braced(k) ==> k in data)
    {
      FillParamIs(n, p.params[n], data);
    }
  }

  lemma FillingIff(p: Payload, data: map<string, Json>, q: Payload)
    requires AllFilled(p.params, data)
    ensures q == p.(params := FillParams(p.params, data)) <==> IsFilling(p, data, q)
  {
    hide FillParam;
    var all := FillParams(p.params, data);
    forall n | n in p.params
      ensures (n == "_cancel" || forall k :: p.params[n] != Str(Braced(k))) ==> all[n] == p.params[n]
      ensures forall k :: n != "_cancel" && p.params[n] == Str(Braced(k)) ==> k in data && all[n] == data[k]
    {
      FillParamIs(n, p.params[n], data);
    }
    if IsFilling(p, data, q) {
      forall n | n in p.params
        ensures q.params[n] == all[n]
      {
        if n != "_cancel" && exists k :: p.params[n] == Str(Braced(k)) {
          var k :| p.params[n] == Str(Braced(k));
          assert all[n] == data[k];
        }
      }
      assert q.params == all;
    }
  }

  /** The action's command is among the commands; its payload is a text that decodes to a request; the
      action has parameters of its own; and with its id among them every placeholder can be filled. */
  ghost predicate CanBePrepared(decode: Decoder, commands: map<string, Node>, acmd: map<string, Command>,
                                a: ActionConfig) {
    && a.id in acmd && acmd[a.id].params.Params? && acmd[a.id].command in commands
    && var def := commands[acmd[a.id].command].params;
    && def.Params? && "payload" in def.entries && def.entries["payload"].Str?
    && var d := decode(def.entries["payload"].s);
    && d.Request? && Fillable(d.payload, acmd[a.id].params.entries["node.parent.id" := Str(a.id)])
  }

  /** r is the action with its payload filled in: by its own id for node.parent.id, else by its own parameters. */
  ghost predicate IsPreparation(decode: Decoder, commands: map<string, Node>, acmd: map<string, Command>,
                                a: ActionConfig, r: ActionConfig)
    requires CanBePrepared(decode, commands, acmd, a)
  {
    && SameHead(a, r) && r.body.Body?
    && var def := commands[acmd[a.id].command].params.entries["payload"].s;
       IsFilling(decode(def).payload, acmd[a.id].params.entries["node.parent.id" := Str(a.id)], r.body.payload)
  }

  /** Exactly which actions can be prepared, and what then becomes of them. */
  lemma PreparedIff(decode: Decoder, commands: map<string, Node>, acmd: map<string, Command>,
                    a: ActionConfig, r: ActionConfig)
    ensures Prepare1(decode, commands, acmd, a).Ready? <==> CanBePrepared(decode, commands, acmd, a)
    ensures Prepare1(decode, commands, acmd, a) == Ready(r) <==>
              CanBePrepared(decode, commands, acmd, a) && IsPreparation(decode, commands, acmd, a, r)
  {
    hide AllFilled, FillParams, Fillable, IsFilling;
    if a.id in acmd && acmd[a.id].params.Params? && acmd[a.id].command in commands {
      var def := commands[acmd[a.id].command].params;
      if def.Params? && "payload" in def.entries && def.entries["payload"].Str? {
        var d := decode(def.entries["payload"].s);
        if d.Request? {
          var data := acmd[a.id].params.entries["node.parent.id" := Str(a.id)];
          FillableIff(d.payload, data);
          if AllFilled(d.payload.params, data) && r.body.Body? {
            FillingIff(d.payload, data, r.body.payload);
          }
        }
      }
    }
  }

  /** The one panic: the command and its payload are there, but the action has no parameters to bind its id in. */
  lemma PanicIff(decode: Decoder, commands: map<string, Node>, acmd: map<string, Command>, a: ActionConfig)
    ensures Prepare1(decode, commands, acmd, a).Panics? <==>
              && (a.id in acmd ==> acmd[a.id].params.Nil?)
              && var command := if a.id in acmd then acmd[a.id].command else "";
              && command in commands && commands[command].params.Params?
              && var def := commands[command].params.entries;
                 "payload" in def && def["payload"].Str?
  {
  }

  /** In particular: the parameters of a prepared payload one by one. */
  lemma PayloadIsTheActionsOwn(decode: Decoder, commands: map<string, Node>, acmd: map<string, Command>,
                               a: ActionConfig, n: string, k: string)
    requires Prepare1(decode, commands, acmd, a).Ready?
    ensures var r := Prepare1(decode, commands, acmd, a).action;
            && CanBePrepared(decode, commands, acmd, a) && r.body.Body?
            && var own := acmd[a.id].params.entries;
            && var p := decode(commands[acmd[a.id].command].params.entries["payload"].s).payload;
            && var q := r.body.payload;
            && (n in p.params <==> n in q.params)
            && ("_cancel" in p.params ==> q.params["_cancel"] == p.params["_cancel"])
            && (n in p.params && (forall j :: p.params[n] != Str(Braced(j))) ==> q.params[n] == p.params[n])
            && (n in p.params && n != "_cancel" && p.params[n] == Str(Braced(k)) ==>
                  if k == "node.parent.id" then q.params[n] == Str(a.id) else k in own && q.params[n] == own[k])
  {
    PreparedIff(decode, commands, acmd, a, Prepare1(decode, commands, acmd, a).action);
    hide Prepare1, Fillable;
  }
}
