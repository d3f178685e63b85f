/** Inactive subtrees, and trees the stack of `walk` is not made for. */
module ModelTreeProperties {
  import opened ModelTree
  import opened ModelTreeShape

  // ---------- inactive subtrees ----------

  /** The tree without its inactive nodes; what defines the command of a read node is kept. */
  function Prune(children: seq<Node>): seq<Node>
    decreases children
  {
    if children == [] then []
    else
      var c := children[0];
      (if !c.active then []
       else if c.Recursed() then [c.(children := Prune(c.children))]
       else [c]) + Prune(children[1..])
  }

  lemma PruneStep(children: seq<Node>)
    requires children != []
    ensures var c, rest := children[0], Prune(children[1..]);
            if !c.active then Prune(children) == rest
            else
              var c' := if c.Recursed() then c.(children := Prune(c.children)) else c;
              Prune(children) == [c'] + rest && Prune(children)[0] == c' && Prune(children)[1..] == rest
  {
  }

  lemma PrunedNode(connector: string, c: Node)
    requires c.Recursed()
    requires var inner := if c.Subsystem() then c.id else connector;
             Effects(inner, Prune(c.children)) == Effects(inner, c.children)
    ensures NodeEffects(connector, c.(children := Prune(c.children))) == NodeEffects(connector, c)
  {
    assert Exprs(c.(children := Prune(c.children))) == Exprs(c);
    hide Exprs, Prune;
  }

  lemma {:induction false} InactiveHasNoEffects(connector: string, children: seq<Node>)
    ensures Effects(connector, Prune(children)) == Effects(connector, children)
    decreases children
  {
    if children != [] {
      var c := children[0];
      InactiveHasNoEffects(connector, children[1..]);
      if c.Recursed() {
        InactiveHasNoEffects(if c.Subsystem() then c.id else connector, c.children);
        PrunedNode(connector, c);
      }
      PruneStep(children);
      var p := Prune(children);
      if c.active {
        hide NodeEffects, Prune;
        assert NodeEffects(connector, p[0]) == NodeEffects(connector, c);
        assert Effects(connector, p) == NodeEffects(connector, p[0]) + Effects(connector, p[1..]);
      } else {
        assert Effects(connector, children) == [] + Effects(connector, children[1..]);
      }
    }
  }

  lemma {:induction false} InactiveMovesNothing(n: nat, children: seq<Node>)
    ensures Safe(n, Prune(children)) == Safe(n, children)
    ensures DepthAfter(n, Prune(children)) == DepthAfter(n, children)
    decreases children
  {
    if children != [] {
      var c := children[0];
      PruneStep(children);
      InactiveMovesNothing(Depth1(n, c), children[1..]);
      if c.Recursed() {
        InactiveMovesNothing(if c.Subsystem() then n + 1 else n, c.children);
      }
    }
  }

  lemma {:induction false} InactiveShapesNothing(enclosed: bool, children: seq<Node>)
    ensures WellShaped(enclosed, Prune(children)) == WellShaped(enclosed, children)
    decreases children
  {
    if children != [] {
      var c := children[0];
      PruneStep(children);
      InactiveShapesNothing(enclosed, children[1..]);
      if c.Recursed() {
        InactiveShapesNothing(true, c.children);
      }
    }
  }

  lemma {:induction false} InactiveWalksNowhere(s: Stack, children: seq<Node>, extra: nat -> nat)
    requires ValidStack(s)
    ensures WalkOf(s, Prune(children), extra) == WalkOf(s, children, extra)
    decreases children
  {
    if children != [] {
      var c := children[0];
      PruneStep(children);
      if c.Recursed() {
        InactiveWalksNowhere(if c.Subsystem() then Pushed(s, c.id, extra) else s, c.children, extra);
        assert Exprs(c.(children := Prune(c.children))) == Exprs(c);
      }
      InactiveWalksNowhere(TurnOf(s, c, extra).next, children[1..], extra);
    }
  }

  /** An inactive subtree contributes nothing: neither effects, nor panics, nor stack movements. */
  lemma InactiveDoesNothing(connector: string, n: nat, children: seq<Node>, s: Stack, extra: nat -> nat)
    requires ValidStack(s)
    ensures WalkOf(s, Prune(children), extra) == WalkOf(s, children, extra)
    ensures Effects(connector, Prune(children)) == Effects(connector, children)
    ensures Safe(n, Prune(children)) == Safe(n, children) && DepthAfter(n, Prune(children)) == DepthAfter(n, children)
    ensures WellShaped(n > 0, Prune(children)) == WellShaped(n > 0, children)
  {
    InactiveWalksNowhere(s, children, extra);
    InactiveHasNoEffects(connector, children);
    InactiveMovesNothing(n, children);
    InactiveShapesNothing(n > 0, children);
  }

  // ---------- trees the stack is not made for ----------

  function Group(id: string, children: seq<Node>): Node {
    Node(id, id, "group", true, Read("", "", "", ""), "", "", Nil, children)
  }

  function Sub(id: string, children: seq<Node>): Node {
    Group(id, children).(typ := "subsystem")
  }

  function Sensor(id: string): Node {
    Group(id, []).(read := Read("schedule", "cmd", "1s", ""))
  }

  /** A plain grouping node takes its subsystem off the stack, and the next sensor finds it empty. */
  lemma GroupingNodePanics()
    ensures !Safe(0, [Sub("modbus", [Group("g", []), Sensor("s")])])
    ensures Safe(0, [Sub("modbus", [Sensor("s"), Group("g", [])])])
  {
    var bad := [Group("g", []), Sensor("s")];
    assert bad[1..] == [Sensor("s")];
    assert Depth1(1, bad[0]) == 0;
    assert !Safe1(0, bad[1..][0]);
    var good := [Sensor("s"), Group("g", [])];
    assert good[1..] == [Group("g", [])] && good[1..][1..] == [];
    assert Safe(1, good);
  }

  lemma WalkOfTwo(s: Stack, a: Node, b: Node, extra: nat -> nat)
    requires ValidStack(s)
    ensures WalkOf(s, [], extra) == Walked(true, s.len, s.mem, [])
    ensures var t := TurnOf(s, a, extra);
            WalkOf(s, [a], extra) == if t.ok then Walked(true, t.next.len, t.caller, t.effects)
                                     else Walked(false, 0, t.caller, t.effects)
    ensures var t := TurnOf(s, a, extra);
            t.ok ==>
              var u := TurnOf(t.next, b, extra);
              var caller := if t.moved then t.caller else u.caller;
              WalkOf(s, [a, b], extra) == if u.ok then Walked(true, u.next.len, caller, t.effects + u.effects)
                                          else Walked(false, 0, caller, t.effects + u.effects)
  {
    hide TurnOf;
    assert [a][1..] == [] && [a, b][1..] == [b] && [b][1..] == [];
    var t := TurnOf(s, a, extra);
    assert t.effects + [] == t.effects;
    if t.ok {
      var u := TurnOf(t.next, b, extra);
      assert u.effects + [] == u.effects;
      assert WalkOf(t.next, [b], extra).effects == u.effects;
    }
  }

  /** With a subsystem further out the same sensor gets that one as its connector, and nobody is told. */
  lemma GroupingNodeMisleads(extra: nat -> nat)
    ensures var w := WalkOf(Stack([], 0), [Sub("R", [Sub("A", [Group("g", []), Sensor("s")])])], extra);
            w.ok && w.effects == [SetAction("s", ConfigOf(Sensor("s"), "R"))]
  {
    var g, sensor := Group("g", []), Sensor("s");
    var inner := Sub("A", [g, sensor]);
    var outer := Sub("R", [inner]);
    var r := Pushed(Stack([], 0), "R", extra);
    var a := Pushed(r, "A", extra);
    hide WalkOf, Pushed;
    assert Ids(r) == [] + ["R"] && Ids(a) == Ids(r) + ["A"] == ["R", "A"];
    WalkOfTwo(a, g, sensor, extra);
    var n := TurnOf(a, g, extra);
    assert n == Turn(true, Stack(a.mem, 1), false, a.mem, []) by {
      WalkOfTwo(a, g, g, extra);
    }
    assert a.mem[0] == Ids(a)[0];
    assert TurnOf(n.next, sensor, extra).effects == [] + ([] + [SetAction("s", ConfigOf(sensor, "R"))]);
    WalkOfTwo(r, inner, g, extra);
    WalkOfTwo(Stack([], 0), outer, g, extra);
    assert WalkOf(a, inner.children, extra).ok;
    assert WalkOf(r, outer.children, extra).ok;
  }

  lemma WalkOfThree(s: Stack, a: Node, b: Node, c: Node, extra: nat -> nat)
    requires ValidStack(s) && TurnOf(s, a, extra).ok
    ensures var t := TurnOf(s, a, extra);
            var w := WalkOf(t.next, [b, c], extra);
            var caller := if t.moved then t.caller else w.caller;
            WalkOf(s, [a, b, c], extra) == Walked(w.ok, w.end, caller, t.effects + w.effects)
  {
    assert [a, b, c][1..] == [b, c];
    hide TurnOf;
  }

  /** Two groups below A take A and R off A's view of the shared array, and B is then written over R:
      the sensor, which stands directly below R, gets B as its connector. */
  lemma SharedStackOverwritten(extra: nat -> nat)
    ensures var a := Sub("A", [Group("g", []), Group("h", []), Sub("B", [])]);
            var w := WalkOf(Stack([], 0), [Sub("R", [a, Sensor("s")])], extra);
            w.ok && w.effects == [SetAction("s", ConfigOf(Sensor("s"), "B"))]
  {
    var r := Pushed(Stack([], 0), "R", extra);
    var ra := Pushed(r, "A", extra);
    var a := Sub("A", [Group("g", []), Group("h", []), Sub("B", [])]);
    var below := BelowA(ra, extra);
    var sensor := Sensor("s");
    hide WalkOf, Pushed;
    assert Ids(r) == [] + ["R"] && Ids(ra) == Ids(r) + ["A"] == ["R", "A"];
    assert TurnOf(r, a, extra).next == Stack(below.caller, 1);
    assert Top(TurnOf(r, a, extra).next) == "B";
    assert TurnOf(r, a, extra).effects == [] + [];
    assert TurnOf(TurnOf(r, a, extra).next, sensor, extra).effects
        == [] + ([] + [SetAction("s", ConfigOf(sensor, "B"))]);
    WalkOfTwo(r, a, sensor, extra);
    WalkOfTwo(Stack([], 0), Sub("R", [a, sensor]), a, extra);
    assert WalkOf(r, [a, sensor], extra).effects == [SetAction("s", ConfigOf(sensor, "B"))];
  }

  lemma BelowA(ra: Stack, extra: nat -> nat) returns (w: Walked)
    requires ValidStack(ra) && ra.len == 2
    ensures w == WalkOf(ra, [Group("g", []), Group("h", []), Sub("B", [])], extra)
    ensures w.ok && w.effects == [] && w.caller[0] == "B"
  {
    var g, h, b := Group("g", []), Group("h", []), Sub("B", []);
    WalkOfTwo(ra, g, g, extra);
    assert TurnOf(ra, g, extra) == Turn(true, Stack(ra.mem, 1), false, ra.mem, []);
    WalkOfTwo(Stack(ra.mem, 1), h, b, extra);
    assert TurnOf(Stack(ra.mem, 1), h, extra) == Turn(true, Stack(ra.mem, 0), false, ra.mem, []);
    var q := Pushed(Stack(ra.mem, 0), "B", extra);
    assert q == Stack(ra.mem[0 := "B"], 1);
    WalkOfTwo(q, g, g, extra);
    assert TurnOf(Stack(ra.mem, 0), b, extra) == Turn(true, Stack(q.mem, 0), false, q.mem, [] + []);
    hide WalkOf, TurnOf, Pushed;
    w := WalkOf(ra, [g, h, b], extra);
    WalkOfThree(ra, g, h, b, extra);
  }

  /** A subsystem with a read command is its own connector, on every stack, and stays on it. */
  lemma ReadingSubsystemLeaks(s: Stack, c: Node, extra: nat -> nat)
    requires ValidStack(s) && c.active && c.Subsystem() && c.Reads()
    ensures var t := TurnOf(s, c, extra);
            && t.ok && Ids(t.next) == Ids(s) + [c.id]
            && t.effects == Exprs(c) + (CommandDefs(c, c.children) + [SetAction(c.name, ConfigOf(c, c.id))])
  {
    var q := Pushed(s, c.id, extra);
    assert q.mem[q.len - 1] == Ids(q)[q.len - 1] == c.id;
  }

  lemma ShapeOf(d: nat, base: nat, lost: bool, c: Node, rest: seq<Node>)
    ensures Shape(d, base, lost, [c] + rest) <==>
              Shape1(d, base, lost, c) && Shape(Depth1(d, c), base, lost || base - 1 in Written1(d, c), rest)
    ensures Written(d, [c] + rest) == Written1(d, c) + Written(Depth1(d, c), rest)
  {
    assert ([c] + rest)[1..] == rest;
  }

  lemma GroupShape(d: nat, base: nat, id: string, rest: seq<Node>)
    requires d > 0
    ensures Shape(d, base, false, [Group(id, [])] + rest) <==> Shape(d - 1, base, false, rest)
    ensures Written(d, [Group(id, [])] + rest) == Written(d - 1, rest)
  {
    ShapeOf(d, base, false, Group(id, []), rest);
  }

  lemma ShapeBelowY(below: seq<Node>)
    requires below == [Group("g", []), Group("h", []), Group("k", []), Sub("B", [])]
    ensures Shape(3, 3, false, below) && Written(3, below) == {0}
  {
    var b := [Sub("B", [])];
    var kb := [Group("k", [])] + b;
    var hkb := [Group("h", [])] + kb;
    assert b == [Sub("B", [])] + [] && below == [Group("g", [])] + hkb;
    NothingBelow(0, 3, false);
    NothingBelow(1, 1, false);
    hide Shape, Written;
    ShapeOf(0, 3, false, Sub("B", []), []);
    GroupShape(1, 3, "k", b);
    GroupShape(2, 3, "h", kb);
    GroupShape(3, 3, "g", hkb);
  }

  /** Three groups below Y let B be written over R, the lowest entry; but the sensor stands below A, whose
      entry is still there, and all is well.  So it does not matter that a lower slot is written to. */
  lemma LowerSlotDoesNotMatter(extra: nat -> nat)
    ensures var y := Sub("Y", [Group("g", []), Group("h", []), Group("k", []), Sub("B", [])]);
            0 in Written1(2, y) && IsRight([Sub("R", [Sub("A", [y, Sensor("s")])])], extra)
  {
    var y := Sub("Y", [Group("g", []), Group("h", []), Group("k", []), Sub("B", [])]);
    var s := [Sensor("s")];
    var ys := [y] + s;
    var a, r := Sub("A", ys), Sub("R", [Sub("A", ys)]);
    ShapeBelowY(y.children);
    assert s == [Sensor("s")] + [] && ys == [y, Sensor("s")] && [a] == [a] + [] && [r] == [r] + [];
    NothingBelow(0, 0, false);
    NothingBelow(1, 1, false);
    NothingBelow(2, 2, false);
    hide Shape, Written;
    assert Written1(2, y) == {2, 0};
    ShapeOf(2, 2, false, Sensor("s"), []);
    ShapeOf(2, 2, false, y, s);
    ShapeOf(1, 1, false, a, []);
    ShapeOf(0, 0, false, r, []);
    ShapeIsRight([r], extra);
  }

  lemma NothingBelow(d: nat, base: nat, lost: bool)
    ensures Shape(d, base, lost, []) && Written(d, []) == {}
    ensures Shape(d, base, true, [])
  {
  }
}
