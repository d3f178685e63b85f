/** On which trees every action gets its nearest enclosing subsystem as connector: a condition on the
    tree alone, and not on ids, memory or the growth of slices. */
module ModelTreeShape {
  import opened ModelTree

  // ---------- the condition ----------

  /** The slots of the shared array that walking a child, or children, writes to when the stack is d long. */
  function Written1(d: nat, c: Node): set<nat>
    decreases c, 1
  {
    if !c.active || c.Action() then {}
    else if c.Subsystem() then {d} + if c.Reads() then {} else Written(d + 1, c.children)
    else if c.Reads() then {}
    else Written(d, c.children)
  }

  function Written(d: nat, children: seq<Node>): set<nat>
    decreases children, 0
  {
    if children == [] then {} else Written1(d, children[0]) + Written(Depth1(d, children[0]), children[1..])
  }

  /** The nearest subsystem was pushed as number `base` from the bottom, 0 when there is none; now the stack
      is d long, and `lost` says that its slot has been written to since.  Then every read node is a plain
      one that finds the stack as long as it was and the slot as it was. */
  predicate Shape1(d: nat, base: nat, lost: bool, c: Node)
    decreases c, 1
  {
    c.active && !c.Action() ==>
      if c.Reads() then !c.Subsystem() && base > 0 && d == base && !lost
      else if c.Subsystem() then Shape(d + 1, d + 1, false, c.children)
      else Shape(d, base, lost, c.children)
  }

  predicate Shape(d: nat, base: nat, lost: bool, children: seq<Node>)
    decreases children, 0
  {
    children != [] ==>
      && Shape1(d, base, lost, children[0])
      && Shape(Depth1(d, children[0]), base, lost || base - 1 in Written1(d, children[0]), children[1..])
  }

  // ---------- what happens to a slot ----------

  /** The ids walk may push below here: those of the live subsystems it comes to. */
  function PushedIds1(c: Node): set<string>
    decreases c, 1
  {
    if !c.active || c.Action() then {}
    else (if c.Subsystem() then {c.id} else {}) + if c.Reads() then {} else PushedIds(c.children)
  }

  function PushedIds(children: seq<Node>): set<string>
    decreases children, 0
  {
    if children == [] then {} else PushedIds1(children[0]) + PushedIds(children[1..])
  }

  /** A slot that is not written to keeps its entry, in the caller's array and in the one the stack is in after it. */
  predicate Keeps(mem: seq<string>, caller: seq<string>, next: seq<string>, written: set<nat>) {
    && |caller| == |mem| <= |next|
    && forall i :: 0 <= i < |mem| && i !in written ==> caller[i] == next[i] == mem[i]
  }

  lemma {:induction false} TurnKeeps(s: Stack, c: Node, extra: nat -> nat)
    requires ValidStack(s) && TurnOf(s, c, extra).ok
    ensures var t := TurnOf(s, c, extra); Keeps(s.mem, t.caller, t.next.mem, Written1(s.len, c))
    decreases c, 1
  {
    if c.Recursed() {
      WalkKeeps(if c.Subsystem() then Pushed(s, c.id, extra) else s, c.children, extra);
    }
  }

  lemma {:induction false} WalkKeeps(s: Stack, children: seq<Node>, extra: nat -> nat)
    requires ValidStack(s) && WalkOf(s, children, extra).ok
    ensures var w := WalkOf(s, children, extra); Keeps(s.mem, w.caller, w.caller, Written(s.len, children))
    decreases children, 0
  {
    if children != [] {
      var t := TurnOf(s, children[0], extra);
      TurnKeeps(s, children[0], extra);
      TurnIsSafe(s, children[0], extra);
      WalkKeeps(t.next, children[1..], extra);
    }
  }

  /** New entries are ids pushed on the way, or empty. */
  predicate From(mem: seq<string>, next: seq<string>, ids: set<string>) {
    forall x :: x in next ==> x == "" || x in mem || x in ids
  }

  lemma PushedFrom(s: Stack, id: string, extra: nat -> nat)
    requires ValidStack(s)
    ensures From(s.mem, Pushed(s, id, extra).mem, {id})
  {
  }

  lemma FromThen(a: seq<string>, b: seq<string>, c: seq<string>, x: set<string>, y: set<string>)
    requires From(a, b, x) && From(b, c, y)
    ensures From(a, c, x + y)
  {
  }

  lemma {:induction false} TurnFrom(s: Stack, c: Node, extra: nat -> nat)
    requires ValidStack(s)
    ensures var t := TurnOf(s, c, extra);
            From(s.mem, t.next.mem, PushedIds1(c)) && From(s.mem, t.caller, PushedIds1(c))
    decreases c, 1
  {
    if c.active && !c.Action() {
      var q := if c.Subsystem() then Pushed(s, c.id, extra) else s;
      var own := if c.Subsystem() then {c.id} else {};
      if c.Subsystem() {
        PushedFrom(s, c.id, extra);
      }
      if !c.Reads() {
        WalkFrom(q, c.children, extra);
        FromThen(s.mem, q.mem, WalkOf(q, c.children, extra).caller, own, PushedIds(c.children));
      }
    }
  }

  lemma {:induction false} WalkFrom(s: Stack, children: seq<Node>, extra: nat -> nat)
    requires ValidStack(s)
    ensures From(s.mem, WalkOf(s, children, extra).caller, PushedIds(children))
    decreases children, 0
  {
    if children != [] {
      var t := TurnOf(s, children[0], extra);
      TurnFrom(s, children[0], extra);
      if t.ok {
        WalkFrom(t.next, children[1..], extra);
        FromThen(s.mem, t.next.mem, WalkOf(t.next, children[1..], extra).caller,
                 PushedIds1(children[0]), PushedIds(children[1..]));
      }
    }
  }

  // ---------- with room for all ----------

  /** How often walk pushes. */
  function Pushes1(c: Node): nat
    decreases c, 1
  {
    if !c.active || c.Action() then 0
    else (if c.Subsystem() then 1 else 0) + if c.Reads() then 0 else Pushes(c.children)
  }

  function Pushes(children: seq<Node>): nat
    decreases children, 0
  {
    if children == [] then 0 else Pushes1(children[0]) + Pushes(children[1..])
  }

  /** The slots written to hold ids pushed on the way. */
  predicate Overwrites(mem: seq<string>, written: set<nat>, ids: set<string>) {
    forall i :: 0 <= i < |mem| && i in written ==> mem[i] in ids
  }

  lemma {:induction false} TurnOverwrites(s: Stack, c: Node, extra: nat -> nat)
    requires ValidStack(s) && s.len + Pushes1(c) <= |s.mem| && TurnOf(s, c, extra).ok
    ensures var t := TurnOf(s, c, extra);
            && !t.moved && t.next.len <= s.len + Pushes1(c)
            && Overwrites(t.caller, Written1(s.len, c), PushedIds1(c))
    decreases c, 1
  {
    if c.Recursed() {
      var q := if c.Subsystem() then Pushed(s, c.id, extra) else s;
      WalkOverwrites(q, c.children, extra);
      WalkKeeps(q, c.children, extra);
    }
  }

  lemma {:induction false} WalkOverwrites(s: Stack, children: seq<Node>, extra: nat -> nat)
    requires ValidStack(s) && s.len + Pushes(children) <= |s.mem| && WalkOf(s, children, extra).ok
    ensures Overwrites(WalkOf(s, children, extra).caller, Written(s.len, children), PushedIds(children))
    decreases children, 0
  {
    if children != [] {
      var t := TurnOf(s, children[0], extra);
      TurnOverwrites(s, children[0], extra);
      TurnIsSafe(s, children[0], extra);
      WalkOverwrites(t.next, children[1..], extra);
      WalkKeeps(t.next, children[1..], extra);
    }
  }

  // ---------- the condition is enough ----------

  /** The slot of the nearest subsystem holds its id. */
  predicate AtBase(s: Stack, connector: string, base: nat) {
    base > 0 ==> base <= |s.mem| && s.mem[base - 1] == connector
  }

  lemma {:induction false} ShapeIsAttended(s: Stack, connector: string, base: nat, lost: bool, children: seq<Node>,
                                          extra: nat -> nat)
    requires ValidStack(s) && Shape(s.len, base, lost, children)
    requires lost || AtBase(s, connector, base)
    ensures Attended(s, connector, children, extra)
    decreases children, 0
  {
    if children != [] {
      var c := children[0];
      var t := TurnOf(s, c, extra);
      ShapeIsAttended1(s, connector, base, lost, c, extra);
      TurnIsRightIff(s, connector, c, extra);
      TurnIsSafe(s, c, extra);
      TurnKeeps(s, c, extra);
      var lost' := lost || base - 1 in Written1(s.len, c);
      ShapeIsAttended(t.next, connector, base, lost', children[1..], extra);
    }
  }

  lemma {:induction false} ShapeIsAttended1(s: Stack, connector: string, base: nat, lost: bool, c: Node,
                                           extra: nat -> nat)
    requires ValidStack(s) && Shape1(s.len, base, lost, c)
    requires lost || AtBase(s, connector, base)
    ensures Attended1(s, connector, c, extra)
    decreases c, 1
  {
    if c.Recursed() {
      if c.Subsystem() {
        ShapeIsAttended(Pushed(s, c.id, extra), c.id, s.len + 1, false, c.children, extra);
      } else {
        ShapeIsAttended(s, connector, base, lost, c.children, extra);
      }
    }
  }

  /** Well-shaped trees have it: nothing below the stack they come with is written to. */
  lemma {:induction false} WellShapedHasShape(d: nat, children: seq<Node>)
    requires WellShaped(d > 0, children)
    ensures Shape(d, d, false, children) && forall i :: i in Written(d, children) ==> i >= d
    decreases children, 0
  {
    if children != [] {
      WellShapedHasShape1(d, children[0]);
      WellShapedIsSafe1(d, children[0]);
      WellShapedHasShape(d, children[1..]);
    }
  }

  lemma {:induction false} WellShapedHasShape1(d: nat, c: Node)
    requires WellShaped1(d > 0, c)
    ensures Shape1(d, d, false, c) && forall i :: i in Written1(d, c) ==> i >= d
    decreases c, 1
  {
    if c.Recursed() {
      WellShapedHasShape(d + 1, c.children);
    }
  }

  // ---------- and needed, where ids differ ----------

  /** No two subsystems that walk comes to have the same id. */
  predicate Distinct1(c: Node)
    decreases c, 1
  {
    c.Recursed() ==> Distinct(c.children) && (c.Subsystem() ==> c.id !in PushedIds(c.children))
  }

  predicate Distinct(children: seq<Node>)
    decreases children, 0
  {
    children != [] ==>
      && Distinct1(children[0]) && Distinct(children[1..])
      && PushedIds1(children[0]) !! PushedIds(children[1..])
  }

  predicate Fresh(mem: seq<string>, ids: set<string>) {
    forall x :: x in mem ==> x !in ids
  }

  predicate HasRoom(s: Stack, pushes: nat, extra: nat -> nat) {
    s.len + pushes <= |s.mem| || (s == Stack([], 0) && pushes <= extra(1))
  }

  /** The id of the nearest subsystem stands in its own slot only, and there only while that is not lost. */
  predicate Based(s: Stack, connector: string, base: nat, lost: bool)
    requires ValidStack(s)
  {
    if base == 0 then s.len == 0
    else
      && s.len <= base <= |s.mem|
      && forall i :: 0 <= i < s.len && s.mem[i] == connector ==> i == base - 1 && !lost
  }

  /** What is on the stack, and in its array, on the way to nodes that push these ids. */
  predicate Met(s: Stack, connector: string, base: nat, lost: bool, ids: set<string>, pushes: nat, extra: nat -> nat) {
    && ValidStack(s) && "" !in ids && connector !in ids
    && Fresh(s.mem, ids) && HasRoom(s, pushes, extra) && Based(s, connector, base, lost)
  }

  lemma {:induction false} AttendedHasShape(s: Stack, connector: string, base: nat, lost: bool, children: seq<Node>,
                                           extra: nat -> nat)
    requires Met(s, connector, base, lost, PushedIds(children), Pushes(children), extra)
    requires Distinct(children) && Attended(s, connector, children, extra)
    ensures Shape(s.len, base, lost, children)
    decreases children, 0
  {
    if children != [] {
      var c := children[0];
      AttendedHasShape1(s, connector, base, lost, c, extra);
      TurnIsRightIff(s, connector, c, extra);
      TurnIsSafe(s, c, extra);
      NextIsMet(s, connector, base, lost, c, children[1..], extra);
      var lost' := lost || base - 1 in Written1(s.len, c);
      AttendedHasShape(TurnOf(s, c, extra).next, connector, base, lost', children[1..], extra);
    }
  }

  /** The first push of all finds room for the others. */
  lemma RoomFromNothing(c: Node, extra: nat -> nat)
    requires !(c.active && c.Subsystem() && c.Reads())
    ensures var t := TurnOf(Stack([], 0), c, extra);
            t.ok ==> t.next.len == 0 && (t.next.mem == [] || |t.next.mem| > extra(1))
  {
    TurnIsSafe(Stack([], 0), c, extra);
  }

  lemma NextIsFresh(mem: seq<string>, next: seq<string>, ids: set<string>, rest: set<string>)
    requires Fresh(mem, ids + rest) && From(mem, next, ids) && ids !! rest && "" !in rest
    ensures Fresh(next, rest)
  {
    forall x | x in next
      ensures x !in rest
    {
      assert x in mem ==> x !in ids + rest;
    }
  }

  lemma NextIsBased(s: Stack, next: Stack, connector: string, base: nat, lost: bool, written: set<nat>,
                    ids: set<string>)
    requires ValidStack(s) && ValidStack(next) && Based(s, connector, base, lost) && connector !in ids
    requires next.len <= s.len && |next.mem| >= |s.mem|
    requires base > 0 ==>
               && |next.mem| == |s.mem| && Overwrites(next.mem, written, ids)
               && forall i :: 0 <= i < |s.mem| && i !in written ==> next.mem[i] == s.mem[i]
    ensures Based(next, connector, base, lost || base - 1 in written)
  {
  }

  lemma NextStaysBased(s: Stack, connector: string, base: nat, lost: bool, c: Node, extra: nat -> nat)
    requires ValidStack(s) && Based(s, connector, base, lost) && connector !in PushedIds1(c)
    requires HasRoom(s, Pushes1(c), extra)
    requires TurnOf(s, c, extra).ok && !(c.active && c.Subsystem() && c.Reads())
    ensures Based(TurnOf(s, c, extra).next, connector, base, lost || base - 1 in Written1(s.len, c))
  {
    var next := TurnOf(s, c, extra).next;
    TurnIsSafe(s, c, extra);
    assert next.len <= s.len;
    TurnKeeps(s, c, extra);
    hide TurnOf, WalkOf, PushedIds1, Written1, Pushes1, Based;
    if s.len + Pushes1(c) <= |s.mem| {
      TurnOverwrites(s, c, extra);
    } else {
      BasedInNothing(connector, base, lost);
    }
    NextIsBased(s, next, connector, base, lost, Written1(s.len, c), PushedIds1(c));
  }

  lemma NextHasRoom(s: Stack, c: Node, rest: nat, extra: nat -> nat)
    requires ValidStack(s) && HasRoom(s, Pushes1(c) + rest, extra)
    requires TurnOf(s, c, extra).ok && !(c.active && c.Subsystem() && c.Reads())
    ensures HasRoom(TurnOf(s, c, extra).next, rest, extra)
  {
    TurnKeeps(s, c, extra);
    hide TurnOf, WalkOf, Written1, Pushes1, PushedIds1;
    if s.len + Pushes1(c) <= |s.mem| {
      TurnOverwrites(s, c, extra);
    } else {
      RoomFromNothing(c, extra);
    }
  }

  lemma NextIsMet(s: Stack, connector: string, base: nat, lost: bool, c: Node, rest: seq<Node>, extra: nat -> nat)
    requires Met(s, connector, base, lost, PushedIds1(c) + PushedIds(rest), Pushes1(c) + Pushes(rest), extra)
    requires PushedIds1(c) !! PushedIds(rest) && TurnOf(s, c, extra).ok && !(c.active && c.Subsystem() && c.Reads())
    ensures var lost' := lost || base - 1 in Written1(s.len, c);
            Met(TurnOf(s, c, extra).next, connector, base, lost', PushedIds(rest), Pushes(rest), extra)
  {
    hide TurnOf, WalkOf, PushedIds, PushedIds1, Pushes, Written1, Pushes1, Fresh, From, Based;
    TurnFrom(s, c, extra);
    NextIsFresh(s.mem, TurnOf(s, c, extra).next.mem, PushedIds1(c), PushedIds(rest));
    NextStaysBased(s, connector, base, lost, c, extra);
    NextHasRoom(s, c, Pushes(rest), extra);
  }

  lemma BasedInNothing(connector: string, base: nat, lost: bool)
    requires Based(Stack([], 0), connector, base, lost)
    ensures base == 0
  {
  }

  lemma {:induction false} AttendedHasShape1(s: Stack, connector: string, base: nat, lost: bool, c: Node,
                                            extra: nat -> nat)
    requires Met(s, connector, base, lost, PushedIds1(c), Pushes1(c), extra)
    requires Distinct1(c) && Attended1(s, connector, c, extra)
    ensures Shape1(s.len, base, lost, c) && !(c.active && c.Subsystem() && c.Reads())
    decreases c, 1
  {
    if c.Recursed() {
      if c.Subsystem() {
        var q := Pushed(s, c.id, extra);
        PushedFrom(s, c.id, extra);
        AttendedHasShape(q, c.id, s.len + 1, false, c.children, extra);
      } else {
        AttendedHasShape(s, connector, base, lost, c.children, extra);
      }
    }
  }

  // ---------- exactly ----------

  /** walk ends without a panic, and every connector is the nearest enclosing subsystem. */
  predicate IsRight(children: seq<Node>, extra: nat -> nat) {
    var w := WalkOf(Stack([], 0), children, extra);
    w.ok && w.effects == Effects("", children)
  }

  /** Trees of that shape are walked right, whatever their ids and however slices grow. */
  lemma ShapeIsRight(children: seq<Node>, extra: nat -> nat)
    requires Shape(0, 0, false, children)
    ensures IsRight(children, extra)
  {
    ShapeIsAttended(Stack([], 0), "", 0, false, children, extra);
    WalkIsRightIff(Stack([], 0), "", children, extra);
  }

  /** Where the ids of the subsystems are not empty and differ, no other trees are. */
  lemma ShapeIsRightIff(children: seq<Node>)
    requires Distinct(children) && "" !in PushedIds(children)
    ensures (forall extra :: IsRight(children, extra)) <==> Shape(0, 0, false, children)
  {
    if Shape(0, 0, false, children) {
      forall extra
        ensures IsRight(children, extra)
      {
        ShapeIsRight(children, extra);
      }
    }
    if forall extra :: IsRight(children, extra) {
      var n := Pushes(children);
      var extra := (_: nat) => n;
      assert IsRight(children, extra);
      WalkIsRightIff(Stack([], 0), "", children, extra);
      AttendedHasShape(Stack([], 0), "", 0, false, children, extra);
    }
  }
}
