/** The listing as a set of walks: every way of at most ten references that ends in a variable. */
module OpcuaBrowseProperties {
  import opened OpcuaBrowse

  function Refs(srv: Server, n: NodeId, t: RefType): seq<NodeId> {
    match srv.references(n, t)
    case None => []
    case Some(refs) => refs
  }

  /** All references of a node, in the order they are followed. */
  function Next(srv: Server, n: NodeId): seq<NodeId> {
    Refs(srv, n, HasComponent) + Refs(srv, n, Organizes) + Refs(srv, n, HasProperty)
  }

  /** Class and name are there; the other attributes are there or do not exist. */
  predicate Readable(a: Attrs) {
    a.nodeClass.Good? && a.browseName.Good? && !a.description.Bad? && !a.access.Bad? && !a.dataType.Bad?
  }

  /** The node can be read and its references listed. */
  predicate Sound(srv: Server, n: NodeId) {
    && srv.attributes(n).Some? && Readable(srv.attributes(n).value)
    && srv.references(n, HasComponent).Some? && srv.references(n, Organizes).Some?
    && srv.references(n, HasProperty).Some?
  }

  lemma SoundIsDefined(srv: Server, n: NodeId)
    ensures Sound(srv, n) <==>
              && Define(srv, n).Some? && srv.references(n, HasComponent).Some?
              && srv.references(n, Organizes).Some? && srv.references(n, HasProperty).Some?
    ensures Define(srv, n).Some? ==>
              Name(srv, n) == Define(srv, n).value.browseName
              && (IsVariable(srv, n) <==> Define(srv, n).value.nodeClass == 2)
  {
  }

  /** A walk from n: the number of the reference taken at each step. */
  predicate IsWalk(srv: Server, n: NodeId, w: seq<nat>)
    decreases |w|
  {
    w != [] ==> w[0] < |Next(srv, n)| && IsWalk(srv, Next(srv, n)[w[0]], w[1..])
  }

  function End(srv: Server, n: NodeId, w: seq<nat>): NodeId
    requires IsWalk(srv, n, w)
    decreases |w|
  {
    if w == [] then n else End(srv, Next(srv, n)[w[0]], w[1..])
  }

  // ---------- failures ----------

  /** Every node within reach is sound. */
  predicate Healthy(srv: Server, n: NodeId, left: nat)
    decreases left
  {
    left > 0 ==> Sound(srv, n) && forall i :: 0 <= i < |Next(srv, n)| ==> Healthy(srv, Next(srv, n)[i], left - 1)
  }

  lemma {:induction false} ListingOfAllFails(srv: Server, refs: seq<NodeId>, path: string, left: nat)
    requires forall i :: 0 <= i < |refs| ==> (Listing(srv, refs[i], path, left).Some? <==> Healthy(srv, refs[i], left))
    ensures ListingOfAll(srv, refs, path, left).Some? <==> forall i :: 0 <= i < |refs| ==> Healthy(srv, refs[i], left)
    decreases |refs|
  {
    if refs != [] {
      ListingOfAllFails(srv, refs[1..], path, left);
      assert forall i :: 1 <= i < |refs| ==> refs[1..][i - 1] == refs[i];
    }
  }

  lemma {:induction false} ListingFails(srv: Server, n: NodeId, path: string, left: nat)
    ensures Listing(srv, n, path, left).Some? <==> Healthy(srv, n, left)
    decreases left
  {
    SoundIsDefined(srv, n);
    hide Described, Readable, Define;
    if left > 0 && Sound(srv, n) {
      var next := Next(srv, n);
      var c, o, p := Refs(srv, n, HasComponent), Refs(srv, n, Organizes), Refs(srv, n, HasProperty);
      var here := Join(path, Define(srv, n).value.browseName);
      forall i | 0 <= i < |next|
        ensures Listing(srv, next[i], here, left - 1).Some? <==> Healthy(srv, next[i], left - 1)
      {
        ListingFails(srv, next[i], here, left - 1);
      }
      assert forall i :: 0 <= i < |c| ==> c[i] == next[i];
      assert forall i :: 0 <= i < |o| ==> o[i] == next[|c| + i];
      assert forall i :: 0 <= i < |p| ==> p[i] == next[|c| + |o| + i];
      hide Sound, Next, Refs;
      ListingOfAllFails(srv, c, here, left - 1);
      ListingOfAllFails(srv, o, here, left - 1);
      ListingOfAllFails(srv, p, here, left - 1);
      ListingByParts(srv, n, path, left);
      HealthyByParts(srv, n, c, o, p, left);
    }
  }

  function Joined(def: NodeDef, c: Option<seq<NodeDef>>, o: Option<seq<NodeDef>>, p: Option<seq<NodeDef>>)
    : Option<seq<NodeDef>>
  {
    if c.None? || o.None? || p.None? then None else Some(Self(def) + c.value + o.value + p.value)
  }

  lemma ListingByParts(srv: Server, n: NodeId, path: string, left: nat)
    requires left > 0 && Sound(srv, n)
    ensures var here := Join(path, Define(srv, n).value.browseName);
            var def := Define(srv, n).value.(path := here);
            var c := ListingOfAll(srv, Refs(srv, n, HasComponent), here, left - 1);
            var o := ListingOfAll(srv, Refs(srv, n, Organizes), here, left - 1);
            var p := ListingOfAll(srv, Refs(srv, n, HasProperty), here, left - 1);
            Listing(srv, n, path, left) == Joined(def, c, o, p)
  {
  }

  lemma HealthyByParts(srv: Server, n: NodeId, c: seq<NodeId>, o: seq<NodeId>, p: seq<NodeId>, left: nat)
    requires left > 0 && Sound(srv, n) && Next(srv, n) == c + o + p
    ensures Healthy(srv, n, left) <==>
              && (forall i :: 0 <= i < |c| ==> Healthy(srv, c[i], left - 1))
              && (forall i :: 0 <= i < |o| ==> Healthy(srv, o[i], left - 1))
              && (forall i :: 0 <= i < |p| ==> Healthy(srv, p[i], left - 1))
  {
    var next := Next(srv, n);
    assert forall i :: 0 <= i < |c| ==> c[i] == next[i];
    assert forall i :: 0 <= i < |o| ==> o[i] == next[|c| + i];
    assert forall i :: 0 <= i < |p| ==> p[i] == next[|c| + |o| + i];
  }

  lemma {:induction false} HealthyIffWalks(srv: Server, n: NodeId, left: nat)
    ensures Healthy(srv, n, left) <==> forall w :: IsWalk(srv, n, w) && |w| < left ==> Sound(srv, End(srv, n, w))
    decreases left
  {
    var next := Next(srv, n);
    if left > 0 {
      if Healthy(srv, n, left) {
        forall w | IsWalk(srv, n, w) && |w| < left
          ensures Sound(srv, End(srv, n, w))
        {
          if w != [] {
            HealthyIffWalks(srv, next[w[0]], left - 1);
          }
        }
      }
      if forall w :: IsWalk(srv, n, w) && |w| < left ==> Sound(srv, End(srv, n, w)) {
        assert IsWalk(srv, n, []) && End(srv, n, []) == n;
        forall i | 0 <= i < |next|
          ensures Healthy(srv, next[i], left - 1)
        {
          forall w | IsWalk(srv, next[i], w) && |w| < left - 1
            ensures Sound(srv, End(srv, next[i], w))
          {
            var longer := [i] + w;
            assert longer[1..] == w;
            assert IsWalk(srv, n, longer) && Sound(srv, End(srv, n, longer));
          }
          HealthyIffWalks(srv, next[i], left - 1);
        }
      }
    }
  }

  /** Browsing fails exactly when some walk of at most ten references ends in a node that is not sound. */
  lemma BrowseFailsIff(srv: Server, n: NodeId)
    ensures Listing(srv, n, "", Left(0)).None? <==>
              exists w :: IsWalk(srv, n, w) && |w| <= 10 && !Sound(srv, End(srv, n, w))
  {
    ListingFails(srv, n, "", Left(0));
    HealthyIffWalks(srv, n, Left(0));
  }

  // ---------- the walks, in order ----------

  function Prefixed(i: nat, ws: seq<seq<nat>>): (r: seq<seq<nat>>)
    ensures |r| == |ws| && forall j :: 0 <= j < |r| ==> r[j] == [i] + ws[j]
  {
    seq(|ws|, j requires 0 <= j < |ws| => [i] + ws[j])
  }

  function Name(srv: Server, n: NodeId): string {
    match srv.attributes(n)
    case None => ""
    case Some(a) => if a.browseName.Good? then a.browseName.value else ""
  }

  predicate IsVariable(srv: Server, n: NodeId) {
    match srv.attributes(n)
    case None => false
    case Some(a) => a.nodeClass == Good(2)
  }

  /** Pre-order: a walk before its extensions, and those by the number of their first reference. */
  function Walks(srv: Server, n: NodeId, left: nat): seq<seq<nat>>
    decreases left, 1, 0
  {
    if left == 0 then []
    else (if IsVariable(srv, n) then [[]] else []) + WalksFrom(srv, Next(srv, n), 0, left - 1)
  }

  function WalksFrom(srv: Server, refs: seq<NodeId>, at: nat, left: nat): seq<seq<nat>>
    decreases left, 2, |refs|
  {
    if refs == [] then [] else Prefixed(at, Walks(srv, refs[0], left)) + WalksFrom(srv, refs[1..], at + 1, left)
  }

  lemma {:induction false} WalksAreAll(srv: Server, n: NodeId, left: nat, w: seq<nat>)
    ensures w in Walks(srv, n, left) <==> IsWalk(srv, n, w) && |w| < left && IsVariable(srv, End(srv, n, w))
    decreases left, 1, 0
  {
    if left > 0 {
      var head := if IsVariable(srv, n) then [[]] else [];
      var tail := WalksFrom(srv, Next(srv, n), 0, left - 1);
      assert w in Walks(srv, n, left) <==> w in head || w in tail;
      WalksFromAreAll(srv, Next(srv, n), 0, left - 1, w);
    }
  }

  lemma {:induction false} WalksFromAreAll(srv: Server, refs: seq<NodeId>, at: nat, left: nat, w: seq<nat>)
    ensures w in WalksFrom(srv, refs, at, left) <==>
              && w != [] && at <= w[0] < at + |refs|
              && IsWalk(srv, refs[w[0] - at], w[1..]) && |w| <= left
              && IsVariable(srv, End(srv, refs[w[0] - at], w[1..]))
    decreases left, 2, |refs|
  {
    if refs != [] {
      var first := Prefixed(at, Walks(srv, refs[0], left));
      var rest := WalksFrom(srv, refs[1..], at + 1, left);
      assert w in WalksFrom(srv, refs, at, left) <==> w in first || w in rest;
      WalksFromAreAll(srv, refs[1..], at + 1, left, w);
      if w != [] {
        WalksAreAll(srv, refs[0], left, w[1..]);
        InPrefixed(at, Walks(srv, refs[0], left), w);
      }
    }
  }

  lemma InPrefixed(i: nat, ws: seq<seq<nat>>, w: seq<nat>)
    requires w != []
    ensures w in Prefixed(i, ws) <==> w[0] == i && w[1..] in ws
  {
    if w[0] == i && w[1..] in ws {
      var j :| 0 <= j < |ws| && ws[j] == w[1..];
      assert Prefixed(i, ws)[j] == [i] + w[1..] == w;
    }
    if w in Prefixed(i, ws) {
      var j :| 0 <= j < |ws| && Prefixed(i, ws)[j] == w;
      assert w == [i] + ws[j] && w[1..] == ws[j];
    }
  }

  /** Pre-order as an order on walks. */
  predicate Before(v: seq<nat>, w: seq<nat>)
    decreases |v|
  {
    w != [] && (v == [] || v[0] < w[0] || (v[0] == w[0] && Before(v[1..], w[1..])))
  }

  predicate Ordered(ws: seq<seq<nat>>) {
    forall i, j :: 0 <= i < j < |ws| ==> Before(ws[i], ws[j])
  }

  lemma {:induction false} WalksAreOrdered(srv: Server, n: NodeId, left: nat)
    ensures Ordered(Walks(srv, n, left))
    decreases left, 1, 0
  {
    if left > 0 {
      var tail := WalksFrom(srv, Next(srv, n), 0, left - 1);
      WalksFromAreOrdered(srv, Next(srv, n), 0, left - 1);
    }
  }

  lemma {:induction false} WalksFromAreOrdered(srv: Server, refs: seq<NodeId>, at: nat, left: nat)
    ensures Ordered(WalksFrom(srv, refs, at, left))
    ensures forall w :: w in WalksFrom(srv, refs, at, left) ==> w != [] && w[0] >= at
    decreases left, 2, |refs|
  {
    if refs != [] {
      var ws := Walks(srv, refs[0], left);
      var first, rest := Prefixed(at, ws), WalksFrom(srv, refs[1..], at + 1, left);
      WalksAreOrdered(srv, refs[0], left);
      WalksFromAreOrdered(srv, refs[1..], at + 1, left);
      forall i, j | 0 <= i < j < |first|
        ensures Before(first[i], first[j])
      {
        assert first[i][1..] == ws[i] && first[j][1..] == ws[j];
      }
      forall i, j | 0 <= i < |first| && 0 <= j < |rest|
        ensures Before(first[i], rest[j])
      {
        assert rest[j] in rest;
      }
    }
  }

  lemma {:induction false} BeforeIsStrict(w: seq<nat>)
    ensures !Before(w, w)
    decreases |w|
  {
    if w != [] {
      BeforeIsStrict(w[1..]);
    }
  }

  lemma OrderedIsDistinct(ws: seq<seq<nat>>)
    requires Ordered(ws)
    ensures forall i, j :: 0 <= i < j < |ws| ==> ws[i] != ws[j]
  {
    forall i, j | 0 <= i < j < |ws|
      ensures ws[i] != ws[j]
    {
      BeforeIsStrict(ws[i]);
    }
  }

  // ---------- the entries ----------

  /** The names along the walk, folded with Join. */
  function PathAlong(srv: Server, n: NodeId, path: string, w: seq<nat>): string
    requires IsWalk(srv, n, w)
    decreases |w|
  {
    var here := Join(path, Name(srv, n));
    if w == [] then here else PathAlong(srv, Next(srv, n)[w[0]], here, w[1..])
  }

  /** The names of the nodes on the walk. */
  function Names(srv: Server, n: NodeId, w: seq<nat>): seq<string>
    requires IsWalk(srv, n, w)
    decreases |w|
  {
    [Name(srv, n)] + if w == [] then [] else Names(srv, Next(srv, n)[w[0]], w[1..])
  }

  function Dotted(names: seq<string>): string
    decreases |names|
  {
    if names == [] then "" else "." + names[0] + Dotted(names[1..])
  }

  lemma {:induction false} PathGoesOn(srv: Server, n: NodeId, path: string, w: seq<nat>)
    requires IsWalk(srv, n, w) && path != ""
    ensures PathAlong(srv, n, path, w) == path + Dotted(Names(srv, n, w))
    decreases |w|
  {
    hide Name, Next;
    var name := Name(srv, n);
    var here := Join(path, name);
    if w == [] {
      assert Dotted([name]) == "." + name + Dotted([name][1..]) == "." + name;
    } else {
      var m := Next(srv, n)[w[0]];
      PathGoesOn(srv, m, here, w[1..]);
      var rest := Names(srv, m, w[1..]);
      assert ([name] + rest)[1..] == rest;
      assert path + ("." + name + Dotted(rest)) == here + Dotted(rest);
    }
  }

  /** The path of an entry: the names on the walk with dots between them; names that are empty at the
      very beginning leave no dot. */
  lemma PathIsDotted(srv: Server, n: NodeId, w: seq<nat>)
    requires IsWalk(srv, n, w)
    ensures Name(srv, n) != "" ==> PathAlong(srv, n, "", w) == Name(srv, n) + Dotted(Names(srv, n, w)[1..])
    ensures Name(srv, n) == "" ==>
              PathAlong(srv, n, "", w) == if w == [] then "" else PathAlong(srv, Next(srv, n)[w[0]], "", w[1..])
  {
    hide Name, Next;
    var name := Name(srv, n);
    if w == [] {
      assert [name][1..] == [];
    } else if name != "" {
      var m := Next(srv, n)[w[0]];
      PathGoesOn(srv, m, name, w[1..]);
      assert ([name] + Names(srv, m, w[1..]))[1..] == Names(srv, m, w[1..]);
    }
  }

  function Entry(srv: Server, n: NodeId, path: string, w: seq<nat>): NodeDef {
    if IsWalk(srv, n, w) && Define(srv, End(srv, n, w)).Some? then
      Define(srv, End(srv, n, w)).value.(path := PathAlong(srv, n, path, w))
    else
      NodeDef(0, 0, "", "", 0, false, "", "")
  }

  function Entries(srv: Server, n: NodeId, path: string, ws: seq<seq<nat>>): (r: seq<NodeDef>)
    ensures |r| == |ws| && forall i :: 0 <= i < |r| ==> r[i] == Entry(srv, n, path, ws[i])
  {
    seq(|ws|, i requires 0 <= i < |ws| => Entry(srv, n, path, ws[i]))
  }

  lemma EntriesConcat(srv: Server, n: NodeId, path: string, v: seq<seq<nat>>, w: seq<seq<nat>>)
    ensures Entries(srv, n, path, v + w) == Entries(srv, n, path, v) + Entries(srv, n, path, w)
  {
  }

  /** The walks of a referenced node are those of n that begin with the reference. */
  lemma EntriesThrough(srv: Server, n: NodeId, path: string, at: nat, left: nat)
    requires at < |Next(srv, n)|
    ensures var here, m := Join(path, Name(srv, n)), Next(srv, n)[at];
            Entries(srv, n, path, Prefixed(at, Walks(srv, m, left))) == Entries(srv, m, here, Walks(srv, m, left))
  {
    var here, m := Join(path, Name(srv, n)), Next(srv, n)[at];
    var ws := Walks(srv, m, left);
    forall i | 0 <= i < |ws|
      ensures Entry(srv, n, path, [at] + ws[i]) == Entry(srv, m, here, ws[i])
    {
      WalksAreAll(srv, m, left, ws[i]);
      assert ([at] + ws[i])[1..] == ws[i];
    }
  }

  /** The entries of the walks that start with reference number at, at + 1, ... of n. */
  lemma {:induction false} EntriesOfRefs(srv: Server, n: NodeId, path: string, refs: seq<NodeId>, at: nat, left: nat)
    requires at + |refs| <= |Next(srv, n)| && refs == Next(srv, n)[at..at + |refs|]
    requires ListingOfAll(srv, refs, Join(path, Name(srv, n)), left).Some?
    ensures ListingOfAll(srv, refs, Join(path, Name(srv, n)), left).value
         == Entries(srv, n, path, WalksFrom(srv, refs, at, left))
    decreases left, 2, |refs|
  {
    if refs != [] {
      assert refs[1..] == Next(srv, n)[at + 1..at + 1 + |refs[1..]|] && Next(srv, n)[at] == refs[0];
      EntriesOfRefs(srv, n, path, refs[1..], at + 1, left);
      EntriesOfNode(srv, refs[0], Join(path, Name(srv, n)), left);
      EntriesThrough(srv, n, path, at, left);
      EntriesConcat(srv, n, path, Prefixed(at, Walks(srv, refs[0], left)), WalksFrom(srv, refs[1..], at + 1, left));
      hide Next, Listing, Walks;
    }
  }

  lemma {:induction false} ListingConcat(srv: Server, a: seq<NodeId>, b: seq<NodeId>, path: string, left: nat)
    requires ListingOfAll(srv, a, path, left).Some? && ListingOfAll(srv, b, path, left).Some?
    ensures ListingOfAll(srv, a + b, path, left)
         == Some(ListingOfAll(srv, a, path, left).value + ListingOfAll(srv, b, path, left).value)
    decreases |a|
  {
    if a == [] {
      assert a + b == b;
      assert [] + ListingOfAll(srv, b, path, left).value == ListingOfAll(srv, b, path, left).value;
    } else {
      assert (a + b)[1..] == a[1..] + b && (a + b)[0] == a[0];
      ListingConcat(srv, a[1..], b, path, left);
      var x, y := Listing(srv, a[0], path, left).value, ListingOfAll(srv, a[1..], path, left).value;
      var z := ListingOfAll(srv, b, path, left).value;
      assert x + (y + z) == x + y + z;
    }
  }

  /** The three kinds of reference listed one after the other are all references listed. */
  lemma ListingOfNext(srv: Server, n: NodeId, path: string, left: nat)
    requires left > 0 && Listing(srv, n, path, left).Some?
    ensures Define(srv, n).Some?
    ensures var here := Join(path, Name(srv, n));
            var all := ListingOfAll(srv, Next(srv, n), here, left - 1);
            all.Some? && Listing(srv, n, path, left).value == Self(Define(srv, n).value.(path := here)) + all.value
  {
    var here := Join(path, Name(srv, n));
    var c, o, p := Refs(srv, n, HasComponent), Refs(srv, n, Organizes), Refs(srv, n, HasProperty);
    ListedIsSound(srv, n, path, left);
    hide Listing, ListingOfAll, Described, Sound;
    ListingByParts(srv, n, path, left);
    ListingConcat(srv, c, o, here, left - 1);
    ListingConcat(srv, c + o, p, here, left - 1);
    Regroup(Self(Define(srv, n).value.(path := here)), ListingOfAll(srv, c, here, left - 1).value,
            ListingOfAll(srv, o, here, left - 1).value, ListingOfAll(srv, p, here, left - 1).value);
  }

  lemma ListedIsSound(srv: Server, n: NodeId, path: string, left: nat)
    requires left > 0 && Listing(srv, n, path, left).Some?
    ensures Sound(srv, n) && Define(srv, n).Some?
  {
    SoundIsDefined(srv, n);
    hide Described, ListingOfAll, Sound;
  }

  lemma Regroup(a: seq<NodeDef>, b: seq<NodeDef>, c: seq<NodeDef>, d: seq<NodeDef>)
    ensures a + b + c + d == a + (b + c + d)
  {
  }

  lemma {:induction false} EntriesOfNode(srv: Server, n: NodeId, path: string, left: nat)
    requires Listing(srv, n, path, left).Some?
    ensures Listing(srv, n, path, left).value == Entries(srv, n, path, Walks(srv, n, left))
    decreases left, 1, 0
  {
    if left > 0 {
      var next := Next(srv, n);
      ListingOfNext(srv, n, path, left);
      hide Listing, ListingOfAll, Next;
      assert next == next[0..|next|];
      EntriesOfRefs(srv, n, path, next, 0, left - 1);
      hide WalksFrom;
      var head := if IsVariable(srv, n) then [[]] else [];
      var def := Define(srv, n).value.(path := Join(path, Name(srv, n)));
      assert Entry(srv, n, path, []) == def;
      assert Entries(srv, n, path, head) == Self(def);
      EntriesConcat(srv, n, path, head, WalksFrom(srv, next, 0, left - 1));
    }
  }

  /** The attribute has that value; where it does not exist, the zero value. */
  predicate Gives<T(==)>(a: Attr<T>, value: T, zero: T) {
    (a.Good? && value == a.value) || (a.Invalid? && value == zero)
  }

  /** e is the record of the variable at the end of the walk. */
  predicate IsEntry(srv: Server, n: NodeId, w: seq<nat>, e: NodeDef) {
    && IsWalk(srv, n, w) && e.id == End(srv, n, w) && e.path == PathAlong(srv, n, "", w)
    && srv.attributes(e.id).Some?
    && var a := srv.attributes(e.id).value;
    && a.nodeClass == Good(2) && e.nodeClass == 2 && a.browseName == Good(e.browseName)
    && Gives(a.description, e.description, "") && Gives(a.access, e.access, 0) && Gives(a.dataType, e.dataType, "")
    && (e.writable <==> a.access.Good? && a.access.value / 2 % 2 == 1)
  }

  lemma EntryOfWalk(srv: Server, n: NodeId, w: seq<nat>)
    requires IsWalk(srv, n, w) && Sound(srv, End(srv, n, w)) && IsVariable(srv, End(srv, n, w))
    ensures IsEntry(srv, n, w, Entry(srv, n, "", w))
  {
    var end := End(srv, n, w);
    SoundIsDefined(srv, end);
    assert Define(srv, end) == Described(end, srv.attributes(end).value);
  }

  /** A browse that succeeds returns, in pre-order and without repetition, one entry for every walk of at
      most ten references that ends in a variable: that node, with the names along the walk as its path. */
  lemma BrowseListsWalks(srv: Server, n: NodeId, w: seq<nat>)
    requires Listing(srv, n, "", Left(0)).Some?
    ensures var ws, listing := Walks(srv, n, Left(0)), Listing(srv, n, "", Left(0)).value;
            && |listing| == |ws| && (forall i :: 0 <= i < |ws| ==> IsEntry(srv, n, ws[i], listing[i]))
            && Ordered(ws) && (forall i, j :: 0 <= i < j < |ws| ==> ws[i] != ws[j])
            && (w in ws <==> IsWalk(srv, n, w) && |w| <= 10 && IsVariable(srv, End(srv, n, w)))
  {
    var ws := Walks(srv, n, Left(0));
    EntriesOfNode(srv, n, "", Left(0));
    WalksAreOrdered(srv, n, Left(0));
    OrderedIsDistinct(ws);
    WalksAreAll(srv, n, Left(0), w);
    ListingFails(srv, n, "", Left(0));
    HealthyIffWalks(srv, n, Left(0));
    hide Listing, Walks, Healthy, Sound, IsVariable, IsEntry, Entry;
    forall i | 0 <= i < |ws|
      ensures IsEntry(srv, n, ws[i], Entries(srv, n, "", ws)[i])
    {
      WalksAreAll(srv, n, Left(0), ws[i]);
      EntryOfWalk(srv, n, ws[i]);
    }
  }

  // ---------- size ----------

  /** 1 + d + ... + d^(k-1) */
  function Geometric(d: nat, k: nat): nat {
    if k == 0 then 0 else 1 + d * Geometric(d, k - 1)
  }

  lemma {:induction false} WalksAreFew(srv: Server, n: NodeId, d: nat, left: nat)
    requires forall m :: |Next(srv, m)| <= d
    ensures |Walks(srv, n, left)| <= Geometric(d, left)
    decreases left, 1, 0
  {
    if left > 0 {
      WalksFromAreFew(srv, Next(srv, n), 0, d, left - 1);
      Times(|Next(srv, n)|, d, Geometric(d, left - 1));
    }
  }

  lemma Times(a: nat, b: nat, c: nat)
    requires a <= b
    ensures a * c <= b * c
  {
  }

  lemma OneTimesMore(a: nat, c: nat)
    ensures (a + 1) * c == c + a * c
  {
  }

  lemma {:induction false} WalksFromAreFew(srv: Server, refs: seq<NodeId>, at: nat, d: nat, left: nat)
    requires forall m :: |Next(srv, m)| <= d
    ensures |WalksFrom(srv, refs, at, left)| <= |refs| * Geometric(d, left)
    decreases left, 2, |refs|
  {
    if refs != [] {
      WalksAreFew(srv, refs[0], d, left);
      WalksFromAreFew(srv, refs[1..], at + 1, d, left);
      OneTimesMore(|refs| - 1, Geometric(d, left));
    }
  }

  /** With at most d references a node, cycles or not, at most 1 + d + ... + d^10 entries. */
  lemma BrowseIsBounded(srv: Server, n: NodeId, d: nat)
    requires Listing(srv, n, "", Left(0)).Some? && forall m :: |Next(srv, m)| <= d
    ensures |Listing(srv, n, "", Left(0)).value| <= Geometric(d, 11)
  {
    EntriesOfNode(srv, n, "", Left(0));
    WalksAreFew(srv, n, d, Left(0));
  }
}
