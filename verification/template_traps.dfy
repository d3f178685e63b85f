/** When filling never ends: in any run, as far as leftmost placeholders tell; and exactly, for values
    without loose braces and runs that overwrite nothing. */
module TemplateTraps {
  import opened Template
  import opened TemplateText
  import opened TemplateProperties

  /** The value of each of these placeholders has one of them as its own leftmost placeholder. */
  ghost predicate Trap(cfg: Config, trap: iset<string>) {
    forall p :: p in trap ==>
      var v := Value(cfg, p);
      var site := FindSite(v);
      site.Placeholder? && v[site.begin..site.end] in trap
  }

  /** A run that comes to such a placeholder never ends, whatever the capacity and the growth of the slice. */
  lemma {:induction false} TrapNeverEnds(cfg: Config, extra: nat -> nat, w: Window, depth: nat, trap: iset<string>)
    requires ValidWindow(w) && Trap(cfg, trap)
    requires var site := FindSite(Contents(w)); site.Placeholder? && Contents(w)[site.begin..site.end] in trap
    ensures FillMem(cfg, extra, w, depth).outcome == OutOfDepth
    decreases depth
  {
    hide Round, FindSite, Value;
    var s := Contents(w);
    var site := FindSite(s);
    if depth > 0 {
      var p := s[site.begin..site.end];
      var v := Value(cfg, p);
      assert p in trap;
      var next := Round(w, site.begin, site.end, v, extra).next;
      TrapStays(w, site.begin, site.end, v, extra);
      TrapNeverEnds(cfg, extra, next, depth - 1, trap);
    }
  }

  /** The leftmost placeholder of the value is the leftmost one after the round. */
  lemma TrapStays(w: Window, b: nat, e: nat, v: string, extra: nat -> nat)
    requires ValidWindow(w) && FindSite(Contents(w)) == Placeholder(b, e) && FindSite(v).Placeholder?
    ensures var s, site := Contents(Round(w, b, e, v, extra).next), FindSite(v);
            && FindSite(s) == Placeholder(b + site.begin, b + site.end)
            && s[b + site.begin..b + site.end] == v[site.begin..site.end]
  {
    hide Round, FindSite, IndexPair, NoPair, Closed;
    var front := Contents(w)[..b];
    FrontIsClosed(Contents(w));
    assert w.mem[..b] == front;
    var tail := RoundShape(w, b, e, v, extra);
    assert front + v + tail == front + (v + tail);
    SiteBefore(v, tail);
    SiteAfter(front, v + tail);
    Inside(front, v, tail, FindSite(v).begin, FindSite(v).end);
  }

  lemma Inside(a: string, v: string, z: string, i: nat, j: nat)
    requires i <= j <= |v|
    ensures (a + (v + z))[|a| + i..|a| + j] == v[i..j]
  {
  }

  /** A value whose leftmost placeholder is the very one it stands for is filled in forever, wherever that
      placeholder is the leftmost one. */
  lemma SelfReferenceNeverEnds(cfg: Config, extra: nat -> nat, w: Window, depth: nat)
    requires ValidWindow(w) && FindSite(Contents(w)).Placeholder?
    requires var site := FindSite(Contents(w));
             var p := Contents(w)[site.begin..site.end];
             var v := Value(cfg, p);
             FindSite(v).Placeholder? && v[FindSite(v).begin..FindSite(v).end] == p
    ensures FillMem(cfg, extra, w, depth).outcome == OutOfDepth
  {
    var site := FindSite(Contents(w));
    var p := Contents(w)[site.begin..site.end];
    hide FindSite, Value, FillMem;
    TrapNeverEnds(cfg, extra, w, depth, iset{p});
  }

  // ---------- exactly ----------

  /** The placeholders of s, in order. */
  function Pieces(s: string): seq<string> {
    match FindSite(s)
    case Placeholder(b, e) => [s[b..e]] + Pieces(s[e..])
    case _ => []
  }

  /** Every "{{" of s is closed, and no loose brace at the end could open one with what follows. */
  predicate Tidy(s: string) {
    match FindSite(s)
    case NoPlaceholder => Closed(s)
    case Unclosed => false
    case Placeholder(_, e) => Tidy(s[e..])
  }

  ghost predicate TidyValues(cfg: Config) {
    forall key :: Tidy(cfg(key))
  }

  /** Among the placeholders of the value of each of these is one of them. */
  ghost predicate Recurring(cfg: Config, trap: iset<string>) {
    forall q :: q in trap ==> exists r :: r in Pieces(Value(cfg, q)) && r in trap
  }

  lemma PiecesAt(s: string, b: nat, e: nat)
    requires FindSite(s) == Placeholder(b, e)
    ensures Pieces(s) == [s[b..e]] + Pieces(s[e..])
  {
    hide FindSite;
  }

  lemma NoPieces(s: string)
    requires !FindSite(s).Placeholder?
    ensures Pieces(s) == []
  {
    hide FindSite;
  }

  lemma ClosedPieces(u: string, z: string)
    requires Closed(u)
    ensures Pieces(u + z) == Pieces(z)
  {
    hide FindSite, IndexPair, Closed, Pieces;
    SiteAfter(u, z);
    var site := FindSite(z);
    if site.Placeholder? {
      PiecesAt(z, site.begin, site.end);
      PiecesAt(u + z, |u| + site.begin, |u| + site.end);
      assert (u + z)[|u| + site.begin..|u| + site.end] == z[site.begin..site.end];
      assert (u + z)[|u| + site.end..] == z[site.end..];
    } else {
      NoPieces(z);
      NoPieces(u + z);
    }
  }

  lemma {:induction false} TidyPieces(u: string, z: string)
    requires Tidy(u)
    ensures Pieces(u + z) == Pieces(u) + Pieces(z)
    decreases |u|
  {
    hide FindSite, IndexPair, Pieces, Closed;
    var site := FindSite(u);
    if site.Placeholder? {
      SiteBefore(u, z);
      PiecesAt(u, site.begin, site.end);
      PiecesAt(u + z, site.begin, site.end);
      assert (u + z)[site.begin..site.end] == u[site.begin..site.end];
      assert (u + z)[site.end..] == u[site.end..] + z;
      TidyPieces(u[site.end..], z);
      Regroup([u[site.begin..site.end]], Pieces(u[site.end..]), Pieces(z));
    } else {
      NoPieces(u);
      ClosedPieces(u, z);
    }
  }

  lemma Regroup<T>(a: seq<T>, b: seq<T>, c: seq<T>)
    ensures a + (b + c) == a + b + c
  {
  }

  /** A round puts the placeholders of the value in the place of the first one. */
  lemma RoundPieces(s: string, b: nat, e: nat, v: string)
    requires FindSite(s) == Placeholder(b, e) && Tidy(v)
    ensures Pieces(s) == [s[b..e]] + Pieces(s[e..])
    ensures Pieces(Splice(s, b, e, v)) == Pieces(v) + Pieces(s[e..])
  {
    hide FindSite, IndexPair, Tidy, Closed, Pieces;
    FrontIsClosed(s);
    PiecesAt(s, b, e);
    assert Splice(s, b, e, v) == s[..b] + (v + s[e..]);
    ClosedPieces(s[..b], v + s[e..]);
    TidyPieces(v, s[e..]);
  }

  lemma ValuesAreTidy(cfg: Config, p: string)
    requires TidyValues(cfg)
    ensures Tidy(Value(cfg, p))
  {
    hide Tidy;
  }

  lemma {:induction false} RecurringNeverEnds(cfg: Config, s: string, depth: nat, trap: iset<string>, p: string)
    requires TidyValues(cfg) && Recurring(cfg, trap) && p in trap && p in Pieces(s)
    ensures Fill(cfg, s, depth).TooDeep?
    decreases depth
  {
    hide Fill, FindSite, Value, Splice, Pieces, Tidy, TidyValues;
    var site := FindSite(s);
    if !site.Placeholder? {
      NoPieces(s);
    } else if depth == 0 {
      FillStops(cfg, s, 0);
    } else {
      var q := s[site.begin..site.end];
      var v := Value(cfg, q);
      ValuesAreTidy(cfg, q);
      RoundPieces(s, site.begin, site.end, v);
      FillOneRound(cfg, s, site.begin, site.end, depth);
      var next := if q == p then var r :| r in Pieces(v) && r in trap; r else p;
      RecurringNeverEnds(cfg, Splice(s, site.begin, site.end, v), depth - 1, trap, next);
    }
  }

  /** Filling ends on u + z where it ends on both. */
  lemma {:induction false} EndsOnBoth(cfg: Config, u: string, z: string, d: nat, c: nat)
    requires TidyValues(cfg) && Tidy(u) && !Fill(cfg, u, d).TooDeep? && !Fill(cfg, z, c).TooDeep?
    ensures !Fill(cfg, u + z, d + c).TooDeep?
    decreases d
  {
    hide Fill, FindSite, IndexPair, Value, Tidy, Closed, TidyValues;
    var site := FindSite(u);
    if !site.Placeholder? {
      TidyEnd(u);
      FillDeeper(cfg, z, c, d + c);
      FillAfter(cfg, u, z, d + c);
    } else if d == 0 {
      FillStops(cfg, u, 0);
    } else {
      var v := Value(cfg, u[site.begin..site.end]);
      ValuesAreTidy(cfg, u[site.begin..site.end]);
      TidySplice(u, site.begin, site.end, v);
      SiteBefore(u, z);
      FillOneRound(cfg, u, site.begin, site.end, d);
      FillOneRound(cfg, u + z, site.begin, site.end, d + c);
      assert (u + z)[site.begin..site.end] == u[site.begin..site.end];
      assert Splice(u + z, site.begin, site.end, v) == Splice(u, site.begin, site.end, v) + z;
      EndsOnBoth(cfg, Splice(u, site.begin, site.end, v), z, d - 1, c);
    }
  }

  lemma TidyEnd(u: string)
    requires Tidy(u) && !FindSite(u).Placeholder?
    ensures Closed(u)
  {
  }

  lemma {:induction false} TidyConcat(u: string, z: string)
    requires Tidy(u) && Tidy(z)
    ensures Tidy(u + z)
    decreases |u|
  {
    var site := FindSite(u);
    if site.Placeholder? {
      SiteBefore(u, z);
      assert (u + z)[site.end..] == u[site.end..] + z;
      TidyConcat(u[site.end..], z);
    } else {
      TidyAfter(u, z);
    }
  }

  lemma TidyAt(s: string)
    ensures FindSite(s).NoPlaceholder? ==> (Tidy(s) <==> Closed(s))
    ensures FindSite(s).Unclosed? ==> !Tidy(s)
    ensures FindSite(s).Placeholder? ==> (Tidy(s) <==> Tidy(s[FindSite(s).end..]))
  {
    hide FindSite, Closed;
  }

  lemma TidyAfter(u: string, z: string)
    requires Closed(u) && Tidy(z)
    ensures Tidy(u + z)
  {
    hide FindSite, IndexPair, Closed, Tidy;
    SiteAfter(u, z);
    TidyAt(z);
    TidyAt(u + z);
    var site := FindSite(z);
    if site.Placeholder? {
      assert (u + z)[|u| + site.end..] == z[site.end..];
    } else {
      ClosedConcat(u, z);
    }
  }

  lemma TidySplice(u: string, b: nat, e: nat, v: string)
    requires Tidy(u) && FindSite(u) == Placeholder(b, e) && Tidy(v)
    ensures Tidy(Splice(u, b, e, v))
  {
    FrontIsClosed(u);
    assert Splice(u, b, e, v) == u[..b] + (v + u[e..]);
    TidyConcat(v, u[e..]);
    TidyAfter(u[..b], v + u[e..]);
  }

  ghost predicate Endless(cfg: Config, s: string) {
    forall d: nat :: Fill(cfg, s, d).TooDeep?
  }

  /** A text whose filling never ends has a placeholder whose filling never ends. */
  lemma {:induction false} SomePieceIsEndless(cfg: Config, s: string) returns (p: string)
    requires TidyValues(cfg) && Endless(cfg, s)
    ensures p in Pieces(s) && Endless(cfg, p) && FindSite(p) == Placeholder(0, |p|)
    decreases |s|
  {
    hide Fill, FindSite, Value, Tidy, TidyValues, Pieces;
    EndlessHasSite(cfg, s);
    var site := FindSite(s);
    p := s[site.begin..site.end];
    PiecesAt(s, site.begin, site.end);
    PlaceholderAlone(s, site.begin, site.end);
    if !Endless(cfg, p) {
      var d: nat :| !Fill(cfg, p, d).TooDeep?;
      RestIsEndless(cfg, s, site.begin, site.end, d);
      p := SomePieceIsEndless(cfg, s[site.end..]);
    }
  }

  lemma EndlessHasSite(cfg: Config, s: string)
    requires Endless(cfg, s)
    ensures FindSite(s).Placeholder?
  {
    hide Fill, FindSite;
    if !FindSite(s).Placeholder? {
      FillStops(cfg, s, 0);
    }
  }

  lemma RestIsEndless(cfg: Config, s: string, b: nat, e: nat, d: nat)
    requires TidyValues(cfg) && Endless(cfg, s) && FindSite(s) == Placeholder(b, e)
    requires !Fill(cfg, s[b..e], d).TooDeep?
    ensures Endless(cfg, s[e..])
  {
    hide FindSite, IndexPair, Value, Fill, Tidy, Closed;
    var p, rest := s[b..e], s[e..];
    FrontIsClosed(s);
    PlaceholderAlone(s, b, e);
    PlaceholderIsTidy(p);
    assert s == s[..b] + (p + rest);
    forall c: nat
      ensures Fill(cfg, rest, c).TooDeep?
    {
      if !Fill(cfg, rest, c).TooDeep? {
        EndsOnBoth(cfg, p, rest, d, c);
        FillAfter(cfg, s[..b], p + rest, d + c);
      }
    }
  }

  lemma PlaceholderIsTidy(p: string)
    requires FindSite(p) == Placeholder(0, |p|)
    ensures Tidy(p)
  {
    assert p[|p|..] == "" && Closed("") && FindSite("").NoPlaceholder?;
  }

  lemma ValueIsEndless(cfg: Config, p: string)
    requires Endless(cfg, p) && FindSite(p) == Placeholder(0, |p|)
    ensures Endless(cfg, Value(cfg, p))
  {
    var v := Value(cfg, p);
    forall d: nat
      ensures Fill(cfg, v, d).TooDeep?
    {
      assert p[0..|p|] == p && Splice(p, 0, |p|, v) == v;
      FillOneRound(cfg, p, 0, |p|, d + 1);
    }
  }

  /** Filling a text never ends exactly when one of its placeholders is in a set each of which has one of
      the set among the placeholders of its value. */
  lemma EndlessIff(cfg: Config, s: string)
    requires TidyValues(cfg)
    ensures Endless(cfg, s) <==>
              exists trap: iset<string>, p :: p in trap && p in Pieces(s) && Recurring(cfg, trap)
  {
    hide Fill, FindSite, Value, Tidy, TidyValues, Pieces, Endless;
    if Endless(cfg, s) {
      var trap := iset p | Endless(cfg, p) && FindSite(p) == Placeholder(0, |p|);
      forall q | q in trap
        ensures exists r :: r in Pieces(Value(cfg, q)) && r in trap
      {
        ValueIsEndless(cfg, q);
        var r := SomePieceIsEndless(cfg, Value(cfg, q));
      }
      var p := SomePieceIsEndless(cfg, s);
      assert p in trap && Recurring(cfg, trap);
    }
    forall trap: iset<string>, p | p in trap && p in Pieces(s) && Recurring(cfg, trap)
      ensures Endless(cfg, s)
    {
      RecurringIsEndless(cfg, s, trap, p);
    }
  }

  /** So it is with a placeholder that stands anywhere in its own value, and anywhere in the text. */
  lemma OwnMentionIsEndless(cfg: Config, s: string, p: string)
    requires TidyValues(cfg) && p in Pieces(s) && p in Pieces(Value(cfg, p))
    ensures Endless(cfg, s)
  {
    hide Endless, Pieces, Value;
    RecurringIsEndless(cfg, s, iset{p}, p);
  }

  lemma RecurringIsEndless(cfg: Config, s: string, trap: iset<string>, p: string)
    requires TidyValues(cfg) && Recurring(cfg, trap) && p in trap && p in Pieces(s)
    ensures Endless(cfg, s)
  {
    hide Fill;
    forall d: nat
      ensures Fill(cfg, s, d).TooDeep?
    {
      RecurringNeverEnds(cfg, s, d, trap, p);
    }
  }

  ghost predicate NeverReturns(cfg: Config, extra: nat -> nat, w: Window)
    requires ValidWindow(w)
  {
    forall d: nat :: FillMem(cfg, extra, w, d).outcome == OutOfDepth
  }

  ghost predicate AlwaysClean(cfg: Config, extra: nat -> nat, w: Window)
    requires ValidWindow(w)
  {
    forall d: nat :: Clean(cfg, extra, w, d)
  }

  lemma CleanDepth(cfg: Config, extra: nat -> nat, w: Window, d: nat)
    requires ValidWindow(w) && AlwaysClean(cfg, extra, w)
    ensures FillMem(cfg, extra, w, d).outcome == OutOfDepth <==> Fill(cfg, Contents(w), d).TooDeep?
  {
    hide Fill, FillMem, Clean;
    CleanRunRefinesFill(cfg, extra, w, d);
  }

  lemma CleanIsEndlessIff(cfg: Config, extra: nat -> nat, w: Window)
    requires ValidWindow(w) && AlwaysClean(cfg, extra, w)
    ensures NeverReturns(cfg, extra, w) <==> Endless(cfg, Contents(w))
  {
    hide Fill, FillMem, Clean;
    if NeverReturns(cfg, extra, w) {
      forall d: nat
        ensures Fill(cfg, Contents(w), d).TooDeep?
      {
        CleanDepth(cfg, extra, w, d);
        assert FillMem(cfg, extra, w, d).outcome == OutOfDepth;
      }
    }
    if Endless(cfg, Contents(w)) {
      forall d: nat
        ensures FillMem(cfg, extra, w, d).outcome == OutOfDepth
      {
        CleanDepth(cfg, extra, w, d);
        assert Fill(cfg, Contents(w), d).TooDeep?;
      }
    }
  }

  /** The same of the code, for runs in which no longer value is written over text it changes. */
  lemma CallIsEndlessIff(cfg: Config, extra: nat -> nat, w: Window)
    requires ValidWindow(w) && TidyValues(cfg) && AlwaysClean(cfg, extra, w)
    ensures NeverReturns(cfg, extra, w) <==>
              exists trap: iset<string>, p :: p in trap && p in Pieces(Contents(w)) && Recurring(cfg, trap)
  {
    hide NeverReturns, AlwaysClean, TidyValues, Recurring, Pieces, Endless;
    CleanIsEndlessIff(cfg, extra, w);
    EndlessIff(cfg, Contents(w));
  }

  /** In particular where no value is longer than its placeholder. */
  lemma FittingIsEndlessIff(cfg: Config, extra: nat -> nat, w: Window)
    requires ValidWindow(w) && TidyValues(cfg) && NeverLonger(cfg)
    ensures NeverReturns(cfg, extra, w) <==>
              exists trap: iset<string>, p :: p in trap && p in Pieces(Contents(w)) && Recurring(cfg, trap)
  {
    hide NeverLonger, Clean, NeverReturns, Recurring, TidyValues, Pieces;
    forall d: nat
      ensures Clean(cfg, extra, w, d)
    {
      NeverLongerIsClean(cfg, extra, w, d);
    }
    CallIsEndlessIff(cfg, extra, w);
  }
}
