/** How filling ends: with an error exactly where the text leaves a "{{" open, else with every placeholder
    replaced by its value and everything else kept. */
module TemplateOutcome {
  import opened Template
  import opened TemplateText
  import opened TemplateProperties

  // ---------- when it fails ----------

  /** The "{{" at i has no "}}" behind it. */
  ghost predicate OpenAt(s: string, i: int) {
    PairAt(s, '{', i) && forall j :: i <= j ==> !PairAt(s, '}', j)
  }

  ghost predicate AllClosed(s: string) {
    forall i :: PairAt(s, '{', i) ==> exists j :: i <= j && PairAt(s, '}', j)
  }

  /** The values leave no "{{" open, and do not end in a brace that could begin one with what follows. */
  ghost predicate ClosedValues(cfg: Config) {
    forall key :: AllClosed(cfg(key)) && !EndsOpen(cfg(key))
  }

  predicate EndsOpen(s: string) {
    s != "" && s[|s| - 1] == '{'
  }

  lemma RoundStaysClosed(s: string, b: nat, e: nat, v: string)
    requires e <= |s| && FirstPair(s, '{', 0, b) && FirstPair(s, '}', b, e - 2)
    requires AllClosed(s) && AllClosed(v) && !EndsOpen(v)
    ensures AllClosed(Splice(s, b, e, v))
  {
    var t := Splice(s, b, e, v);
    var n := b + |v|;
    assert forall k :: b <= k < n ==> t[k] == v[k - b];
    assert forall k :: n <= k < |t| ==> t[k] == s[k - n + e];
    forall i | PairAt(t, '{', i)
      ensures exists j :: i <= j && PairAt(t, '}', j)
    {
      if i < b {
        NoPairBefore(s, b, e, v, i);
      } else if i < n {
        assert PairAt(v, '{', i - b);
        var j :| i - b <= j && PairAt(v, '}', j);
        assert PairAt(t, '}', j + b);
      } else {
        assert PairAt(s, '{', i - n + e);
        var j :| i - n + e <= j && PairAt(s, '}', j);
        assert PairAt(t, '}', j - e + n);
      }
    }
  }

  /** Nothing opens before the placeholder, nor at its seam with the value. */
  lemma NoPairBefore(s: string, b: nat, e: nat, v: string, i: nat)
    requires e <= |s| && FirstPair(s, '{', 0, b) && b <= e && i < b
    ensures !PairAt(Splice(s, b, e, v), '{', i)
  {
    assert !PairAt(s, '{', i);
    assert Splice(s, b, e, v)[i] == s[i];
    if i + 1 < b {
      assert Splice(s, b, e, v)[i + 1] == s[i + 1];
    }
  }

  lemma RoundStaysOpen(s: string, b: nat, e: nat, v: string, i: nat)
    requires e <= |s| && FirstPair(s, '{', 0, b) && FirstPair(s, '}', b, e - 2) && OpenAt(s, i)
    ensures i >= e && OpenAt(Splice(s, b, e, v), i - e + b + |v|)
  {
    assert PairAt(s, '}', e - 2) && s[i] == '{' && s[e - 1] == '}';
    var t := Splice(s, b, e, v);
    var n := b + |v|;
    assert forall k :: n <= k < |t| ==> t[k] == s[k - n + e];
    forall j | i - e + n <= j
      ensures !PairAt(t, '}', j)
    {
      assert !PairAt(s, '}', j - n + e);
    }
  }

  lemma {:induction false} ClosedNeverFails(cfg: Config, s: string, depth: nat)
    requires ClosedValues(cfg) && AllClosed(s)
    ensures !Fill(cfg, s, depth).NoEnd?
    decreases depth
  {
    hide Fill, FindSite, Value, AllClosed, Splice;
    var site := FindSite(s);
    if site.Placeholder? && depth > 0 {
      SiteIff(s, site.begin, site.end);
      var v := Value(cfg, s[site.begin..site.end]);
      ValueIsClosed(cfg, s[site.begin..site.end]);
      RoundStaysClosed(s, site.begin, site.end, v);
      FillOneRound(cfg, s, site.begin, site.end, depth);
      ClosedNeverFails(cfg, Splice(s, site.begin, site.end, v), depth - 1);
    } else {
      ClosedIsNotUnclosed(s);
      FillStops(cfg, s, depth);
    }
  }

  lemma ValueIsClosed(cfg: Config, p: string)
    requires ClosedValues(cfg)
    ensures AllClosed(Value(cfg, p)) && !EndsOpen(Value(cfg, p))
  {
  }

  lemma ClosedIsNotUnclosed(s: string)
    requires AllClosed(s)
    ensures !FindSite(s).Unclosed?
  {
    SiteIff(s, 0, 0);
  }

  lemma {:induction false} OpenNeverSucceeds(cfg: Config, s: string, depth: nat, i: nat)
    requires OpenAt(s, i)
    ensures !Fill(cfg, s, depth).Text?
    decreases depth
  {
    hide Fill, FindSite, Value, Splice;
    var site := FindSite(s);
    if site.Placeholder? && depth > 0 {
      SiteIff(s, site.begin, site.end);
      var v := Value(cfg, s[site.begin..site.end]);
      RoundStaysOpen(s, site.begin, site.end, v, i);
      FillOneRound(cfg, s, site.begin, site.end, depth);
      OpenNeverSucceeds(cfg, Splice(s, site.begin, site.end, v), depth - 1, i - site.end + site.begin + |v|);
    } else {
      SiteIff(s, 0, 0);
      FillStops(cfg, s, depth);
    }
  }

  lemma SomeOpen(s: string) returns (i: nat)
    requires !AllClosed(s)
    ensures OpenAt(s, i)
  {
    i :| PairAt(s, '{', i) && !exists j :: i <= j && PairAt(s, '}', j);
  }

  /** Where filling ends, it ends with an error exactly when some "{{" of the text has no "}}" behind it. */
  lemma FailsIff(cfg: Config, s: string, depth: nat)
    requires ClosedValues(cfg) && !Fill(cfg, s, depth).TooDeep?
    ensures Fill(cfg, s, depth).NoEnd? <==> !AllClosed(s)
  {
    hide Fill, AllClosed, ClosedValues;
    if AllClosed(s) {
      ClosedNeverFails(cfg, s, depth);
    } else {
      var i := SomeOpen(s);
      OpenNeverSucceeds(cfg, s, depth, i);
    }
  }

  /** The same of the code, for runs in which no longer value is written over text it changes. */
  lemma CallFailsIff(cfg: Config, extra: nat -> nat, w: Window, depth: nat)
    requires ValidWindow(w) && Clean(cfg, extra, w, depth) && ClosedValues(cfg)
    ensures AllClosed(Contents(w)) ==> !FillMem(cfg, extra, w, depth).outcome.Failed?
    ensures !AllClosed(Contents(w)) ==> !FillMem(cfg, extra, w, depth).outcome.Done?
  {
    hide Fill, FillMem, Clean, AllClosed, ClosedValues;
    CleanRunRefinesFill(cfg, extra, w, depth);
    if AllClosed(Contents(w)) {
      ClosedNeverFails(cfg, Contents(w), depth);
    } else {
      var i := SomeOpen(Contents(w));
      OpenNeverSucceeds(cfg, Contents(w), depth, i);
    }
  }

  // ---------- what it gives ----------

  /** The text with every placeholder replaced by its value. */
  function Rendered(cfg: Config, s: string): string {
    match FindSite(s)
    case Placeholder(b, e) => s[..b] + Value(cfg, s[b..e]) + Rendered(cfg, s[e..])
    case _ => s
  }

  /** The values have no "{{" and do not end in '{'. */
  ghost predicate PlainValues(cfg: Config) {
    forall key :: Closed(cfg(key))
  }

  lemma RenderedAt(cfg: Config, s: string, b: nat, e: nat)
    requires FindSite(s) == Placeholder(b, e)
    ensures Rendered(cfg, s) == s[..b] + Value(cfg, s[b..e]) + Rendered(cfg, s[e..])
  {
    hide FindSite, Value;
  }

  lemma ValueIsPlain(cfg: Config, p: string)
    requires PlainValues(cfg)
    ensures Closed(Value(cfg, p))
  {
    hide Closed;
  }

  /** With plain values a text that can be filled at all is filled placeholder by placeholder. */
  lemma {:induction false} FillIsRendered(cfg: Config, s: string, depth: nat)
    requires PlainValues(cfg) && Fill(cfg, s, depth).Text?
    ensures Fill(cfg, s, depth).text == Rendered(cfg, s)
    decreases depth
  {
    hide Fill, FindSite, Value, Closed, Rendered, PlainValues, NoPair;
    var site := FindSite(s);
    if site.Placeholder? && depth > 0 {
      var front, rest := s[..site.begin], s[site.end..];
      var v := Value(cfg, s[site.begin..site.end]);
      FrontIsClosed(s);
      ValueIsPlain(cfg, s[site.begin..site.end]);
      ClosedConcat(front, v);
      FillOneRound(cfg, s, site.begin, site.end, depth);
      FillAfter(cfg, front + v, rest, depth - 1);
      FillIsRendered(cfg, rest, depth - 1);
      RenderedAt(cfg, s, site.begin, site.end);
    } else {
      FillStops(cfg, s, depth);
      RenderedStops(cfg, s);
    }
  }

  lemma RenderedStops(cfg: Config, s: string)
    requires !FindSite(s).Placeholder?
    ensures Rendered(cfg, s) == s
  {
    hide FindSite;
  }

  /** The same of the code on such runs. */
  lemma CallIsRendered(cfg: Config, extra: nat -> nat, w: Window, depth: nat)
    requires ValidWindow(w) && Clean(cfg, extra, w, depth) && PlainValues(cfg)
    requires FillMem(cfg, extra, w, depth).outcome.Done?
    ensures Contents(FillMem(cfg, extra, w, depth).outcome.w) == Rendered(cfg, Contents(w))
  {
    hide Fill, FillMem, Clean, PlainValues, Rendered;
    CleanRunRefinesFill(cfg, extra, w, depth);
    FillIsRendered(cfg, Contents(w), depth);
  }
}
