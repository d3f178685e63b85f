/** What the ticks of a scheduled job read, when every one of them is handed the same slice. */
module TemplateJobs {
  import opened Template
  import opened TemplateText
  import opened TemplateProperties

  // ---------- text with nothing to fill in front ----------

  lemma LeftoverOneRound(cfg: Config, s: string, b: nat, e: nat, depth: nat)
    requires NeverLonger(cfg) && FindSite(s) == Placeholder(b, e) && depth > 0
    ensures var t := Splice(s, b, e, Value(cfg, s[b..e]));
            |t| <= |s| && Leftover(cfg, s, depth) == Leftover(cfg, t, depth - 1) + s[|t|..]
  {
    Fits(cfg, s, b, e);
  }

  /** Nor does it take part in what is left over. */
  lemma {:induction false} LeftoverAfter(cfg: Config, p: string, s: string, depth: nat)
    requires Closed(p) && NeverLonger(cfg)
    ensures Leftover(cfg, p + s, depth) == Leftover(cfg, s, depth)
    decreases depth
  {
    hide Leftover, FindSite, IndexPair, Value, Splice, NeverLonger, Closed;
    SiteAfter(p, s);
    var site := FindSite(s);
    if !site.Placeholder? || depth == 0 {
      NothingLeft(cfg, s, depth);
      NothingLeft(cfg, p + s, depth);
    } else {
      var v := Value(cfg, s[site.begin..site.end]);
      var t := Splice(s, site.begin, site.end, v);
      SpliceAfter(p, s, site.begin, site.end, v);
      LeftoverOneRound(cfg, s, site.begin, site.end, depth);
      LeftoverOneRound(cfg, p + s, |p| + site.begin, |p| + site.end, depth);
      LeftoverAfter(cfg, p, t, depth - 1);
      assert (p + s)[|p + t|..] == s[|t|..];
    }
  }

  /** A filled text has no "{{" and is not changed by filling. */
  lemma {:induction false} FilledHasNoPair(cfg: Config, s: string, depth: nat)
    requires Fill(cfg, s, depth).Text?
    ensures NoPair(Fill(cfg, s, depth).text)
    decreases depth
  {
    match FindSite(s)
    case Placeholder(b, e) => FilledHasNoPair(cfg, Splice(s, b, e, Value(cfg, s[b..e])), depth - 1);
    case _ =>
  }

  // ---------- scheduled jobs ----------

  /** A job hands the same slice over on every tick.  The next tick reads the output t and the leftovers:
      it fills what is left over after t, and so gives t again exactly when the leftovers fill to nothing,
      where a brace at the end of t counts as left over. */
  lemma ScheduledReuse(cfg: Config, extra: nat -> nat, w: Window, depth: nat, again: nat, t: string)
    requires ValidWindow(w) && NeverLonger(cfg) && Fill(cfg, Contents(w), depth) == Text(t)
    ensures var memory := FillMem(cfg, extra, w, depth).caller;
            var h, left := Hanging(t), Leftover(cfg, Contents(w), depth);
            var second := Reading(FillMem(cfg, extra, Window(memory, w.len), again).outcome);
            && Contents(Window(memory, w.len)) == t + left
            && second == Prefixed(t[..|t| - |h|], Fill(cfg, h + left, again))
            && (second == Text(t) <==> Fill(cfg, h + left, again) == Text(h))
            && (Closed(t) ==> (second == Text(t) <==> Fill(cfg, left, again) == Text("")))
  {
    var left := Leftover(cfg, Contents(w), depth);
    FilledHasNoPair(cfg, Contents(w), depth);
    MemoryAfter(cfg, extra, w, depth, t);
    TickAgain(cfg, extra, Window(FillMem(cfg, extra, w, depth).caller, w.len), again, t, left);
    assert Closed(t) ==> Hanging(t) == "" && Hanging(t) + left == left;
  }

  lemma MemoryAfter(cfg: Config, extra: nat -> nat, w: Window, depth: nat, t: string)
    requires ValidWindow(w) && NeverLonger(cfg) && Fill(cfg, Contents(w), depth) == Text(t)
    ensures Contents(Window(FillMem(cfg, extra, w, depth).caller, w.len)) == t + Leftover(cfg, Contents(w), depth)
  {
    hide FillMem, Fill, Leftover, FindSite, Value, NeverLonger;
    FillsInPlace(cfg, extra, w, depth);
    assert FillMem(cfg, extra, w, depth).caller == t + Leftover(cfg, Contents(w), depth) + w.mem[w.len..];
  }

  /** A tick over the output t of an earlier one and what that one left. */
  lemma TickAgain(cfg: Config, extra: nat -> nat, w: Window, depth: nat, t: string, left: string)
    requires ValidWindow(w) && NeverLonger(cfg) && NoPair(t) && Contents(w) == t + left
    ensures var h, second := Hanging(t), Reading(FillMem(cfg, extra, w, depth).outcome);
            && second == Prefixed(t[..|t| - |h|], Fill(cfg, h + left, depth))
            && (second == Text(t) <==> Fill(cfg, h + left, depth) == Text(h))
            && Leftover(cfg, Contents(w), depth) == Leftover(cfg, h + left, depth)
  {
    hide FillMem, Fill, Leftover, FindSite, Value, NeverLonger, NoPair, Closed;
    var h := Hanging(t);
    var front := Hangs(t);
    FillsInPlace(cfg, extra, w, depth);
    assert t + left == front + (h + left) && front == t[..|t| - |h|];
    FillAfter(cfg, front, h + left, depth);
    LeftoverAfter(cfg, front, h + left, depth);
    SameEnd(front, Fill(cfg, h + left, depth), h);
  }

  lemma SameEnd(front: string, f: Filled, h: string)
    ensures Prefixed(front, f) == Text(front + h) <==> f == Text(h)
  {
    if f.Text? && front + f.text == front + h {
      assert f.text == (front + f.text)[|front|..] == h;
    }
  }

  /** The next n ticks of a job whose slice is w all give t. */
  predicate AllGive(cfg: Config, extra: nat -> nat, w: Window, depth: nat, t: string, n: nat)
    requires ValidWindow(w)
    decreases n
  {
    n > 0 ==>
      var r := FillMem(cfg, extra, w, depth);
      Reading(r.outcome) == Text(t) && AllGive(cfg, extra, Window(r.caller, w.len), depth, t, n - 1)
  }

  /** Filling what is left over n times, each time in what the last one left behind, always gives nothing but h. */
  predicate FillsToNothing(cfg: Config, h: string, left: string, depth: nat, n: nat)
    requires NeverLonger(cfg)
    decreases n
  {
    n > 0 ==>
      Fill(cfg, h + left, depth) == Text(h) && FillsToNothing(cfg, h, Leftover(cfg, h + left, depth), depth, n - 1)
  }

  lemma {:induction false} TicksAfter(cfg: Config, extra: nat -> nat, w: Window, depth: nat, t: string, left: string,
                                      n: nat)
    requires ValidWindow(w) && NeverLonger(cfg) && NoPair(t) && Contents(w) == t + left
    ensures AllGive(cfg, extra, w, depth, t, n) <==> FillsToNothing(cfg, Hanging(t), left, depth, n)
    decreases n
  {
    if n > 0 {
      TickAgain(cfg, extra, w, depth, t, left);
      FillsInPlace(cfg, extra, w, depth);
      hide FillMem, Fill, Leftover, NeverLonger, FindSite, Value;
      if Fill(cfg, Contents(w), depth) == Text(t) {
        MemoryAfter(cfg, extra, w, depth, t);
        var next := Window(FillMem(cfg, extra, w, depth).caller, w.len);
        TicksAfter(cfg, extra, next, depth, t, Leftover(cfg, Hanging(t) + left, depth), n - 1);
      }
    }
  }

  /** All later ticks of a job, however many, give what the first one gave exactly when the leftovers go on
      filling to nothing. */
  lemma TicksAlikeIff(cfg: Config, extra: nat -> nat, w: Window, depth: nat, t: string, n: nat)
    requires ValidWindow(w) && NeverLonger(cfg) && Fill(cfg, Contents(w), depth) == Text(t)
    ensures AllGive(cfg, extra, w, depth, t, n + 1)
       <==> FillsToNothing(cfg, Hanging(t), Leftover(cfg, Contents(w), depth), depth, n)
  {
    FilledHasNoPair(cfg, Contents(w), depth);
    FillsInPlace(cfg, extra, w, depth);
    MemoryAfter(cfg, extra, w, depth, t);
    hide FillMem, Fill, Leftover, NeverLonger, FindSite, Value, FillsToNothing;
    var left := Leftover(cfg, Contents(w), depth);
    TicksAfter(cfg, extra, Window(FillMem(cfg, extra, w, depth).caller, w.len), depth, t, left, n);
  }

  /** Every value is exactly as long as its placeholder. */
  ghost predicate SameLength(cfg: Config) {
    forall p :: FindSite(p) == Placeholder(0, |p|) ==> |Value(cfg, p)| == |p|
  }

  lemma NothingLeft(cfg: Config, s: string, depth: nat)
    requires NeverLonger(cfg) && (FindSite(s).Placeholder? ==> depth == 0)
    ensures Leftover(cfg, s, depth) == ""
  {
  }

  lemma {:induction false} NothingLeftOver(cfg: Config, s: string, depth: nat)
    requires NeverLonger(cfg) && SameLength(cfg)
    ensures Leftover(cfg, s, depth) == ""
    decreases depth
  {
    hide Fill, Leftover, FindSite, Value, NeverLonger;
    var site := FindSite(s);
    if !site.Placeholder? || depth == 0 {
      NothingLeft(cfg, s, depth);
    } else {
      PlaceholderAlone(s, site.begin, site.end);
      LeftoverOneRound(cfg, s, site.begin, site.end, depth);
      NothingLeftOver(cfg, Splice(s, site.begin, site.end, Value(cfg, s[site.begin..site.end])), depth - 1);
    }
  }

  lemma {:induction false} NothingStays(cfg: Config, h: string, depth: nat, n: nat)
    requires NeverLonger(cfg) && (h == "" || h == "{")
    ensures FillsToNothing(cfg, h, "", depth, n)
    decreases n
  {
    assert h + "" == h && FindSite(h).NoPlaceholder?;
    if n > 0 {
      NothingStays(cfg, h, depth, n - 1);
    }
  }

  /** With such values every tick gives the same. */
  lemma SameLengthIsSteady(cfg: Config, extra: nat -> nat, w: Window, depth: nat, t: string, n: nat)
    requires ValidWindow(w) && SameLength(cfg) && Fill(cfg, Contents(w), depth) == Text(t)
    ensures AllGive(cfg, extra, w, depth, t, n)
  {
    assert NeverLonger(cfg) by {
      hide Value;
    }
    if n > 0 {
      NothingLeftOver(cfg, Contents(w), depth);
      NothingStays(cfg, Hanging(t), depth, n - 1);
      TicksAlikeIff(cfg, extra, w, depth, t, n - 1);
    }
  }

  // ---------- longer values ----------

  /** A call that leaves its memory as it was can be made again and again. */
  lemma {:induction false} UntouchedIsSteady(cfg: Config, extra: nat -> nat, w: Window, depth: nat, t: string, n: nat)
    requires ValidWindow(w) && FillMem(cfg, extra, w, depth).caller == w.mem
    requires Reading(FillMem(cfg, extra, w, depth).outcome) == Text(t)
    ensures AllGive(cfg, extra, w, depth, t, n)
    decreases n
  {
    hide FillMem;
    if n > 0 {
      UntouchedIsSteady(cfg, extra, w, depth, t, n - 1);
    }
  }

  /** So it is when the first value makes the slice move, whatever happens in the new array. */
  lemma MovedIsSteady(cfg: Config, extra: nat -> nat, w: Window, depth: nat, b: nat, e: nat, t: string, n: nat)
    requires ValidWindow(w) && FindSite(Contents(w)) == Placeholder(b, e)
    requires var v := Value(cfg, Contents(w)[b..e]); e - b < |v| && |w.mem| < b + |v|
    requires Reading(FillMem(cfg, extra, w, depth).outcome) == Text(t)
    ensures FillMem(cfg, extra, w, depth).caller == w.mem
    ensures AllGive(cfg, extra, w, depth, t, n)
  {
    hide FindSite, Value, Append;
    assert FillMem(cfg, extra, w, depth).caller == w.mem;
    UntouchedIsSteady(cfg, extra, w, depth, t, n);
  }
}
