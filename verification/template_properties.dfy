/** What `fillTemplate` guarantees, proved about `FillMem`, which the method `FillTemplate` equals. */
module TemplateProperties {
  import opened Template
  import opened TemplateText

  // ---------- one round, exactly ----------

  /** The part of a long value that runs past its placeholder repeats the text it is written over. */
  predicate OverhangAgrees(w: Window, b: nat, e: nat, v: string)
    requires ValidWindow(w) && b <= e <= w.len && e - b < |v|
  {
    forall i :: e <= i < w.len && i < b + |v| ==> w.mem[i] == v[i - b]
  }

  /** A value that fits: the round is the splice, and memory past the new end is left as it was. */
  lemma ShrinkIsSplice(w: Window, b: nat, e: nat, v: string)
    requires ValidWindow(w) && b <= e <= w.len && |v| <= e - b
    ensures var r := Shrink(w, b, e, v);
            && Contents(r) == Splice(Contents(w), b, e, v)
            && r.mem == Contents(r) + w.mem[r.len..]
            && r.mem[r.len..] == w.mem[r.len..]
  {
    var r := Shrink(w, b, e, v);
    assert Overwrite(w.mem, b, v)[e..w.len] == w.mem[e..w.len];
    assert r.mem == w.mem[..b] + v + w.mem[e..w.len] + w.mem[r.len..];
    assert Contents(r) == w.mem[..b] + v + w.mem[e..w.len];
  }

  /** A longer value: the new contents, for every capacity and every growth policy of append. */
  lemma GrowthExact(w: Window, b: nat, e: nat, v: string, extra: nat -> nat)
    requires ValidWindow(w) && b <= e <= w.len && e - b < |v|
    ensures var next := Grow(w, b, e, v, extra).next;
            && next.len == w.len - (e - b) + |v|
            && Contents(next) == w.mem[..b] + v
                + (if b + |v| > |w.mem| then w.mem[e..w.len]
                   else (w.mem[..b] + v + w.mem[b + |v|..])[e..w.len])
  {
  }

  lemma SameTail(head: string, t: string, u: string)
    ensures head + t == head + u <==> t == u
  {
    if head + t == head + u {
      assert t == (head + t)[|head|..];
    }
  }

  lemma AliasedTail(mem: string, len: nat, b: nat, e: nat, v: string)
    requires b <= e <= len <= |mem| && e - b < |v| && b + |v| <= |mem|
    ensures (mem[..b] + v + mem[b + |v|..])[e..len] == mem[e..len]
       <==> forall i :: e <= i < len && i < b + |v| ==> mem[i] == v[i - b]
  {
    var memory := mem[..b] + v + mem[b + |v|..];
    assert forall i :: e <= i < len ==> memory[i] == if i < b + |v| then v[i - b] else mem[i];
    if memory[e..len] == mem[e..len] {
      forall i | e <= i < len && i < b + |v|
        ensures mem[i] == v[i - b]
      {
        assert memory[e..len][i - e] == memory[i];
        assert mem[e..len][i - e] == mem[i];
      }
    }
  }

  /** It is the intended splice exactly when append moves the slice or the overhang agrees. */
  lemma GrowthIsSpliceIff(w: Window, b: nat, e: nat, v: string, extra: nat -> nat)
    requires ValidWindow(w) && b <= e <= w.len && e - b < |v|
    ensures Contents(Grow(w, b, e, v, extra).next) == Splice(Contents(w), b, e, v)
       <==> (b + |v| > |w.mem| || OverhangAgrees(w, b, e, v))
  {
    GrowthExact(w, b, e, v, extra);
    hide Grow, Append, Overwrite;
    var head := w.mem[..b] + v;
    assert Contents(w)[..b] == w.mem[..b] && Contents(w)[e..] == w.mem[e..w.len];
    assert Splice(Contents(w), b, e, v) == head + w.mem[e..w.len];
    if b + |v| <= |w.mem| {
      AliasedTail(w.mem, w.len, b, e, v);
      SameTail(head, (head + w.mem[b + |v|..])[e..w.len], w.mem[e..w.len]);
    }
  }

  // ---------- the whole call ----------

  /** Every longer value along the way is written where append moves the slice, or over text its overhang repeats. */
  ghost predicate Clean(cfg: Config, extra: nat -> nat, w: Window, depth: nat)
    requires ValidWindow(w)
    decreases depth
  {
    match FindSite(Contents(w))
    case Placeholder(b, e) =>
      depth > 0 ==>
        var v := Value(cfg, Contents(w)[b..e]);
        && (|v| <= e - b || b + |v| > |w.mem| || OverhangAgrees(w, b, e, v))
        && Clean(cfg, extra, Round(w, b, e, v, extra).next, depth - 1)
    case _ => true
  }

  function Reading(o: Outcome): Filled
    requires o.Done? ==> ValidWindow(o.w)
  {
    match o
    case Done(w, _) => Text(Contents(w))
    case Failed => NoEnd
    case OutOfDepth => TooDeep
  }

  lemma RoundIsSplice(w: Window, b: nat, e: nat, v: string, extra: nat -> nat)
    requires ValidWindow(w) && b <= e <= w.len
    requires |v| <= e - b || b + |v| > |w.mem| || OverhangAgrees(w, b, e, v)
    ensures Contents(Round(w, b, e, v, extra).next) == Splice(Contents(w), b, e, v)
  {
    if |v| <= e - b {
      ShrinkIsSplice(w, b, e, v);
    } else {
      GrowthIsSpliceIff(w, b, e, v, extra);
    }
  }

  /** On clean runs the in-place code computes the pure function; the flag says whether there was anything to do. */
  lemma {:induction false} CleanRunRefinesFill(cfg: Config, extra: nat -> nat, w: Window, depth: nat)
    requires ValidWindow(w) && Clean(cfg, extra, w, depth)
    ensures var o := FillMem(cfg, extra, w, depth).outcome;
            && Reading(o) == Fill(cfg, Contents(w), depth)
            && (o.Done? ==> o.changed == FindSite(Contents(w)).Placeholder?)
    decreases depth
  {
    match FindSite(Contents(w))
    case Placeholder(b, e) =>
      if depth > 0 {
        var v := Value(cfg, Contents(w)[b..e]);
        RoundIsSplice(w, b, e, v, extra);
        CleanRunRefinesFill(cfg, extra, Round(w, b, e, v, extra).next, depth - 1);
      }
    case _ =>
  }

  // ---------- configurations whose values fit ----------

  /** No placeholder, braces included, is shorter than the value it stands for. */
  ghost predicate NeverLonger(cfg: Config) {
    forall p :: FindSite(p) == Placeholder(0, |p|) ==> |Value(cfg, p)| <= |p|
  }

  lemma Fits(cfg: Config, s: string, b: nat, e: nat)
    requires NeverLonger(cfg) && FindSite(s) == Placeholder(b, e)
    ensures |Value(cfg, s[b..e])| <= e - b
  {
    PlaceholderAlone(s, b, e);
  }

  lemma {:induction false} NeverLongerIsClean(cfg: Config, extra: nat -> nat, w: Window, depth: nat)
    requires ValidWindow(w) && NeverLonger(cfg)
    ensures Clean(cfg, extra, w, depth)
    decreases depth
  {
    match FindSite(Contents(w))
    case Placeholder(b, e) =>
      if depth > 0 {
        var v := Value(cfg, Contents(w)[b..e]);
        Fits(cfg, Contents(w), b, e);
        NeverLongerIsClean(cfg, extra, Round(w, b, e, v, extra).next, depth - 1);
      }
    case _ =>
  }

  /** The bytes that shrinking leaves behind the output, innermost round first. */
  function Leftover(cfg: Config, s: string, depth: nat): string
    requires NeverLonger(cfg)
    decreases depth
  {
    match FindSite(s)
    case Placeholder(b, e) =>
      if depth == 0 then "" else
      var t := Splice(s, b, e, Value(cfg, s[b..e]));
      Fits(cfg, s, b, e);
      Leftover(cfg, t, depth - 1) + s[|t|..]
    case _ => ""
  }

  /** After r, the memory of w holds the output, then `leftover`, then the bytes past w that were there. */
  ghost predicate LeavesBehind(r: Run, w: Window, leftover: string)
    requires ValidWindow(w) && (r.outcome.Done? ==> ValidWindow(r.outcome.w)) && |r.caller| == |w.mem|
  {
    && r.caller[w.len..] == w.mem[w.len..]
    && (r.outcome.Done? ==>
         && r.outcome.w.mem == r.caller
         && r.caller == Contents(r.outcome.w) + leftover + w.mem[w.len..])
  }

  /** One more round outside r adds the bytes between its two lengths to the leftovers. */
  lemma OneRoundMore(r: Run, inner: Outcome, w: Window, next: Window, deeper: string)
    requires ValidWindow(w) && ValidWindow(next) && next.len <= w.len && |next.mem| == |w.mem| == |r.caller|
    requires next.mem[next.len..] == w.mem[next.len..]
    requires (inner.Done? ==> ValidWindow(inner.w)) && r.outcome == Changed(inner)
    requires LeavesBehind(Run(inner, r.caller), next, deeper)
    ensures LeavesBehind(r, w, deeper + Contents(w)[next.len..])
  {
    assert r.caller[w.len..] == r.caller[next.len..][w.len - next.len..];
    assert w.mem[w.len..] == w.mem[next.len..][w.len - next.len..];
    assert w.mem[next.len..] == Contents(w)[next.len..] + w.mem[w.len..];
    if inner.Done? {
      Regroup(Contents(inner.w), deeper, Contents(w)[next.len..], w.mem[w.len..]);
    }
  }

  lemma Regroup(a: string, b: string, c: string, d: string)
    ensures a + b + (c + d) == a + (b + c) + d
  {
  }

  /** The first round of such a call, seen by the caller. */
  lemma ShrinkingRound(cfg: Config, extra: nat -> nat, w: Window, depth: nat, b: nat, e: nat) returns (next: Window)
    requires ValidWindow(w) && NeverLonger(cfg) && depth > 0 && FindSite(Contents(w)) == Placeholder(b, e)
    ensures ValidWindow(next) && next.len <= w.len && |next.mem| == |w.mem| && next.mem[next.len..] == w.mem[next.len..]
    ensures var inner := FillMem(cfg, extra, next, depth - 1);
            FillMem(cfg, extra, w, depth) == Run(Changed(inner.outcome), inner.caller)
    ensures Leftover(cfg, Contents(w), depth) == Leftover(cfg, Contents(next), depth - 1) + Contents(w)[next.len..]
  {
    var v := Value(cfg, Contents(w)[b..e]);
    Fits(cfg, Contents(w), b, e);
    next := Shrink(w, b, e, v);
    ShrinkIsSplice(w, b, e, v);
    hide Shrink, Grow, Splice;
  }

  lemma NothingFilled(cfg: Config, extra: nat -> nat, w: Window, depth: nat)
    requires ValidWindow(w) && NeverLonger(cfg) && (FindSite(Contents(w)).Placeholder? ==> depth == 0)
    ensures LeavesBehind(FillMem(cfg, extra, w, depth), w, Leftover(cfg, Contents(w), depth))
  {
    assert w.mem == Contents(w) + "" + w.mem[w.len..];
  }

  lemma {:induction false} CallerMemory(cfg: Config, extra: nat -> nat, w: Window, depth: nat)
    requires ValidWindow(w) && NeverLonger(cfg)
    ensures LeavesBehind(FillMem(cfg, extra, w, depth), w, Leftover(cfg, Contents(w), depth))
    decreases depth
  {
    hide FillMem, Leftover, LeavesBehind;
    var site := FindSite(Contents(w));
    if site.Placeholder? && depth > 0 {
      var next := ShrinkingRound(cfg, extra, w, depth, site.begin, site.end);
      CallerMemory(cfg, extra, next, depth - 1);
      OneRoundMore(FillMem(cfg, extra, w, depth), FillMem(cfg, extra, next, depth - 1).outcome, w, next,
                   Leftover(cfg, Contents(next), depth - 1));
    } else {
      NothingFilled(cfg, extra, w, depth);
    }
  }

  /** In-place filling: the pure result, in the same memory, followed by the leftovers, and nothing
      past the caller's length touched. */
  lemma FillsInPlace(cfg: Config, extra: nat -> nat, w: Window, depth: nat)
    requires ValidWindow(w) && NeverLonger(cfg)
    ensures var r := FillMem(cfg, extra, w, depth);
            && Reading(r.outcome) == Fill(cfg, Contents(w), depth)
            && r.caller[w.len..] == w.mem[w.len..]
            && (r.outcome.Done? ==>
                 && r.outcome.w.mem == r.caller
                 && r.caller == Contents(r.outcome.w) + Leftover(cfg, Contents(w), depth) + w.mem[w.len..])
  {
    NeverLongerIsClean(cfg, extra, w, depth);
    CleanRunRefinesFill(cfg, extra, w, depth);
    CallerMemory(cfg, extra, w, depth);
    hide FillMem, Fill, Leftover;
  }

  // ---------- depth ----------

  /** The bound on the depth only decides whether there is a result: where one bound is enough, so is
      every larger one, and the run is the same. */
  lemma {:induction false} EnoughDepth(cfg: Config, extra: nat -> nat, w: Window, depth: nat, more: nat)
    requires ValidWindow(w) && depth <= more && !FillMem(cfg, extra, w, depth).outcome.OutOfDepth?
    ensures FillMem(cfg, extra, w, more) == FillMem(cfg, extra, w, depth)
    decreases depth
  {
    hide Round;
    match FindSite(Contents(w))
    case Placeholder(b, e) =>
      EnoughDepth(cfg, extra, Round(w, b, e, Value(cfg, Contents(w)[b..e]), extra).next, depth - 1, more - 1);
    case _ =>
  }

  function Braces(s: string): nat {
    if s == "" then 0 else (if s[0] == '{' then 1 else 0) + Braces(s[1..])
  }

  lemma {:induction false} BracesConcat(a: string, b: string)
    ensures Braces(a + b) == Braces(a) + Braces(b)
  {
    if a == "" {
      assert a + b == b;
    } else {
      assert (a + b)[1..] == a[1..] + b;
      BracesConcat(a[1..], b);
    }
  }

  lemma {:induction false} BracesPointwise(a: string, b: string)
    requires |a| == |b| && forall i :: 0 <= i < |a| && a[i] == '{' ==> b[i] == '{'
    ensures Braces(a) <= Braces(b)
  {
    if a != "" {
      forall i | 0 <= i < |a[1..]| && a[1..][i] == '{'
        ensures b[1..][i] == '{'
      {
        assert a[i + 1] == '{';
      }
      BracesPointwise(a[1..], b[1..]);
    }
  }

  lemma {:induction false} NoBraces(s: string)
    requires '{' !in s
    ensures Braces(s) == 0
  {
    if s != "" {
      assert s[0] in s;
      assert forall c :: c in s[1..] ==> c in s;
      NoBraces(s[1..]);
    }
  }

  ghost predicate BraceFree(cfg: Config) {
    forall key :: '{' !in cfg(key)
  }

  lemma OverwrittenAt(mem: string, b: nat, v: string, i: nat)
    requires b + |v| <= |mem| && b <= i < |mem|
    ensures (mem[..b] + v + mem[b + |v|..])[i] == if i < b + |v| then v[i - b] else mem[i]
  {
  }

  /** Whatever a round does to the text after the placeholder, a value without braces brings none there. */
  lemma RoundShape(w: Window, b: nat, e: nat, v: string, extra: nat -> nat) returns (tail: string)
    requires ValidWindow(w) && b <= e <= w.len
    ensures Contents(Round(w, b, e, v, extra).next) == w.mem[..b] + v + tail
    ensures |tail| == w.len - e
    ensures '{' !in v ==> forall i :: 0 <= i < |tail| && tail[i] == '{' ==> w.mem[e..w.len][i] == '{'
  {
    tail := w.mem[e..w.len];
    if |v| <= e - b {
      ShrinkIsSplice(w, b, e, v);
    } else {
      GrowthExact(w, b, e, v, extra);
      hide Grow;
      if b + |v| <= |w.mem| {
        tail := (w.mem[..b] + v + w.mem[b + |v|..])[e..w.len];
        forall i | 0 <= i < |tail|
          ensures tail[i] == if e + i < b + |v| then v[e + i - b] else w.mem[e..w.len][i]
        {
          OverwrittenAt(w.mem, b, v, e + i);
        }
      }
    }
  }

  /** Every round, shrinking, moving or overwriting its own tail, uses up the two braces that opened the placeholder. */
  lemma RoundUsesTwoBraces(w: Window, b: nat, e: nat, v: string, extra: nat -> nat)
    requires ValidWindow(w) && FindSite(Contents(w)) == Placeholder(b, e) && '{' !in v
    ensures Braces(Contents(Round(w, b, e, v, extra).next)) + 2 <= Braces(Contents(w))
  {
    hide Round, FindSite, IndexPair;
    var s := Contents(w);
    assert s == s[..b] + s[b..e] + s[e..];
    BracesConcat(s[..b] + s[b..e], s[e..]);
    BracesConcat(s[..b], s[b..e]);
    assert s[b..e][1..][0] == '{';
    assert Braces(s[b..e]) >= 2;
    NoBraces(v);
    var tail := RoundShape(w, b, e, v, extra);
    assert w.mem[e..w.len] == s[e..] && w.mem[..b] == s[..b];
    BracesPointwise(tail, s[e..]);
    BracesConcat(s[..b] + v, tail);
    BracesConcat(s[..b], v);
  }

  /** With brace-free values the recursion is at most half as deep as there are opening braces. */
  lemma {:induction false} DepthIsBounded(cfg: Config, extra: nat -> nat, w: Window, depth: nat)
    requires ValidWindow(w) && BraceFree(cfg) && Braces(Contents(w)) <= 2 * depth + 1
    ensures !FillMem(cfg, extra, w, depth).outcome.OutOfDepth?
    decreases depth
  {
    hide Round, Grow, Shrink;
    match FindSite(Contents(w))
    case Placeholder(b, e) =>
      var v := Value(cfg, Contents(w)[b..e]);
      RoundUsesTwoBraces(w, b, e, v, extra);
      DepthIsBounded(cfg, extra, Round(w, b, e, v, extra).next, depth - 1);
    case _ =>
  }

  /** A successful result holds no "{{", whatever the configuration. */
  lemma {:induction false} ResultIsFilled(cfg: Config, extra: nat -> nat, w: Window, depth: nat)
    requires ValidWindow(w) && FillMem(cfg, extra, w, depth).outcome.Done?
    ensures var out := Contents(FillMem(cfg, extra, w, depth).outcome.w);
            forall i :: 0 <= i < |out| - 1 ==> !(out[i] == '{' && out[i + 1] == '{')
    decreases depth
  {
    match FindSite(Contents(w))
    case Placeholder(b, e) =>
      ResultIsFilled(cfg, extra, Round(w, b, e, Value(cfg, Contents(w)[b..e]), extra).next, depth - 1);
    case _ =>
  }
}
