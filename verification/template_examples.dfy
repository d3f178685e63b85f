/** A JSON payload with one placeholder, and two values that show what the conditions are for. */
module TemplateExamples {
  import opened Template
  import opened TemplateText
  import opened TemplateProperties

  // ---------- one placeholder in the middle ----------

  lemma SiteInMiddle(a: string, p: string, z: string)
    requires Closed(a) && FindSite(p) == Placeholder(0, |p|)
    ensures FindSite(a + (p + z)) == Placeholder(|a|, |a| + |p|)
    ensures (a + (p + z))[|a|..|a| + |p|] == p
  {
    hide FindSite, Closed;
    SiteBefore(p, z);
    SiteAfter(a, p + z);
  }

  lemma SpliceInMiddle(a: string, p: string, z: string, v: string)
    ensures Splice(a + (p + z), |a|, |a| + |p|, v) == a + (v + z)
  {
    assert (a + (p + z))[..|a|] == a && (a + (p + z))[|a| + |p|..] == z;
  }

  /** A longer value that ends where the memory does fills it, and the rest is appended elsewhere. */
  lemma GrowMoves(w: Window, b: nat, e: nat, v: string, extra: nat -> nat)
    requires ValidWindow(w) && b <= e < w.len && e - b < |v| && b + |v| == |w.mem|
    ensures var g := Round(w, b, e, v, extra); g.moved && g.oldMemory == w.mem[..b] + v
  {
    assert w.mem[|w.mem|..] == "";
    assert Overwrite(w.mem, b, v) == w.mem[..b] + v;
  }

  /** A value as long as its placeholder and all the text behind it: that text is overwritten before it
      is appended. */
  lemma GrowOver(a: string, p: string, z: string, v: string, extra: nat -> nat)
    requires |v| == |p| + |z| > |p|
    ensures var s := a + (p + z);
            var g := Round(Window(s, |s|), |a|, |a| + |p|, v, extra);
            Contents(g.next) == a + (v + v[|p|..]) && g.moved && g.oldMemory == a + v
  {
    var s := a + (p + z);
    GrowMoves(Window(s, |s|), |a|, |a| + |p|, v, extra);
    GrowthExact(Window(s, |s|), |a|, |a| + |p|, v, extra);
    hide Grow;
    assert s[..|a|] == a;
    OverwrittenTail(a, p, z, v);
  }

  lemma OverwrittenTail(a: string, p: string, z: string, v: string)
    requires |v| == |p| + |z|
    ensures var s := a + (p + z);
            a + v + (a + v + s[|a| + |v|..])[|a| + |p|..|s|] == a + (v + v[|p|..])
  {
    var s := a + (p + z);
    assert s[|a| + |v|..] == "";
    assert (a + v + "")[|a| + |p|..|s|] == v[|p|..];
  }

  lemma ShrinkOver(a: string, p: string, z: string, extra: nat -> nat)
    requires p != ""
    ensures var s := a + (p + z);
            var g := Round(Window(s, |s|), |a|, |a| + |p|, "", extra);
            !g.moved && g.next.len == |a + z| && Contents(g.next) == a + z && g.next.mem == a + z + s[|a + z|..]
  {
    var s := a + (p + z);
    var w := Window(s, |s|);
    ShrinkIsSplice(w, |a|, |a| + |p|, "");
    SpliceInMiddle(a, p, z, "");
    assert Contents(w) == s && "" + z == z;
    hide Shrink, Splice;
  }

  /** A call whose first round leaves nothing to fill in. */
  lemma OneRound(cfg: Config, extra: nat -> nat, w: Window, b: nat, e: nat)
    requires ValidWindow(w) && FindSite(Contents(w)) == Placeholder(b, e)
    requires FindSite(Contents(Round(w, b, e, Value(cfg, Contents(w)[b..e]), extra).next)).NoPlaceholder?
    ensures var g := Round(w, b, e, Value(cfg, Contents(w)[b..e]), extra);
            FillMem(cfg, extra, w, 1) == Run(Done(g.next, true), if g.moved then g.oldMemory else g.next.mem)
  {
    hide Round, FindSite, Value;
  }

  lemma OneFill(cfg: Config, s: string, b: nat, e: nat)
    requires FindSite(s) == Placeholder(b, e) && FindSite(Splice(s, b, e, Value(cfg, s[b..e]))).NoPlaceholder?
    ensures Fill(cfg, s, 1) == Text(Splice(s, b, e, Value(cfg, s[b..e])))
  {
    hide FindSite, Value, Splice;
  }

  // ---------- the payload ----------

  const FRONT := "{\"k\":\""
  const PLACEHOLDER := "{{a}}"
  const TAIL := "\"}"

  /** {"k":"{{a}}"} in a slice without spare capacity. */
  const PAYLOAD := FRONT + (PLACEHOLDER + TAIL)

  lemma PayloadSite(cfg: Config)
    ensures FindSite(PLACEHOLDER) == Placeholder(0, |PLACEHOLDER|) && Value(cfg, PLACEHOLDER) == cfg("a")
  {
    var s := PLACEHOLDER;
    assert IndexPair(s, '{', 0) == 0;
    assert IndexPair(s, '}', 0) == IndexPair(s, '}', 1) == IndexPair(s, '}', 2) == IndexPair(s, '}', 3) == 3;
    assert s == "{{" + "a" + "}}";
    hide FindSite, IndexPair, Value;
    assert !Within("a", PREFIX);
    PlaceholderNamesKey(cfg, "{{", "a", "}}");
  }

  /** The text has one brace, at its beginning. */
  lemma NothingToFill(v: string)
    requires '{' !in v
    ensures FindSite(FRONT + v).NoPlaceholder?
  {
    var s := FRONT + v;
    assert forall i :: |FRONT| <= i < |s| ==> s[i] == v[i - |FRONT|] && v[i - |FRONT|] in v;
    OneBrace(s);
  }

  lemma PayloadIsSite(cfg: Config)
    ensures Contents(Window(PAYLOAD, |PAYLOAD|)) == PAYLOAD
    ensures FindSite(PAYLOAD) == Placeholder(|FRONT|, |FRONT| + |PLACEHOLDER|)
    ensures Value(cfg, PAYLOAD[|FRONT|..|FRONT| + |PLACEHOLDER|]) == cfg("a")
  {
    assert Closed(FRONT);
    PayloadSite(cfg);
    hide FRONT, PLACEHOLDER, TAIL, Closed, FindSite, Value;
    SiteInMiddle(FRONT, PLACEHOLDER, TAIL);
  }

  /** A value that ends within the payload is written over the text after its placeholder, with no
      capacity to spare: the closing quote and brace are lost. */
  lemma AliasedTailIsLost(cfg: Config, extra: nat -> nat)
    requires cfg("a") == "1234567"
    ensures Reading(FillMem(cfg, extra, Window(PAYLOAD, |PAYLOAD|), 1).outcome) == Text(FRONT + ("1234567" + "67"))
    ensures Fill(cfg, PAYLOAD, 1) == Text(FRONT + ("1234567" + TAIL))
  {
    var v, w := "1234567", Window(PAYLOAD, |PAYLOAD|);
    assert v[|PLACEHOLDER|..] == "67" && |v| == |PLACEHOLDER| + |TAIL| > |PLACEHOLDER|;
    assert '{' !in v + "67" && '{' !in v + TAIL;
    hide FRONT, PLACEHOLDER, TAIL, FindSite, Value, Round, FillMem, Fill, Splice;
    PayloadIsSite(cfg);
    GrowOver(FRONT, PLACEHOLDER, TAIL, v, extra);
    SpliceInMiddle(FRONT, PLACEHOLDER, TAIL, v);
    NothingToFill(v + "67");
    NothingToFill(v + TAIL);
    OneRound(cfg, extra, w, |FRONT|, |FRONT| + |PLACEHOLDER|);
    OneFill(cfg, PAYLOAD, |FRONT|, |FRONT| + |PLACEHOLDER|);
  }

  /** A job with an empty value: its first tick gives a JSON object, and its second one that object with
      the leftovers behind it, which is not JSON. */
  lemma SecondTickDiffers(cfg: Config, extra: nat -> nat)
    requires cfg("a") == ""
    ensures var r := FillMem(cfg, extra, Window(PAYLOAD, |PAYLOAD|), 1);
            var second := FRONT + TAIL + "a}}\"}";
            && Reading(r.outcome) == Text(FRONT + TAIL) && r.caller == second
            && Reading(FillMem(cfg, extra, Window(r.caller, |PAYLOAD|), 1).outcome) == Text(second)
  {
    var w := Window(PAYLOAD, |PAYLOAD|);
    var second := FRONT + TAIL + "a}}\"}";
    assert PAYLOAD[|FRONT + TAIL|..] == "a}}\"}";
    assert '{' !in TAIL && '{' !in TAIL + "a}}\"}" && second == FRONT + (TAIL + "a}}\"}");
    hide FRONT, PLACEHOLDER, TAIL, FindSite, Value, Round;
    PayloadIsSite(cfg);
    ShrinkOver(FRONT, PLACEHOLDER, TAIL, extra);
    NothingToFill(TAIL);
    NothingToFill(TAIL + "a}}\"}");
    OneRound(cfg, extra, w, |FRONT|, |FRONT| + |PLACEHOLDER|);
    assert Contents(Window(second, |PAYLOAD|)) == second;
  }

  /** A job with that long value: its second tick finds the closing quote and brace gone. */
  lemma LongTickDiffers(cfg: Config, extra: nat -> nat)
    requires cfg("a") == "1234567"
    ensures var r := FillMem(cfg, extra, Window(PAYLOAD, |PAYLOAD|), 1);
            && Reading(r.outcome) == Text(FRONT + ("1234567" + "67")) && r.caller == FRONT + "1234567"
            && Reading(FillMem(cfg, extra, Window(r.caller, |PAYLOAD|), 1).outcome) == Text(FRONT + "1234567")
  {
    var v, w := "1234567", Window(PAYLOAD, |PAYLOAD|);
    assert v[|PLACEHOLDER|..] == "67" && |v| == |PLACEHOLDER| + |TAIL| > |PLACEHOLDER|;
    assert '{' !in v + "67" && '{' !in v;
    hide FRONT, PLACEHOLDER, TAIL, FindSite, Value, Round;
    PayloadIsSite(cfg);
    GrowOver(FRONT, PLACEHOLDER, TAIL, v, extra);
    NothingToFill(v + "67");
    NothingToFill(v);
    OneRound(cfg, extra, w, |FRONT|, |FRONT| + |PLACEHOLDER|);
    assert Contents(Window(FRONT + v, |PAYLOAD|)) == FRONT + v;
  }
}
