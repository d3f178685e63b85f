/** Where placeholders begin and end in a text, and which value they stand for. */
module TemplateText {
  import opened Template

  // ---------- where a placeholder is ----------

  /** The byte c stands at i and again at i + 1. */
  predicate PairAt(s: string, c: char, i: int) {
    0 <= i < |s| - 1 && s[i] == c && s[i + 1] == c
  }

  /** i is the first such place at or after `from`. */
  ghost predicate FirstPair(s: string, c: char, from: int, i: int) {
    from <= i && PairAt(s, c, i) && forall k :: from <= k < i ==> !PairAt(s, c, k)
  }

  lemma IndexPairIff(s: string, c: char, from: nat, i: int)
    requires from <= |s|
    ensures FirstPair(s, c, from, i) <==> i >= 0 && IndexPair(s, c, from) == i
    ensures IndexPair(s, c, from) < 0 <==> forall k :: from <= k ==> !PairAt(s, c, k)
  {
    var r := IndexPair(s, c, from);
    if r >= 0 {
      assert PairAt(s, c, r);
    }
  }

  /** A placeholder runs from the first "{{" through the first "}}" behind it; without a "{{" there is none,
      and without a "}}" behind the first one it is not closed. */
  lemma SiteIff(s: string, b: nat, e: nat)
    ensures FindSite(s) == Placeholder(b, e) <==> FirstPair(s, '{', 0, b) && FirstPair(s, '}', b, e - 2)
    ensures FindSite(s).NoPlaceholder? <==> forall i :: !PairAt(s, '{', i)
    ensures FindSite(s).Unclosed? <==> exists i :: FirstPair(s, '{', 0, i) && forall k :: i <= k ==> !PairAt(s, '}', k)
  {
    var first := IndexPair(s, '{', 0);
    IndexPairIff(s, '{', 0, first);
    IndexPairIff(s, '{', 0, b);
    if first >= 0 {
      IndexPairIff(s, '}', first, e - 2);
      forall i | FirstPair(s, '{', 0, i)
        ensures i == first
      {
        IndexPairIff(s, '{', 0, i);
      }
    }
  }

  // ---------- which value a placeholder stands for ----------

  const PREFIX := "object.config."

  predicate AllTrimmed(s: string) {
    forall i :: 0 <= i < |s| ==> s[i] == ' ' || s[i] == '{' || s[i] == '}'
  }

  /** It neither begins nor ends with a space or a brace. */
  predicate Bare(s: string) {
    s != "" ==> s[0] !in {' ', '{', '}'} && s[|s| - 1] !in {' ', '{', '}'}
  }

  predicate Within(s: string, pat: string) {
    exists i :: 0 <= i <= |s| && pat <= s[i..]
  }

  lemma {:induction false} TrimLeftDrops(l: string, s: string)
    requires AllTrimmed(l)
    ensures TrimLeft(l + s) == TrimLeft(s)
    decreases |l|
  {
    if l == "" {
      assert l + s == s;
    } else {
      assert (l + s)[1..] == l[1..] + s;
      TrimLeftDrops(l[1..], s);
    }
  }

  lemma {:induction false} TrimRightDrops(s: string, r: string)
    requires AllTrimmed(r)
    ensures TrimRight(s + r) == TrimRight(s)
    decreases |r|
  {
    if r == "" {
      assert s + r == s;
    } else {
      assert (s + r)[..|s + r| - 1] == s + r[..|r| - 1];
      TrimRightDrops(s, r[..|r| - 1]);
    }
  }

  lemma {:induction false} RemoveAllKeeps(s: string, pat: string)
    requires pat != "" && !Within(s, pat)
    ensures RemoveAll(s, pat) == s
    decreases |s|
  {
    if s != "" {
      assert s[0..] == s;
      forall i | 0 <= i <= |s[1..]|
        ensures !(pat <= s[1..][i..])
      {
        assert s[1..][i..] == s[i + 1..];
      }
      RemoveAllKeeps(s[1..], pat);
    }
  }

  /** A key, padded with spaces and braces, stands for its value; and so does the key with the prefix. */
  lemma PlaceholderNamesKey(cfg: Config, l: string, key: string, r: string)
    requires AllTrimmed(l) && AllTrimmed(r) && Bare(key) && !Within(key, PREFIX)
    ensures Value(cfg, l + key + r) == cfg(key)
    ensures key != "" ==> Value(cfg, l + (PREFIX + key) + r) == cfg(key)
  {
    hide TrimLeft, TrimRight;
    Trims(l, key, r);
    RemoveAllKeeps(key, PREFIX);
    if key != "" {
      PrefixGoes(key);
      hide RemoveAll, Within, AllTrimmed;
      Trims(l, PREFIX + key, r);
    }
  }

  lemma PrefixGoes(key: string)
    requires key != "" && Bare(key)
    ensures Bare(PREFIX + key) && RemoveAll(PREFIX + key, PREFIX) == RemoveAll(key, PREFIX)
  {
    var long := PREFIX + key;
    assert long[0] == 'o' && long[|long| - 1] == key[|key| - 1];
    assert PREFIX <= long && long[|PREFIX|..] == key;
  }

  lemma Trims(l: string, s: string, r: string)
    requires AllTrimmed(l) && AllTrimmed(r) && Bare(s)
    ensures TrimRight(TrimLeft(l + s + r)) == s
  {
    assert l + s + r == l + (s + r);
    TrimLeftDrops(l, s + r);
    if s == "" {
      assert s + r == r + "";
      TrimLeftDrops(r, "");
    } else {
      TrimRightDrops(s, r);
    }
  }

  /** The text of a placeholder is one placeholder and nothing else. */
  lemma PlaceholderAlone(s: string, b: nat, e: nat)
    requires FindSite(s) == Placeholder(b, e)
    ensures FindSite(s[b..e]) == Placeholder(0, |s[b..e]|)
  {
    var p := s[b..e];
    var end := IndexPair(s, '}', b);
    assert p[0] == '{' && p[1] == '{';
    assert p[end - b] == s[end] && p[end - b + 1] == s[end + 1];
  }

  // ---------- text with nothing to fill in front ----------

  predicate NoPair(s: string) {
    forall i :: 0 <= i < |s| - 1 ==> !(s[i] == '{' && s[i + 1] == '{')
  }

  /** No placeholder begins in s, nor with its last byte. */
  predicate Closed(s: string) {
    NoPair(s) && (s != "" ==> s[|s| - 1] != '{')
  }

  lemma {:induction false} IndexPairAfter(p: string, s: string, c: char, at: nat)
    requires at <= |s|
    ensures var i := IndexPair(s, c, at);
            IndexPair(p + s, c, |p| + at) == if i < 0 then -1 else |p| + i
    decreases |s| - at
  {
    if at + 2 <= |s| {
      assert (p + s)[|p| + at] == s[at] && (p + s)[|p| + at + 1] == s[at + 1];
      IndexPairAfter(p, s, c, at + 1);
    }
  }

  lemma {:induction false} IndexPairSkips(s: string, c: char, from: nat, to: nat)
    requires from <= to <= |s|
    requires forall i :: from <= i < to && i < |s| - 1 ==> !(s[i] == c && s[i + 1] == c)
    ensures IndexPair(s, c, from) == IndexPair(s, c, to)
    decreases |s| - from
  {
    if from < to {
      IndexPairSkips(s, c, from + 1, to);
    }
  }

  lemma FirstBraces(p: string, s: string)
    requires Closed(p)
    ensures IndexPair(p + s, '{', 0) == IndexPair(p + s, '{', |p|)
  {
    forall i | 0 <= i < |p| && i < |p + s| - 1
      ensures !((p + s)[i] == '{' && (p + s)[i + 1] == '{')
    {
      assert (p + s)[i] == p[i];
      if i < |p| - 1 {
        assert (p + s)[i + 1] == p[i + 1];
      }
    }
    IndexPairSkips(p + s, '{', 0, |p|);
  }

  lemma SiteAfter(p: string, s: string)
    requires Closed(p)
    ensures FindSite(p + s) ==
              match FindSite(s)
              case Placeholder(b, e) => Placeholder(|p| + b, |p| + e)
              case other => other
  {
    hide IndexPair, NoPair, Closed;
    FirstBraces(p, s);
    IndexPairAfter(p, s, '{', 0);
    var b := IndexPair(s, '{', 0);
    if b >= 0 {
      IndexPairAfter(p, s, '}', b);
    }
  }

  /** A brace at the very end of t, which with one more could open a placeholder. */
  function Hanging(t: string): string {
    if t != "" && t[|t| - 1] == '{' then "{" else ""
  }

  lemma Hangs(t: string) returns (front: string)
    requires NoPair(t)
    ensures t == front + Hanging(t) && Closed(front)
  {
    front := t[..|t| - |Hanging(t)|];
  }

  lemma IndexPairBefore(s: string, tail: string, c: char, at: nat)
    requires at <= |s| && IndexPair(s, c, at) >= 0
    ensures IndexPair(s + tail, c, at) == IndexPair(s, c, at)
  {
    var i, j := IndexPair(s, c, at), IndexPair(s + tail, c, at);
    assert (s + tail)[i] == c && (s + tail)[i + 1] == c;
    assert forall k :: 0 <= k < |s| ==> (s + tail)[k] == s[k];
  }

  lemma SiteBefore(s: string, tail: string)
    requires FindSite(s).Placeholder?
    ensures FindSite(s + tail) == FindSite(s)
  {
    IndexPairBefore(s, tail, '{', 0);
    IndexPairBefore(s, tail, '}', IndexPair(s, '{', 0));
  }

  /** Nothing opens before the leftmost placeholder. */
  lemma FrontIsClosed(s: string)
    requires FindSite(s).Placeholder?
    ensures Closed(s[..FindSite(s).begin])
  {
  }

  lemma OneBrace(s: string)
    requires forall i :: 1 <= i < |s| ==> s[i] != '{'
    ensures FindSite(s).NoPlaceholder?
  {
  }

  // ---------- filling behind such a text ----------

  lemma ClosedConcat(u: string, z: string)
    requires Closed(u) && Closed(z)
    ensures Closed(u + z)
  {
  }

  function Prefixed(p: string, f: Filled): Filled {
    match f
    case Text(t) => Text(p + t)
    case _ => f
  }

  lemma SpliceAfter(p: string, s: string, b: nat, e: nat, v: string)
    requires b <= e <= |s|
    ensures (p + s)[|p| + b..|p| + e] == s[b..e]
    ensures Splice(p + s, |p| + b, |p| + e, v) == p + Splice(s, b, e, v)
  {
  }

  lemma FillOneRound(cfg: Config, s: string, b: nat, e: nat, depth: nat)
    requires FindSite(s) == Placeholder(b, e) && depth > 0
    ensures Fill(cfg, s, depth) == Fill(cfg, Splice(s, b, e, Value(cfg, s[b..e])), depth - 1)
  {
  }

  lemma FillStops(cfg: Config, s: string, depth: nat)
    requires FindSite(s).Placeholder? ==> depth == 0
    ensures Fill(cfg, s, depth) ==
              match FindSite(s)
              case NoPlaceholder => Text(s)
              case Unclosed => NoEnd
              case Placeholder(_, _) => TooDeep
  {
  }

  /** What stands in front of the first placeholder takes no part in filling. */
  lemma {:induction false} FillAfter(cfg: Config, p: string, s: string, depth: nat)
    requires Closed(p)
    ensures Fill(cfg, p + s, depth) == Prefixed(p, Fill(cfg, s, depth))
    decreases depth
  {
    hide Fill, FindSite, IndexPair, Value, Splice, Closed;
    SiteAfter(p, s);
    var site := FindSite(s);
    if !site.Placeholder? || depth == 0 {
      FillStops(cfg, s, depth);
      FillStops(cfg, p + s, depth);
    } else {
      var v := Value(cfg, s[site.begin..site.end]);
      SpliceAfter(p, s, site.begin, site.end, v);
      FillOneRound(cfg, s, site.begin, site.end, depth);
      FillOneRound(cfg, p + s, |p| + site.begin, |p| + site.end, depth);
      FillAfter(cfg, p, Splice(s, site.begin, site.end, v), depth - 1);
    }
  }

  /** Where some depth is enough, every larger one gives the same. */
  lemma {:induction false} FillDeeper(cfg: Config, s: string, depth: nat, more: nat)
    requires depth <= more && !Fill(cfg, s, depth).TooDeep?
    ensures Fill(cfg, s, more) == Fill(cfg, s, depth)
    decreases depth
  {
    hide FindSite, Value, Splice;
    match FindSite(s)
    case Placeholder(b, e) => FillDeeper(cfg, Splice(s, b, e, Value(cfg, s[b..e])), depth - 1, more - 1);
    case _ =>
  }
}
