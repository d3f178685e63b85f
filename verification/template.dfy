/**
 The placeholder filler of internal/app/core/rpc/interceptor.go: `fillTemplate` rewrites the
 leftmost `{{..}}` of a byte slice in place and recurses.  A byte is written as a `char`.

 Three descriptions are related here:
  - `Fill`, what a reader expects: splice the value over the leftmost placeholder and repeat;
  - `FillMem`, the same recursion over the memory of a Go slice, from its first byte to its capacity,
    with the aliasing that `append(data[:begin], name...)` causes;
  - `FillTemplate`, the code itself, over a real backing array.
 A configuration value may contain its own placeholder, and then the recursion never ends, so all
 three take a bound on the recursion depth and say so when it runs out.
 */
module Template {

  /** `Config.Get(key).Str()` of the edge object. */
  type Config = string -> string

  // ---------- searching ----------

  /** First index at or after `from` where the byte `c` occurs twice in a row, or -1. */
  function IndexPair(s: string, c: char, from: nat): (r: int)
    requires from <= |s|
    ensures r == -1 || (from <= r <= |s| - 2 && s[r] == c && s[r + 1] == c)
    ensures forall i :: from <= i < |s| - 1 && (r == -1 || i < r) ==> !(s[i] == c && s[i + 1] == c)
    decreases |s| - from
  {
    if from + 2 > |s| then -1
    else if s[from] == c && s[from + 1] == c then from
    else IndexPair(s, c, from + 1)
  }

  datatype Site = NoPlaceholder | Unclosed | Placeholder(begin: nat, end: nat)

  function FindSite(s: string): (r: Site)
    ensures r.Placeholder? ==> r.begin + 4 <= r.end <= |s| && s[r.begin] == '{' && s[r.begin + 1] == '{'
  {
    var begin := IndexPair(s, '{', 0);
    if begin < 0 then NoPlaceholder
    else
      var end := IndexPair(s, '}', begin);
      if end < 0 then Unclosed else Placeholder(begin, end + 2)
  }

  // ---------- from a placeholder to its value ----------

  predicate Trimmed(c: char) {
    c == ' ' || c == '{' || c == '}'
  }

  function TrimLeft(s: string): string {
    if s != "" && Trimmed(s[0]) then TrimLeft(s[1..]) else s
  }

  function TrimRight(s: string): string {
    if s != "" && Trimmed(s[|s| - 1]) then TrimRight(s[..|s| - 1]) else s
  }

  /** strings.ReplaceAll(s, pat, "") */
  function RemoveAll(s: string, pat: string): string
    requires pat != ""
  {
    if s == "" then ""
    else if pat <= s then RemoveAll(s[|pat|..], pat)
    else [s[0]] + RemoveAll(s[1..], pat)
  }

  function Value(cfg: Config, placeholder: string): string {
    cfg(RemoveAll(TrimRight(TrimLeft(placeholder)), "object.config."))
  }

  // ---------- what a reader expects ----------

  datatype Filled = Text(text: string) | NoEnd | TooDeep

  function Splice(s: string, begin: nat, end: nat, v: string): string
    requires begin <= end <= |s|
  {
    s[..begin] + v + s[end..]
  }

  function Fill(cfg: Config, s: string, depth: nat): Filled
    decreases depth
  {
    match FindSite(s)
    case NoPlaceholder => Text(s)
    case Unclosed => NoEnd
    case Placeholder(b, e) =>
      if depth == 0 then TooDeep else Fill(cfg, Splice(s, b, e, Value(cfg, s[b..e])), depth - 1)
  }

  // ---------- the same over the memory of a slice ----------

  /** A slice seen from its first byte: `mem` runs to its capacity, the first `len` bytes are its contents. */
  datatype Window = Window(mem: string, len: nat)

  predicate ValidWindow(w: Window) {
    w.len <= |w.mem|
  }

  function Contents(w: Window): string
    requires ValidWindow(w)
  {
    w.mem[..w.len]
  }

  /** The bytes of a fresh allocation that nobody has written. */
  function Zeros(n: nat): (z: string)
    ensures |z| == n
  {
    seq(n, _ => '\0')
  }

  function Overwrite(mem: string, at: nat, x: string): (r: string)
    requires at + |x| <= |mem|
    ensures |r| == |mem|
  {
    mem[..at] + x + mem[at + |x|..]
  }

  /** Go's append; `extra` is the growth policy of the runtime, which the language leaves open. */
  function Append(w: Window, x: string, extra: nat -> nat): (r: Window)
    requires ValidWindow(w)
    ensures ValidWindow(r) && Contents(r) == Contents(w) + x
  {
    if w.len + |x| <= |w.mem| then Window(Overwrite(w.mem, w.len, x), w.len + |x|)
    else Window(w.mem[..w.len] + x + Zeros(extra(w.len + |x|)), w.len + |x|)
  }

  /** The two copies of the branch whose value is not longer than the placeholder. */
  function Shrink(w: Window, b: nat, e: nat, v: string): (r: Window)
    requires ValidWindow(w) && b <= e <= w.len && |v| <= e - b
    ensures ValidWindow(r) && |r.mem| == |w.mem|
  {
    var named := Overwrite(w.mem, b, v);
    Window(Overwrite(named, b + |v|, named[e..w.len]), w.len - (e - b - |v|))
  }

  /** One round of the growing branch: `after` still points into the old memory, which the first append
      may have overwritten. */
  datatype Growth = Growth(next: Window, oldMemory: string, moved: bool)

  function Grow(w: Window, b: nat, e: nat, v: string, extra: nat -> nat): (r: Growth)
    requires ValidWindow(w) && b <= e <= w.len && e - b < |v|
    ensures ValidWindow(r.next)
    ensures !r.moved ==> r.next.mem == r.oldMemory
  {
    var movedFirst := b + |v| > |w.mem|;
    var head := Append(Window(w.mem, b), v, extra);
    var memory := if movedFirst then w.mem else head.mem;
    var next := Append(head, memory[e..w.len], extra);
    var moved := movedFirst || next.len > |head.mem|;
    Growth(next, if moved then memory else next.mem, moved)
  }

  /** What one level of the recursion does before it calls itself. */
  function Round(w: Window, b: nat, e: nat, v: string, extra: nat -> nat): (r: Growth)
    requires ValidWindow(w) && b <= e <= w.len
    ensures ValidWindow(r.next) && |r.oldMemory| == |w.mem|
    ensures !r.moved ==> r.next.mem == r.oldMemory
  {
    if |v| <= e - b then
      var s := Shrink(w, b, e, v);
      Growth(s, s.mem, false)
    else
      Grow(w, b, e, v, extra)
  }

  datatype Outcome = Done(w: Window, changed: bool) | Failed | OutOfDepth

  /** How a call ends, and what the memory of the slice it was given holds then. */
  datatype Run = Run(outcome: Outcome, caller: string)

  function Changed(o: Outcome): Outcome {
    match o
    case Done(w, _) => Done(w, true)
    case _ => o
  }

  function FillMem(cfg: Config, extra: nat -> nat, w: Window, depth: nat): (r: Run)
    requires ValidWindow(w)
    ensures r.outcome.Done? ==> ValidWindow(r.outcome.w)
    ensures |r.caller| == |w.mem|
    decreases depth, 0
  {
    match FindSite(Contents(w))
    case NoPlaceholder => Run(Done(w, false), w.mem)
    case Unclosed => Run(Failed, w.mem)
    case Placeholder(b, e) =>
      if depth == 0 then Run(OutOfDepth, w.mem) else
      FillFrom(cfg, extra, Round(w, b, e, Value(cfg, Contents(w)[b..e]), extra), depth - 1)
  }

  function FillFrom(cfg: Config, extra: nat -> nat, g: Growth, depth: nat): (r: Run)
    requires ValidWindow(g.next) && (!g.moved ==> g.next.mem == g.oldMemory)
    ensures r.outcome.Done? ==> ValidWindow(r.outcome.w)
    ensures |r.caller| == |g.oldMemory|
    decreases depth, 1
  {
    var r := FillMem(cfg, extra, g.next, depth);
    Run(Changed(r.outcome), if g.moved then g.oldMemory else r.caller)
  }

  // ---------- the code ----------

  /** A Go slice.  Nothing can be done through it to memory before its first byte or after its
      capacity, so `arr` is exactly that stretch; other slices may share it. */
  datatype Slice = Slice(arr: array<char>, len: nat)

  ghost predicate ValidSlice(d: Slice) {
    d.len <= d.arr.Length
  }

  ghost function View(d: Slice): Window
    requires ValidSlice(d)
    reads d.arr
  {
    Window(d.arr[..], d.len)
  }

  datatype Returned = Bytes(data: Slice, changed: bool) | EndNotFound | StillOpen

  /** What the caller of fillTemplate sees in the three results. */
  ghost function Observed(res: Returned): Outcome
    requires res.Bytes? ==> ValidSlice(res.data)
    reads if res.Bytes? then {res.data.arr} else {}
  {
    match res
    case Bytes(d, changed) => Done(View(d), changed)
    case EndNotFound => Failed
    case StillOpen => OutOfDepth
  }

  /** copy(arr[at:], x): x is a snapshot, which is what copying between overlapping slices amounts to. */
  method CopyTo(arr: array<char>, at: nat, x: string)
    requires at + |x| <= arr.Length
    modifies arr
    ensures arr[..] == Overwrite(old(arr[..]), at, x)
  {
    for i := 0 to |x|
      invariant arr[..] == Overwrite(old(arr[..]), at, x[..i])
    {
      arr[at + i] := x[i];
    }
    assert x[..|x|] == x;
  }

  /** append(d, x...) */
  method AppendTo(d: Slice, x: string, extra: nat -> nat) returns (r: Slice)
    requires ValidSlice(d)
    modifies d.arr
    ensures ValidSlice(r) && View(r) == Append(old(View(d)), x, extra)
    ensures if d.len + |x| <= d.arr.Length then r.arr == d.arr else fresh(r.arr) && d.arr[..] == old(d.arr[..])
  {
    if d.len + |x| <= d.arr.Length {
      CopyTo(d.arr, d.len, x);
      r := d.(len := d.len + |x|);
    } else {
      var bytes := d.arr[..d.len] + x;
      var room := |bytes| + extra(|bytes|);
      var arr := new char[room](i requires i >= 0 => if i < |bytes| then bytes[i] else '\0');
      r := Slice(arr, |bytes|);
      assert arr[..] == bytes + Zeros(extra(|bytes|));
    }
  }

  method ShrinkInPlace(d: Slice, begin: nat, end: nat, name: string) returns (r: Slice)
    requires ValidSlice(d) && begin <= end <= d.len && |name| <= end - begin
    modifies d.arr
    ensures r.arr == d.arr && ValidSlice(r) && View(r) == Shrink(old(View(d)), begin, end, name)
  {
    CopyTo(d.arr, begin, name);
    CopyTo(d.arr, begin + |name|, d.arr[end..d.len]);
    r := d.(len := d.len - (end - begin - |name|));
  }

  method GrowInPlace(d: Slice, begin: nat, end: nat, name: string, extra: nat -> nat) returns (r: Slice)
    requires ValidSlice(d) && begin <= end <= d.len && end - begin < |name|
    modifies d.arr
    ensures r.arr == d.arr || fresh(r.arr)
    ensures ValidSlice(r) && Grow(old(View(d)), begin, end, name, extra) == Growth(View(r), d.arr[..], r.arr != d.arr)
  {
    ghost var w := View(d);
    var head := AppendTo(d.(len := begin), name, extra);
    ghost var memory := d.arr[..];
    var after := d.arr[end..d.len];
    assert after == memory[end..w.len];
    r := AppendTo(head, after, extra);
    assert View(r) == Append(Append(Window(w.mem, begin), name, extra), memory[end..w.len], extra);
  }

  method RoundInPlace(d: Slice, begin: nat, end: nat, name: string, extra: nat -> nat) returns (r: Slice)
    requires ValidSlice(d) && begin <= end <= d.len
    modifies d.arr
    ensures r.arr == d.arr || fresh(r.arr)
    ensures ValidSlice(r) && Round(old(View(d)), begin, end, name, extra) == Growth(View(r), d.arr[..], r.arr != d.arr)
  {
    var beforeLen := end - begin;
    var finLen := |name|;
    if finLen <= beforeLen {
      r := ShrinkInPlace(d, begin, end, name);
    } else {
      r := GrowInPlace(d, begin, end, name, extra);
    }
  }

  /** fillTemplate. */
  method FillTemplate(cfg: Config, extra: nat -> nat, data: Slice, depth: nat) returns (res: Returned)
    requires ValidSlice(data)
    modifies data.arr
    ensures res.Bytes? ==> ValidSlice(res.data) && (res.data.arr == data.arr || fresh(res.data.arr))
    ensures FillMem(cfg, extra, old(View(data)), depth) == Run(Observed(res), data.arr[..])
    decreases depth, 1
  {
    var text := data.arr[..data.len];
    assert text == Contents(View(data));
    match FindSite(text)
    case NoPlaceholder => res := Bytes(data, false);
    case Unclosed => res := EndNotFound;
    case Placeholder(begin, end) =>
      if depth == 0 {
        res := StillOpen;
      } else {
        ghost var g;
        res, g := FillPlaceholder(cfg, extra, data, depth, begin, end, text[begin..end]);
      }
  }

  /** Its branch for the placeholder at data[begin:end]; `g` is what the round did to memory. */
  method FillPlaceholder(cfg: Config, extra: nat -> nat, data: Slice, depth: nat, begin: nat, end: nat,
                         placeholder: string)
    returns (res: Returned, ghost g: Growth)
    requires ValidSlice(data) && depth > 0 && begin <= end <= data.len
    modifies data.arr
    ensures res.Bytes? ==> ValidSlice(res.data) && (res.data.arr == data.arr || fresh(res.data.arr))
    ensures g == Round(old(View(data)), begin, end, Value(cfg, placeholder), extra)
    ensures FillFrom(cfg, extra, g, depth - 1) == Run(Observed(res), data.arr[..])
    decreases depth, 0
  {
    hide Round, FillFrom;
    var rest := RoundInPlace(data, begin, end, Value(cfg, placeholder), extra);
    g := Growth(View(rest), data.arr[..], rest.arr != data.arr);
    res := FillRest(cfg, extra, g, data, rest, depth - 1);
  }

  /** Its recursive call, on the slice `rest` that one round made of `data`. */
  method FillRest(cfg: Config, extra: nat -> nat, ghost g: Growth, ghost data: Slice, rest: Slice, depth: nat)
    returns (res: Returned)
    requires ValidSlice(rest) && g == Growth(View(rest), data.arr[..], rest.arr != data.arr)
    modifies rest.arr
    ensures res.Bytes? ==> ValidSlice(res.data) && (res.data.arr == rest.arr || fresh(res.data.arr))
    ensures FillFrom(cfg, extra, g, depth) == Run(Observed(res), data.arr[..])
    decreases depth, 2
  {
    res := FillTemplate(cfg, extra, rest, depth);
    match res {
      case Bytes(d, _) => res := Bytes(d, true);
      case _ =>
    }
  }
}
