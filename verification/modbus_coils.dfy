/**
 Coils in internal/app/modbus/handler/handler.go: the packer behind modbus-write-multiple-coils and
 `parseResultByteToBits` behind modbus-read-coil.  The wire format, eight coils a byte with the first
 in the lowest bit, is that of sections 6.1 and 6.11 of the MODBUS Application Protocol
 Specification V1.1b3.
 */
module ModbusCoils {

  function Mask(k: nat): bv8
    requires k < 8
  {
    match k
    case 0 => 1 case 1 => 2 case 2 => 4 case 3 => 8 case 4 => 16 case 5 => 32 case 6 => 64 case _ => 128
  }

  function Bit(b: bv8, k: nat): nat
    requires k < 8
  {
    if b & Mask(k) != 0 then 1 else 0
  }

  /** Coil k of a response. */
  function Coil(bytes: seq<bv8>, k: nat): nat
    requires k < 8 * |bytes|
  {
    Bit(bytes[k / 8], k % 8)
  }

  function Coils(bytes: seq<bv8>, quantity: nat): (c: seq<nat>)
    requires quantity <= 8 * |bytes|
    ensures |c| == quantity
  {
    seq(quantity, k requires 0 <= k < quantity => Coil(bytes, k))
  }

  /** As many bytes as the coils need, the unused bits zero. */
  predicate ZeroPadded(bytes: seq<bv8>, quantity: nat) {
    && |bytes| == (quantity + 7) / 8
    && forall k :: quantity <= k < 8 * |bytes| ==> Coil(bytes, k) == 0
  }

  // ---------- unpacking ----------

  /** What the inner loop appends for a byte: its bits up to the highest one that is set. */
  function Digits(b: bv8): seq<nat>
    decreases b
  {
    if b == 0 then [] else [if b & 1 != 0 then 1 else 0] + Digits(b >> 1)
  }

  function Emitted(bytes: seq<bv8>): seq<nat>
    decreases |bytes|
  {
    if bytes == [] then [] else Digits(bytes[0]) + Emitted(bytes[1..])
  }

  function Zeros(n: nat): (z: seq<nat>)
    ensures |z| == n
  {
    seq(n, _ => 0)
  }

  /** The first n of s, with zeros when s is too short. */
  function Fit(s: seq<nat>, n: nat): (r: seq<nat>)
    ensures |r| == n
  {
    (s + Zeros(n))[..n]
  }

  /** A []uint16 under append: `len` entries of `arr`, the rest of it still zero. */
  class Growing {
    var arr: array<nat>
    var len: nat

    ghost predicate Valid()
      reads this, arr
    {
      len <= arr.Length && forall i :: len <= i < arr.Length ==> arr[i] == 0
    }

    constructor (capacity: nat)
      ensures Valid() && fresh(arr) && len == 0 && arr.Length == capacity
    {
      arr := new nat[capacity](_ => 0);
      len := 0;
    }

    /** append; `extra` is the growth policy of the runtime. */
    method Append(x: nat, extra: nat -> nat)
      requires Valid()
      modifies this, arr
      ensures Valid() && arr[..len] == old(arr[..len]) + [x] && arr.Length >= old(arr.Length)
      ensures arr == old(arr) || fresh(arr)
    {
      if len == arr.Length {
        var s := arr[..];
        arr := new nat[len + 1 + extra(len + 1)](i requires i >= 0 => if i < |s| then s[i] else 0);
        assert arr[..len] == s;
      }
      arr[len] := x;
      len := len + 1;
    }
  }

  /** Its inner loop. */
  method ParseByte(result: Growing, b: bv8, extra: nat -> nat)
    requires result.Valid()
    modifies result, result.arr
    ensures result.Valid() && result.arr[..result.len] == old(result.arr[..result.len]) + Digits(b)
    ensures result.arr.Length >= old(result.arr.Length) && (result.arr == old(result.arr) || fresh(result.arr))
  {
    var bt := b;
    while bt != 0
      invariant result.Valid() && result.arr.Length >= old(result.arr.Length)
      invariant result.arr == old(result.arr) || fresh(result.arr)
      invariant result.arr[..result.len] + Digits(bt) == old(result.arr[..result.len]) + Digits(b)
      decreases bt
    {
      result.Append(if bt & 1 != 0 then 1 else 0, extra);
      bt := bt >> 1;
    }
  }

  /** parseResultByteToBits.  The final slice result[:quantity] is in range because the capacity never
      falls below quantity, and what it uncovers past the length is zero. */
  method ParseBits(b: seq<bv8>, quantity: nat, extra: nat -> nat) returns (bits: seq<nat>)
    ensures bits == Fit(Emitted(b), quantity)
  {
    var result := new Growing(quantity);
    for i := 0 to |b|
      invariant fresh(result) && fresh(result.arr) && result.Valid() && result.arr.Length >= quantity
      invariant result.arr[..result.len] + Emitted(b[i..]) == Emitted(b)
    {
      ghost var before, rest := result.arr[..result.len], Emitted(b[i + 1..]);
      assert Emitted(b[i..]) == Digits(b[i]) + rest by {
        assert b[i..][1..] == b[i + 1..];
      }
      hide Emitted, Digits;
      ParseByte(result, b[i], extra);
      assert before + Digits(b[i]) + rest == before + (Digits(b[i]) + rest);
    }
    bits := result.arr[..quantity];
    assert result.arr[..result.len] + [] == Emitted(b);
    hide Emitted;
    assert bits == Fit(Emitted(b), quantity);
  }

  // ---------- packing ----------

  /** An element of the JSON array: a json.Number that is an int64, another one, or something else. */
  datatype Item = Int(v: int) | NotInt | NotNumber

  predicate IsCoil(x: Item) {
    x.Int? && (x.v == 0 || x.v == 1)
  }

  lemma SetBit(b: bv8, p: nat, k: nat)
    requires p < 8 && k < 8
    ensures Bit(b | (1 << p), k) == if k == p then 1 else Bit(b, k)
  {
    assert (1 as bv8) << p == Mask(p);
  }

  /** The closure of buildProcessCoilsArray, with its captured variables. */
  class CoilPacker {
    var i: nat
    var pos: nat
    const bytes: array<bv8>
    ghost var consumed: seq<nat>

    ghost predicate Valid()
      reads this, bytes
    {
      && pos <= 8 && 8 * i + pos == |consumed| <= 8 * bytes.Length
      && (forall k :: 0 <= k < |consumed| ==> Coil(bytes[..], k) == consumed[k])
      && (forall k :: |consumed| <= k < 8 * bytes.Length ==> Coil(bytes[..], k) == 0)
    }

    constructor (bytes: array<bv8>)
      requires forall j :: 0 <= j < bytes.Length ==> bytes[j] == 0
      ensures Valid() && consumed == [] && this.bytes == bytes
    {
      this.bytes := bytes;
      i, pos, consumed := 0, 0, [];
    }

    /** One item; false is the error. */
    method Process(item: int) returns (ok: bool)
      requires Valid() && |consumed| < 8 * bytes.Length
      modifies this, bytes
      ensures ok <==> item == 0 || item == 1
      ensures ok ==> Valid() && consumed == old(consumed) + [item]
    {
      if pos == 8 {
        pos := 0;
        i := i + 1;
      }
      if item != 0 && item != 1 {
        return false;
      }
      ghost var before := bytes[..];
      if item == 1 {
        bytes[i] := bytes[i] | (1 << pos);
      }
      forall k | 0 <= k < 8 * bytes.Length
        ensures Coil(bytes[..], k) == if item == 1 && k == 8 * i + pos then 1 else Coil(before, k)
      {
        if item == 1 && k / 8 == i {
          SetBit(before[i], pos, k % 8);
        }
      }
      pos := pos + 1;
      consumed := consumed + [item];
      ok := true;
    }
  }

  datatype Packed = Bytes(bytes: seq<bv8>) | InvalidParams

  /** The part of writeMultipleCoils that prepares the request. */
  method PackCoils(quantity: nat, values: seq<Item>) returns (r: Packed)
    requires quantity < 0x1_0000
    ensures r.Bytes? <==>
              quantity == |values| && forall k :: 0 <= k < |values| ==> values[k] in {Int(0), Int(1)}
    ensures r.Bytes? ==>
              && ZeroPadded(r.bytes, quantity)
              && forall k :: 0 <= k < quantity ==> Coil(r.bytes, k) == values[k].v
  {
    if quantity != |values| {
      return InvalidParams;
    }
    var bytes := new bv8[(quantity + 7) / 8](_ => 0);
    var packer := new CoilPacker(bytes);
    for k := 0 to |values|
      invariant packer.Valid() && packer.bytes == bytes && fresh(packer) && |packer.consumed| == k
      invariant forall j :: 0 <= j < k ==> IsCoil(values[j]) && packer.consumed[j] == values[j].v
    {
      if !values[k].Int? {
        return InvalidParams;
      }
      var ok := packer.Process(values[k].v);
      if !ok {
        return InvalidParams;
      }
    }
    r := Bytes(bytes[..]);
  }
}
