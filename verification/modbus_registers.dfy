/**
 Registers in internal/app/modbus/handler/handler.go: the packer behind modbus-write-multiple-registers,
 whose buffer length is a uint16 product, and `parseResult`.  Registers travel high byte first, as in
 section 6.12 of the MODBUS Application Protocol Specification V1.1b3.
 */
module ModbusRegisters {

  type byte = x: int | 0 <= x < 256

  const MAX_UINT16 := 0xFFFF

  /** An element of the JSON array: a json.Number that is an int64, another one, or something else. */
  datatype Item = Int(v: int) | NotInt | NotNumber

  predicate IsUint16(x: Item) {
    x.Int? && 0 <= x.v <= MAX_UINT16
  }

  /** Length of the valid beginning of the array. */
  function ValidPrefix(values: seq<Item>): (n: nat)
    ensures n <= |values| && (forall k :: 0 <= k < n ==> IsUint16(values[k])) && (n < |values| ==> !IsUint16(values[n]))
    decreases |values|
  {
    if values == [] || !IsUint16(values[0]) then 0 else 1 + ValidPrefix(values[1..])
  }

  function Word(hi: byte, lo: byte): nat {
    256 * hi + lo
  }

  /** The registers in a response, an odd last byte ignored. */
  function Words(b: seq<byte>): (w: seq<nat>)
    ensures |w| == |b| / 2 && forall k :: 0 <= k < |w| ==> w[k] == Word(b[2 * k], b[2 * k + 1])
  {
    seq(|b| / 2, k requires 0 <= k < |b| / 2 => Word(b[2 * k], b[2 * k + 1]))
  }

  /** parseResult */
  method ParseResult(b: seq<byte>) returns (res: seq<nat>)
    ensures res == Words(b)
    ensures |res| == |b| / 2 && forall k :: 0 <= k < |res| ==> res[k] == b[2 * k] as int * 256 + b[2 * k + 1] as int
  {
    res := [];
    var i := 0;
    while i < |b| - 1
      invariant i == 2 * |res| && |res| <= |b| / 2
      invariant forall k :: 0 <= k < |res| ==> res[k] == Words(b)[k]
    {
      res := res + [Word(b[i], b[i + 1])];
      i := i + 2;
    }
  }

  datatype Outcome = Accepted | InvalidParams | OutOfRange

  /** The closure of buildProcessRegistersArray, with its captured variables. */
  class RegisterPacker {
    var i: nat
    const bytes: array<byte>
    ghost var consumed: seq<int>

    ghost predicate Valid()
      reads this, bytes
    {
      && i == 2 * |consumed| <= bytes.Length
      && forall k :: 0 <= k < |consumed| ==> Word(bytes[2 * k], bytes[2 * k + 1]) == consumed[k]
    }

    constructor (bytes: array<byte>)
      ensures Valid() && consumed == [] && this.bytes == bytes
    {
      this.bytes := bytes;
      i, consumed := 0, [];
    }

    /** One item; OutOfRange is the panic of bytes[i:i+2]. */
    method Process(item: int) returns (r: Outcome)
      requires Valid()
      modifies this, bytes
      ensures r == if !(0 <= item <= MAX_UINT16) then InvalidParams
                   else if old(|consumed|) == bytes.Length / 2 then OutOfRange else Accepted
      ensures r.Accepted? ==> Valid() && consumed == old(consumed) + [item]
    {
      if !(0 <= item <= MAX_UINT16) {
        return InvalidParams;
      }
      if i + 2 > bytes.Length {
        return OutOfRange;
      }
      bytes[i], bytes[i + 1] := item / 256, item % 256;
      i := i + 2;
      consumed := consumed + [item];
      r := Accepted;
    }
  }

  /** quantity*2 in uint16 arithmetic. */
  function BufferLength(quantity: nat): nat {
    quantity * 2 % 0x1_0000
  }

  /** The part of writeMultipleRegisters that prepares the request. */
  method PackRegisters(quantity: nat, values: seq<Item>) returns (r: Outcome, packed: seq<byte>)
    requires quantity <= MAX_UINT16
    ensures r == if quantity != |values| then InvalidParams
                 else if quantity <= 32767 then (if ValidPrefix(values) == quantity then Accepted else InvalidParams)
                 else if ValidPrefix(values) > quantity - 32768 then OutOfRange else InvalidParams
    ensures r.Accepted? ==>
              && |packed| == 2 * quantity
              && Words(packed) == seq(quantity, k requires 0 <= k < quantity => values[k].v)
              && forall k :: 0 <= k < quantity ==>
                   packed[2 * k] as int * 256 + packed[2 * k + 1] as int == values[k].v
    ensures quantity <= 32767 ==>
              (r.Accepted? <==> quantity == |values| && forall k :: 0 <= k < |values| ==> IsUint16(values[k]))
    ensures r.Accepted? ==> forall k :: 0 <= k < quantity ==> values[k].Int? && 0 <= values[k].v <= 65535
  {
    packed := [];
    if quantity != |values| {
      return InvalidParams, packed;
    }
    var bytes := new byte[BufferLength(quantity)](_ => 0);
    var packer := new RegisterPacker(bytes);
    ghost var prefix := ValidPrefix(values);
    for k := 0 to |values|
      invariant packer.Valid() && packer.bytes == bytes && fresh(packer)
      invariant |packer.consumed| == k <= prefix
      invariant forall j :: 0 <= j < k ==> values[j].Int? && packer.consumed[j] == values[j].v
    {
      if !values[k].Int? {
        return InvalidParams, packed;
      }
      r := packer.Process(values[k].v);
      if !r.Accepted? {
        return r, packed;
      }
    }
    r, packed := Accepted, bytes[..];
  }
}
