/** What reading coils returns, compared with the coils on the wire. */
module ModbusCoilsProperties {
  import opened ModbusCoils

  function Bits8(b: bv8): (r: seq<nat>)
    ensures |r| == 8
  {
    seq(8, k requires 0 <= k < 8 => Bit(b, k))
  }

  /** All the bits on the wire, unused ones included. */
  function Wire(bytes: seq<bv8>): (r: seq<nat>)
    ensures |r| == 8 * |bytes|
    decreases |bytes|
  {
    if bytes == [] then [] else Bits8(bytes[0]) + Wire(bytes[1..])
  }

  lemma {:induction false} WireIsCoils(bytes: seq<bv8>, k: nat)
    requires k < 8 * |bytes|
    ensures Wire(bytes)[k] == Coil(bytes, k)
    decreases |bytes|
  {
    if k >= 8 {
      WireIsCoils(bytes[1..], k - 8);
      assert bytes[1..][(k - 8) / 8] == bytes[k / 8];
    }
  }

  lemma WireStartsWithCoils(bytes: seq<bv8>, q: nat)
    requires q <= 8 * |bytes|
    ensures Wire(bytes)[..q] == Coils(bytes, q)
  {
    forall k | 0 <= k < q
      ensures Wire(bytes)[k] == Coils(bytes, q)[k]
    {
      WireIsCoils(bytes, k);
    }
  }

  lemma ShiftBit(b: bv8, k: nat)
    requires 0 < k < 8
    ensures Bit(b >> 1, k - 1) == Bit(b, k) && Bit(b >> 1, 7) == 0
  {
  }

  /** The digits of a byte are its bits without the zeros at the high end. */
  lemma {:induction false} DigitsAreBits(b: bv8)
    ensures |Digits(b)| <= 8
    ensures Bits8(b) == Digits(b) + Zeros(8 - |Digits(b)|)
    ensures Digits(b) != [] ==> Digits(b)[|Digits(b)| - 1] == 1
    ensures |Digits(b)| == 8 <==> Bit(b, 7) == 1
    ensures Digits(b) == [] <==> b == 0
    decreases b
  {
    if b == 0 {
      assert forall k :: 0 <= k < 8 ==> Bit(b, k) == 0;
    } else {
      var d := Digits(b >> 1);
      DigitsAreBits(b >> 1);
      ShiftBit(b, 7);
      assert |d| < 8;
      assert Digits(b) == [Bit(b, 0)] + d;
      assert d == [] ==> Bit(b, 0) == 1;
      hide Digits, Bit;
      assert Bits8(b >> 1)[6] == (d + Zeros(8 - |d|))[6];
      forall k | 0 <= k < 8
        ensures Bits8(b)[k] == (Digits(b) + Zeros(7 - |d|))[k]
      {
        if k > 0 {
          ShiftBit(b, k);
          assert Bits8(b >> 1)[k - 1] == (d + Zeros(8 - |d|))[k - 1];
        }
      }
    }
  }

  // ---------- when reading is right ----------

  /** A byte with bit 7 clear is followed by zero bytes only. */
  predicate FullUntilZero(bytes: seq<bv8>) {
    forall j, i :: 0 <= j < i < |bytes| && Bit(bytes[j], 7) == 0 ==> bytes[i] == 0
  }

  lemma {:induction false} EmittedIsShort(bytes: seq<bv8>)
    ensures |Emitted(bytes)| <= 8 * |bytes|
    ensures Emitted(bytes) == [] <==> forall i :: 0 <= i < |bytes| ==> bytes[i] == 0
    decreases |bytes|
  {
    if bytes != [] {
      DigitsAreBits(bytes[0]);
      EmittedIsShort(bytes[1..]);
      if Emitted(bytes) == [] {
        forall i | 0 <= i < |bytes|
          ensures bytes[i] == 0
        {
          assert i > 0 ==> bytes[1..][i - 1] == bytes[i];
        }
      }
    }
  }

  /** The last one on the wire is not before the last thing emitted. */
  lemma {:induction false} LastOne(bytes: seq<bv8>) returns (last: nat)
    requires Emitted(bytes) != []
    ensures last < 8 * |bytes| && Wire(bytes)[last] == 1 && |Emitted(bytes)| <= last + 1
    decreases |bytes|
  {
    var d := Digits(bytes[0]);
    DigitsAreBits(bytes[0]);
    if Emitted(bytes[1..]) == [] {
      last := |d| - 1;
      assert Bits8(bytes[0])[last] == d[last];
    } else {
      var inner := LastOne(bytes[1..]);
      last := 8 + inner;
    }
  }

  lemma {:induction false} WireOfZeros(bytes: seq<bv8>)
    requires Emitted(bytes) == []
    ensures Wire(bytes) == Zeros(8 * |bytes|)
    decreases |bytes|
  {
    if bytes != [] {
      DigitsAreBits(bytes[0]);
      WireOfZeros(bytes[1..]);
    }
  }

  lemma FitFull(d: seq<nat>, e: seq<nat>, w: seq<nat>)
    ensures Fit(d + e, |d| + |w|) == d + w <==> Fit(e, |w|) == w
  {
    assert Fit(d + e, |d| + |w|) == d + Fit(e, |w|);
    assert (d + Fit(e, |w|))[|d|..] == Fit(e, |w|) && (d + w)[|d|..] == w;
  }

  lemma FitNothing(n: nat)
    ensures Fit([], n) == Zeros(n)
  {
    assert [] + Zeros(n) == Zeros(n);
  }

  lemma FitEnds(d: seq<nat>, m: nat, n: nat)
    requires |d| <= m
    ensures Fit(d + [], m + n) == d + Zeros(m - |d|) + Zeros(n)
  {
    assert d + [] == d;
  }

  lemma Unfold(bytes: seq<bv8>)
    requires bytes != []
    ensures Wire(bytes) == Bits8(bytes[0]) + Wire(bytes[1..])
    ensures Emitted(bytes) == Digits(bytes[0]) + Emitted(bytes[1..])
  {
  }

  lemma FitGap(d: seq<nat>, e: seq<nat>, w: seq<nat>, last: nat)
    requires |d| < 8 && |e| <= last + 1 && 8 + last < |w| && w[8 + last] == 1
    ensures Fit(d + e, |w|) != w
  {
    assert Fit(d + e, |w|)[8 + last] == 0;
  }

  /** Dropping the high zeros of the bytes changes nothing exactly when the bytes are full until zero. */
  lemma {:induction false} EmittedIsWireIff(bytes: seq<bv8>)
    ensures Fit(Emitted(bytes), 8 * |bytes|) == Wire(bytes) <==> FullUntilZero(bytes)
    decreases |bytes|
  {
    if bytes == [] {
      return;
    }
    hide Emitted, Wire, FullUntilZero, Digits, Bit, Fit;
    var rest := bytes[1..];
    var d, e := Digits(bytes[0]), Emitted(rest);
    Unfold(bytes);
    DigitsAreBits(bytes[0]);
    FullUntilZeroSplit(bytes);
    EmittedIsWireIff(rest);
    if |d| == 8 {
      assert Bits8(bytes[0]) == d;
      FitFull(d, e, Wire(rest));
    } else if e == [] {
      WireOfZeros(rest);
      FitEnds(d, 8, 8 * |rest|);
      FitNothing(8 * |rest|);
    } else {
      var last := LastOne(rest);
      assert Wire(bytes)[8 + last] == 1;
      FitGap(d, e, Wire(bytes), last);
    }
  }

  lemma FullUntilZeroSplit(bytes: seq<bv8>)
    requires bytes != []
    ensures FullUntilZero(bytes) <==> FullUntilZero(bytes[1..]) && (Bit(bytes[0], 7) == 0 ==> Emitted(bytes[1..]) == [])
  {
    var rest := bytes[1..];
    EmittedIsShort(rest);
    assert forall i :: 0 <= i < |rest| ==> rest[i] == bytes[i + 1];
    if FullUntilZero(rest) && (Bit(bytes[0], 7) == 0 ==> Emitted(rest) == []) {
      forall j, i | 0 <= j < i < |bytes| && Bit(bytes[j], 7) == 0
        ensures bytes[i] == 0
      {
        assert rest[i - 1] == bytes[i];
        if j > 0 {
          assert rest[j - 1] == bytes[j];
        }
      }
    }
  }

  /** Reading returns the coils of a zero-padded response exactly when every byte with bit 7 clear is
      followed by zero bytes only. */
  lemma ReadingIsRightIff(bytes: seq<bv8>, quantity: nat)
    requires ZeroPadded(bytes, quantity)
    ensures Fit(Emitted(bytes), quantity) == Coils(bytes, quantity) <==> FullUntilZero(bytes)
  {
    var n, e := 8 * |bytes|, Emitted(bytes);
    EmittedFits(bytes, quantity);
    EmittedIsWireIff(bytes);
    WireStartsWithCoils(bytes, quantity);
    forall k | quantity <= k < n
      ensures Wire(bytes)[k] == 0
    {
      WireIsCoils(bytes, k);
    }
    assert Wire(bytes) == Coils(bytes, quantity) + Zeros(n - quantity);
    assert Fit(e, n) == Fit(e, quantity) + Zeros(n - quantity);
    if Fit(e, n) == Wire(bytes) {
      assert Fit(e, quantity) == Fit(e, n)[..quantity] == Wire(bytes)[..quantity];
    }
  }

  lemma EmittedFits(bytes: seq<bv8>, quantity: nat)
    requires ZeroPadded(bytes, quantity)
    ensures |Emitted(bytes)| <= quantity
  {
    if Emitted(bytes) != [] {
      var last := LastOne(bytes);
      WireIsCoils(bytes, last);
    }
  }

  // ---------- what is right in every case ----------

  /** The positions of the ones of s, the first element being at `at`. */
  function Ones(s: seq<nat>, at: nat): seq<nat>
    decreases |s|
  {
    if s == [] then [] else (if s[0] == 1 then [at] else []) + Ones(s[1..], at + 1)
  }

  /** As many ones, in the same order, and none of them later. */
  predicate NoneLater(a: seq<nat>, b: seq<nat>) {
    |a| == |b| && forall m :: 0 <= m < |a| ==> a[m] <= b[m]
  }

  lemma {:induction false} OnesConcat(s: seq<nat>, t: seq<nat>, at: nat)
    ensures Ones(s + t, at) == Ones(s, at) + Ones(t, at + |s|)
    decreases |s|
  {
    if s == [] {
      assert s + t == t;
    } else {
      assert (s + t)[1..] == s[1..] + t;
      OnesConcat(s[1..], t, at + 1);
      var head := if s[0] == 1 then [at] else [];
      assert Ones(s + t, at) == head + Ones(s[1..] + t, at + 1);
      assert Ones(s, at) == head + Ones(s[1..], at + 1);
    }
  }

  lemma {:induction false} OnesOfZeros(n: nat, at: nat)
    ensures Ones(Zeros(n), at) == []
    decreases n
  {
    if n > 0 {
      assert Zeros(n)[1..] == Zeros(n - 1);
      OnesOfZeros(n - 1, at + 1);
    }
  }

  lemma {:induction false} OnesMove(s: seq<nat>, a: nat, b: nat)
    requires a <= b
    ensures NoneLater(Ones(s, a), Ones(s, b))
    decreases |s|
  {
    if s != [] {
      OnesMove(s[1..], a + 1, b + 1);
    }
  }

  lemma NoneLaterConcat(a: seq<nat>, b: seq<nat>, c: seq<nat>, d: seq<nat>)
    requires NoneLater(a, b) && NoneLater(c, d)
    ensures NoneLater(a + c, b + d)
  {
  }

  lemma {:induction false} EmittedOnes(bytes: seq<bv8>, a: nat, b: nat)
    requires a <= b
    ensures NoneLater(Ones(Emitted(bytes), a), Ones(Wire(bytes), b))
    decreases |bytes|
  {
    if bytes == [] {
      return;
    }
    hide Wire, Emitted, Digits, Ones, NoneLater, Bit;
    var d := Digits(bytes[0]);
    Unfold(bytes);
    DigitsAreBits(bytes[0]);
    OnesConcat(d, Emitted(bytes[1..]), a);
    OnesConcat(Bits8(bytes[0]), Wire(bytes[1..]), b);
    OnesConcat(d, Zeros(8 - |d|), b);
    OnesOfZeros(8 - |d|, b + |d|);
    assert Ones(Bits8(bytes[0]), b) == Ones(d, b);
    OnesMove(d, a, b);
    EmittedOnes(bytes[1..], a + |d|, b + 8);
    NoneLaterConcat(Ones(d, a), Ones(d, b), Ones(Emitted(bytes[1..]), a + |d|), Ones(Wire(bytes[1..]), b + 8));
  }

  /** For every zero-padded response the result has the ones of the coils, in order, none of them later
      than it should be. */
  lemma OnesAreNeverLate(bytes: seq<bv8>, quantity: nat)
    requires ZeroPadded(bytes, quantity)
    ensures NoneLater(Ones(Fit(Emitted(bytes), quantity), 0), Ones(Coils(bytes, quantity), 0))
  {
    var n, e := 8 * |bytes|, Emitted(bytes);
    EmittedFits(bytes, quantity);
    EmittedOnes(bytes, 0, 0);
    assert Fit(e, quantity) == e + Zeros(quantity - |e|);
    OnesConcat(e, Zeros(quantity - |e|), 0);
    OnesOfZeros(quantity - |e|, |e|);
    WireStartsWithCoils(bytes, quantity);
    forall k | quantity <= k < n
      ensures Wire(bytes)[k] == 0
    {
      WireIsCoils(bytes, k);
    }
    assert Wire(bytes) == Coils(bytes, quantity) + Zeros(n - quantity);
    OnesConcat(Coils(bytes, quantity), Zeros(n - quantity), 0);
    OnesOfZeros(n - quantity, quantity);
  }

  // ---------- writing, then reading ----------

  /** An eighth coil that is off is followed by coils that are off. */
  predicate EighthsLast(values: seq<nat>) {
    forall p, i :: 0 <= p < i < |values| && p % 8 == 7 && values[p] == 0 ==> values[i] == 0
  }

  lemma ByteIsZeroIff(bytes: seq<bv8>, i: nat)
    requires i < |bytes|
    ensures bytes[i] == 0 <==> forall k :: 8 * i <= k < 8 * i + 8 ==> Coil(bytes, k) == 0
  {
    DigitsAreBits(bytes[i]);
    var d := Digits(bytes[i]);
    if d != [] {
      assert Bits8(bytes[i])[|d| - 1] == d[|d| - 1];
      assert Coil(bytes, 8 * i + (|d| - 1)) == 1;
    } else {
      forall k | 8 * i <= k < 8 * i + 8
        ensures Coil(bytes, k) == 0
      {
        assert Bits8(bytes[i])[k - 8 * i] == 0;
      }
    }
  }

  /** Coils packed for writing and read back unchanged by the device come out as they went in exactly
      when an eighth coil that is off is followed by coils that are off. */
  lemma RoundTripIff(values: seq<nat>, bytes: seq<bv8>)
    requires ZeroPadded(bytes, |values|) && Coils(bytes, |values|) == values
    ensures Fit(Emitted(bytes), |values|) == values <==> EighthsLast(values)
  {
    ReadingIsRightIff(bytes, |values|);
    hide Emitted, Fit, Bit;
    assert forall k :: 0 <= k < |values| ==> Coil(bytes, k) == Coils(bytes, |values|)[k] == values[k];
    if FullUntilZero(bytes) {
      forall p, i | 0 <= p < i < |values| && p % 8 == 7 && values[p] == 0
        ensures values[i] == 0
      {
        assert Coil(bytes, p) == Bit(bytes[p / 8], 7);
        ByteIsZeroIff(bytes, i / 8);
      }
    }
    if EighthsLast(values) {
      forall j, i | 0 <= j < i < |bytes| && Bit(bytes[j], 7) == 0
        ensures bytes[i] == 0
      {
        assert Coil(bytes, 8 * j + 7) == Bit(bytes[j], 7);
        forall k | 8 * i <= k < 8 * i + 8
          ensures Coil(bytes, k) == 0
        {
          if k < |values| {
            assert values[8 * j + 7] == 0;
          }
        }
        ByteIsZeroIff(bytes, i);
      }
    }
  }

  /** Nine coils of which only the ninth is on are read with the first on. */
  lemma NinthCoilReadAsFirst()
    ensures ZeroPadded([0, 1], 9) && Coil([0, 1], 8) == 1 && Coil([0, 1], 0) == 0
    ensures Fit(Emitted([0, 1]), 9)[0] == 1
  {
    var b: seq<bv8> := [0, 1];
    assert Digits(1) == [1] + Digits(0);
    assert Emitted(b[1..]) == Digits(1) + Emitted(b[1..][1..]);
  }
}
