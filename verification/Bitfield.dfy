/** Fixed-size sets of piece indices in wire order: the most significant bit of
    the first byte is piece 0 (src/core/bitfield.rs). */
module Bitfields {
  import opened Common

  datatype Bits = Bits(len: nat, bytes: seq<bv8>)

  function ByteCount(len: nat): nat { (len + 7) / 8 }

  predicate WellSized(b: Bits) { |b.bytes| == ByteCount(b.len) }

  function Mask(k: nat): bv8
    requires k < 8
  {
    (0x80 as bv8) >> k
  }

  predicate Bit(x: bv8, k: nat)
    requires k < 8
  {
    x & Mask(k) != 0
  }

  /** Byte-level membership, also for the spare bits past `len`. */
  predicate Raw(b: Bits, i: nat)
    requires WellSized(b) && i < 8 * |b.bytes|
  {
    Bit(b.bytes[i / 8], i % 8)
  }

  predicate Has(b: Bits, i: nat)
    requires WellSized(b)
  {
    i < b.len && Raw(b, i)
  }

  /** The invariant of every bitfield the program builds: no spare bit is set. */
  ghost predicate Clean(b: Bits) {
    && WellSized(b)
    && forall i :: b.len <= i < 8 * |b.bytes| ==> !Raw(b, i)
  }

  function Ones(b: Bits): (s: set<nat>)
    requires WellSized(b)
    ensures forall i: nat :: i in s <==> Has(b, i)
  {
    set i | 0 <= i < b.len && Has(b, i)
  }

  function Empty(len: nat): (b: Bits)
    ensures Clean(b) && b.len == len && Ones(b) == {}
  {
    var b := Bits(len, seq(ByteCount(len), i => 0 as bv8));
    assert forall i :: 0 <= i < 8 * |b.bytes| ==> !Raw(b, i);
    b
  }

  function SetBit(b: Bits, i: nat): Bits
    requires WellSized(b)
  {
    if i < b.len then b.(bytes := b.bytes[i / 8 := b.bytes[i / 8] | Mask(i % 8)]) else b
  }

  lemma MaskTable()
    ensures Mask(0) == 0x80 && Mask(1) == 0x40 && Mask(2) == 0x20 && Mask(3) == 0x10
    ensures Mask(4) == 0x08 && Mask(5) == 0x04 && Mask(6) == 0x02 && Mask(7) == 0x01
  {
  }

  lemma OrMask(x: bv8, k: nat, j: nat)
    requires k < 8 && j < 8
    ensures Bit(x | Mask(k), j) <==> Bit(x, j) || j == k
  {
    MaskTable();
  }

  lemma ByteExtensional(x: bv8, y: bv8)
    requires forall k :: 0 <= k < 8 ==> Bit(x, k) == Bit(y, k)
    ensures x == y
  {
    MaskTable();
    assert Bit(x, 0) == Bit(y, 0) && Bit(x, 1) == Bit(y, 1) && Bit(x, 2) == Bit(y, 2) && Bit(x, 3) == Bit(y, 3);
    assert Bit(x, 4) == Bit(y, 4) && Bit(x, 5) == Bit(y, 5) && Bit(x, 6) == Bit(y, 6) && Bit(x, 7) == Bit(y, 7);
  }

  /** Setting bit `i` adds exactly `i`, and nothing when it is out of range. */
  lemma SetBitAdds(b: Bits, i: nat)
    requires Clean(b)
    ensures Clean(SetBit(b, i)) && SetBit(b, i).len == b.len
    ensures Ones(SetBit(b, i)) == if i < b.len then Ones(b) + {i} else Ones(b)
  {
    if i < b.len {
      var c := SetBit(b, i);
      forall j | 0 <= j < 8 * |b.bytes|
        ensures Raw(c, j) <==> Raw(b, j) || j == i
      {
        if j / 8 == i / 8 {
          OrMask(b.bytes[i / 8], i % 8, j % 8);
        }
      }
    }
  }

  /** Two clean bitfields of one length with the same members are the same bytes. */
  lemma Canonical(a: Bits, b: Bits)
    requires Clean(a) && Clean(b) && a.len == b.len
    requires Ones(a) == Ones(b)
    ensures a == b
  {
    forall n | 0 <= n < |a.bytes| ensures a.bytes[n] == b.bytes[n] {
      forall k | 0 <= k < 8 ensures Bit(a.bytes[n], k) == Bit(b.bytes[n], k) {
        var i := 8 * n + k;
        assert i / 8 == n && i % 8 == k;
        assert Raw(a, i) == Bit(a.bytes[n], k) && Raw(b, i) == Bit(b.bytes[n], k);
        assert Has(a, i) == (i in Ones(a)) && Has(b, i) == (i in Ones(b));
      }
      ByteExtensional(a.bytes[n], b.bytes[n]);
    }
  }

  /** `from_wire`: rejects a wrong size or a set spare bit. */
  function FromWire(len: nat, payload: seq<bv8>): (r: Option<Bits>)
  {
    if |payload| != ByteCount(len) then None
    else
      var spare := |payload| * 8 - len;
      if spare > 0 && payload[|payload| - 1] & (((1 as bv8) << spare) - 1) != 0 then None
      else Some(Bits(len, payload))
  }

  lemma SpareMask(x: bv8, spare: nat)
    requires 0 < spare < 8
    ensures x & (((1 as bv8) << spare) - 1) == 0 <==> forall k :: 8 - spare <= k < 8 ==> !Bit(x, k)
  {
    MaskTable();
    var low := x & (((1 as bv8) << spare) - 1) == 0;
    assert low <==> (spare >= 1 ==> !Bit(x, 7)) && (spare >= 2 ==> !Bit(x, 6)) && (spare >= 3 ==> !Bit(x, 5))
                    && (spare >= 4 ==> !Bit(x, 4)) && (spare >= 5 ==> !Bit(x, 3)) && (spare >= 6 ==> !Bit(x, 2))
                    && (spare >= 7 ==> !Bit(x, 1));
  }

  /** A payload is accepted exactly when it is the byte image of a clean bitfield. */
  lemma FromWireAcceptsClean(len: nat, payload: seq<bv8>)
    ensures FromWire(len, payload).Some? <==> Clean(Bits(len, payload))
    ensures FromWire(len, payload).Some? ==> FromWire(len, payload).value == Bits(len, payload)
  {
    var b := Bits(len, payload);
    if |payload| == ByteCount(len) {
      var spare := |payload| * 8 - len;
      var last := |payload| - 1;
      if spare > 0 {
        SpareMask(payload[last], spare);
        forall i | len <= i < 8 * |payload|
          ensures Raw(b, i) == Bit(payload[last], 8 + i - 8 * |payload|)
        {
          assert i / 8 == last && i % 8 == 8 + i - 8 * |payload|;
        }
        if Clean(b) {
          forall k | 8 - spare <= k < 8 ensures !Bit(payload[last], k) {
            assert !Raw(b, 8 * last + k);
          }
        }
      }
    }
  }

  /** Set bits in index order, as `iter_ones` yields them. */
  function OnesBelow(b: Bits, n: nat): (s: seq<nat>)
    requires WellSized(b) && n <= b.len
    ensures forall i: nat :: i in s <==> i < n && Has(b, i)
    ensures forall j, k :: 0 <= j < k < |s| ==> s[j] < s[k]
  {
    if n == 0 then []
    else
      var front := OnesBelow(b, n - 1);
      assert forall j :: 0 <= j < |front| ==> front[j] in front;
      if Has(b, n - 1) then front + [n - 1] else front
  }

  function IterOnes(b: Bits): (s: seq<nat>)
    requires WellSized(b)
    ensures forall i :: i in s <==> i in Ones(b)
    ensures forall j, k :: 0 <= j < k < |s| ==> s[j] < s[k]
  {
    OnesBelow(b, b.len)
  }

  /** The byte vector of `Bitfield`, changed in place by `set` and `from_indices`. */
  class Bitfield {
    const len: nat
    var bytes: seq<bv8>

    function View(): Bits
      reads this
    {
      Bits(len, bytes)
    }

    constructor (len: nat)
      ensures this.len == len && View() == Empty(len)
    {
      this.len := len;
      bytes := seq(ByteCount(len), i => 0 as bv8);
    }

    /** True for every in-range index, including one that was already set. */
    method Set(index: nat) returns (inRange: bool)
      requires Clean(View())
      modifies this
      ensures inRange == (index < len)
      ensures View() == SetBit(old(View()), index) && Clean(View())
      ensures Ones(View()) == old(Ones(View())) + if inRange then {index} else {}
    {
      SetBitAdds(View(), index);
      inRange := index < len;
      if inRange {
        bytes := bytes[index / 8 := bytes[index / 8] | Mask(index % 8)];
      }
    }
  }

  /** `from_indices`: out-of-range indices are ignored. */
  method FromIndices(len: nat, indices: seq<nat>) returns (b: Bits)
    ensures Clean(b) && b.len == len
    ensures Ones(b) == set i | i in indices && i < len
  {
    var field := new Bitfield(len);
    for k := 0 to |indices|
      invariant Clean(field.View()) && field.len == len
      invariant Ones(field.View()) == set i | i in indices[..k] && i < len
    {
      var _ := field.Set(indices[k]);
      assert indices[..k + 1] == indices[..k] + [indices[k]];
    }
    assert indices[..|indices|] == indices;
    b := field.View();
  }
}
