/**
 What a write is charged and what it does to the cells: the flipped bits that the encoder counts are
 the cells that change exactly when every byte of the new word reads the same from both ends.
 */
module FlipNWriteCharge {
  import opened Arithmetic
  import opened FlipNWriteData

  /** The bits of a byte read the same from both ends. */
  predicate Mirrored(b: bv8) {
    forall j | 0 <= j < 8 :: Bit(b, j) == Bit(b, 7 - j)
  }

  /** Whatever was stored and marked before, writing `b` is charged the number of cells that change. */
  ghost predicate ChargedExactly(b: Word, g: nat, n: nat)
    requires 0 < g && |b| == Times(n, g)
  {
    forall flags: set<nat>, previous: Word, base: nat {:trigger WriteWord(Coded(flags, 0, 0, b), previous, base, g, n)}
      | |previous| == |b| ::
      var r := WriteWord(Coded(flags, 0, 0, b), previous, base, g, n);
      r.bits == Changed(Toggled(previous, flags, base, g, n), r.data, 0, |b|)
  }

  // ------------------------------------------------------------------ bytes

  lemma NotBit(b: bv8, j: nat)
    requires j < 8
    ensures Bit(!b, j) == !Bit(b, j)
  {
  }

  /** Inverting a byte complements it exactly when it is mirrored. */
  lemma FlipComplementsIff(b: bv8)
    ensures FlipByte(b, 0, 8) == !b <==> Mirrored(b)
  {
    forall j | 0 <= j < 8 ensures Bit(FlipByte(b, 0, 8), j) == !Bit(b, 7 - j) && Bit(!b, j) == !Bit(b, j) {
      FlipFromBit(b, 0, 8, 0, 7 - j);
      NotBit(b, j);
    }
    if Mirrored(b) { SameBits(FlipByte(b, 0, 8), !b); }
  }

  lemma {:induction false} DiffComplement(a: bv8, b: bv8, j: nat)
    requires j <= 8
    ensures DiffUpTo(a, !b, j) == j - DiffUpTo(a, b, j)
  {
    if j > 0 {
      DiffComplement(a, b, j - 1);
      NotBit(b, j - 1);
    }
  }

  lemma {:induction false} NoDiff(a: bv8, b: bv8, j: nat)
    requires j <= 8 && DiffUpTo(a, b, j) == 0
    ensures forall i | 0 <= i < j :: Bit(a, i) == Bit(b, i)
  {
    if j > 0 { NoDiff(a, b, j - 1); }
  }

  // ------------------------------------------------------------------ words

  /** Partition `i` of `b` written over `a` is stored inverted. */
  ghost predicate Inverts(a: Word, b: Word, g: nat, i: nat)
    requires |a| == |b|
  {
    Times(i + 1, g) <= |a| && Changed(a, b, Times(i, g), Times(i + 1, g)) > 8 * g / 2
  }

  lemma StoredAt(b: Word, flags: set<nat>, previous: Word, base: nat, g: nat, n: nat, i: nat, k: nat)
    requires 0 < g && |b| == |previous| == Times(n, g) && i < n && k < |b| && InPart(k, i, g)
    ensures WriteWord(Coded(flags, 0, 0, b), previous, base, g, n).data[k] ==
      if Inverts(Toggled(previous, flags, base, g, n), b, g, i) then FlipByte(b[k], 0, 8) else b[k]
  {
    var was := Toggled(previous, flags, base, g, n);
    CountsBound(was, b, g, n);
    CountsAt(was, b, g, n, i);
    StoreFacts(Coded(flags, 0, 0, b), base, Counts(was, b, g, n), g, n);
    var r := WriteWord(Coded(flags, 0, 0, b), previous, base, g, n);
    assert base + i in r.flags <==> Counts(was, b, g, n)[base + i - base] > 8 * g / 2;
    ToggledAt(b, r.flags, base, g, n, k, i);
  }

  lemma WriteCharge(b: Word, flags: set<nat>, previous: Word, base: nat, g: nat, n: nat)
    requires 0 < g && |b| == |previous| == Times(n, g)
    ensures WriteWord(Coded(flags, 0, 0, b), previous, base, g, n).bits ==
      Charge(Toggled(previous, flags, base, g, n), b, g, n)
  {
    var was := Toggled(previous, flags, base, g, n);
    CountsBound(was, b, g, n);
    StoreCharges(Coded(flags, 0, 0, b), base, was, g, n, n);
  }

  lemma {:induction false} ChangedSame(a: Word, b: Word, d: Word, lo: nat, hi: nat)
    requires |a| == |b| == |d| && lo <= hi <= |a| && (forall k | lo <= k < hi :: d[k] == b[k])
    ensures Changed(a, d, lo, hi) == Changed(a, b, lo, hi)
    decreases hi
  {
    if lo < hi { ChangedSame(a, b, d, lo, hi - 1); }
  }

  lemma {:induction false} ChangedComplement(a: Word, b: Word, d: Word, lo: nat, hi: nat)
    requires |a| == |b| == |d| && lo <= hi <= |a| && (forall k | lo <= k < hi :: d[k] == !b[k])
    ensures Changed(a, d, lo, hi) == 8 * (hi - lo) - Changed(a, b, lo, hi)
    decreases hi
  {
    if lo < hi {
      ChangedComplement(a, b, d, lo, hi - 1);
      DiffComplement(a[hi - 1], b[hi - 1], 8);
    }
  }

  lemma {:induction false} ChangedNone(a: Word, d: Word, lo: nat, hi: nat)
    requires |a| == |d| && lo <= hi <= |a| && Changed(a, d, lo, hi) == 0
    ensures forall k | lo <= k < hi :: a[k] == d[k]
    decreases hi
  {
    if lo < hi {
      ChangedNone(a, d, lo, hi - 1);
      NoDiff(a[hi - 1], d[hi - 1], 8);
      SameBits(a[hi - 1], d[hi - 1]);
    }
  }

  /** Partition by partition, the charge is the number of cells that change. */
  lemma {:induction false} ChargeIsChanged(a: Word, b: Word, d: Word, g: nat, n: nat)
    requires 0 < g && |a| == |b| == |d| && Times(n, g) <= |b|
    requires forall i, k {:trigger InPart(k, i, g)} | 0 <= i < n && 0 <= k < |b| && InPart(k, i, g) ::
      d[k] == if Inverts(a, b, g, i) then !b[k] else b[k]
    ensures Charge(a, b, g, n) == Changed(a, d, 0, Times(n, g))
  {
    if n > 0 {
      var lo, hi := Times(n - 1, g), Times(n, g);
      ChargeIsChanged(a, b, d, g, n - 1);
      ChangedSplit(a, d, 0, lo, hi);
      var inverts := Inverts(a, b, g, n - 1);
      forall k | lo <= k < hi ensures d[k] == if inverts then !b[k] else b[k] {
        assert InPart(k, n - 1, g);
      }
      if inverts { ChangedComplement(a, b, d, lo, hi); } else { ChangedSame(a, b, d, lo, hi); }
    }
  }

  lemma MirroredCharge(b: Word, flags: set<nat>, previous: Word, base: nat, g: nat, n: nat)
    requires 0 < g && |b| == |previous| == Times(n, g) && forall k | 0 <= k < |b| :: Mirrored(b[k])
    ensures
      var r := WriteWord(Coded(flags, 0, 0, b), previous, base, g, n);
      r.bits == Changed(Toggled(previous, flags, base, g, n), r.data, 0, |b|)
  {
    var was := Toggled(previous, flags, base, g, n);
    var d := WriteWord(Coded(flags, 0, 0, b), previous, base, g, n).data;
    forall i, k | 0 <= i < n && 0 <= k < |b| && InPart(k, i, g)
      ensures d[k] == if Inverts(was, b, g, i) then !b[k] else b[k]
    {
      StoredAt(b, flags, previous, base, g, n, i, k);
      FlipComplementsIff(b[k]);
    }
    WriteCharge(b, flags, previous, base, g, n);
    ChargeIsChanged(was, b, d, g, n);
  }

  // ------------------------------------------------------------------ the other direction

  function Complement(b: Word): (a: Word)
    ensures |a| == |b|
  {
    seq(|b|, k requires 0 <= k < |b| => !b[k])
  }

  lemma {:induction false} ComplementChanged(b: Word, lo: nat, hi: nat)
    requires lo <= hi <= |b|
    ensures Changed(Complement(b), b, lo, hi) == 8 * (hi - lo)
    decreases hi
  {
    if lo < hi {
      ComplementChanged(b, lo, hi - 1);
      var c := !b[hi - 1];
      DiffComplement(c, b[hi - 1], 8);
      DiffBounds(c, c, 8);
    }
  }

  /** Writing over the complement is free of charge, and inverts every partition. */
  lemma {:induction false} ComplementCharge(b: Word, g: nat, n: nat)
    requires 0 < g && Times(n, g) <= |b|
    ensures Charge(Complement(b), b, g, n) == 0
    ensures forall i | 0 <= i < n :: Inverts(Complement(b), b, g, i)
  {
    if n > 0 {
      ComplementCharge(b, g, n - 1);
      ComplementChanged(b, Times(n - 1, g), Times(n, g));
    }
  }

  lemma ExactIsMirrored(b: Word, g: nat, n: nat, k: nat)
    requires 0 < g && |b| == Times(n, g) && k < |b| && ChargedExactly(b, g, n)
    ensures Mirrored(b[k])
  {
    var a := Complement(b);
    var r := WriteWord(Coded({}, 0, 0, b), a, 0, g, n);
    NothingToggled(a, 0, g, n);
    WriteCharge(b, {}, a, 0, g, n);
    ComplementCharge(b, g, n);
    assert r.bits == Changed(Toggled(a, {}, 0, g, n), r.data, 0, |b|);
    ChangedNone(a, r.data, 0, |b|);
    var i := PartExists(k, g, n);
    StoredAt(b, {}, a, 0, g, n, i, k);
    FlipComplementsIff(b[k]);
  }

  /** The charge of writing a word is the number of cells that change, whatever was stored before,
      exactly when every byte of the word is mirrored: inverting a partition also reverses the bits of
      its bytes. */
  lemma ChargedExactlyIff(b: Word, g: nat, n: nat)
    requires 0 < g && |b| == Times(n, g)
    ensures ChargedExactly(b, g, n) <==> forall k | 0 <= k < |b| :: Mirrored(b[k])
  {
    if forall k | 0 <= k < |b| :: Mirrored(b[k]) {
      forall flags: set<nat>, previous: Word, base: nat | |previous| == |b|
        ensures
          var r := WriteWord(Coded(flags, 0, 0, b), previous, base, g, n);
          r.bits == Changed(Toggled(previous, flags, base, g, n), r.data, 0, |b|)
      {
        MirroredCharge(b, flags, previous, base, g, n);
      }
    }
    if ChargedExactly(b, g, n) {
      forall k | 0 <= k < |b| ensures Mirrored(b[k]) { ExactIsMirrored(b, g, n, k); }
    }
  }

  /** A word that is charged wrongly: 0xF8 over 0x07 is free of charge, and changes six cells. */
  lemma ChargeMissesCells(a: Word, b: Word)
    requires a == [7] && b == [248] && Times(1, 1) == 1
    ensures
      var r := WriteWord(Coded({}, 0, 0, b), a, 0, 1, 1);
      r.bits == 0 && Changed(a, r.data, 0, 1) == 6
  {
    var r := WriteWord(Coded({}, 0, 0, b), a, 0, 1, 1);
    assert Complement(b) == a;
    NothingToggled(a, 0, 1, 1);
    WriteCharge(b, {}, a, 0, 1, 1);
    ComplementCharge(b, 1, 1);
    StoredAt(b, {}, a, 0, 1, 1, 0, 0);
    assert r.data[0] == FlipByte(248, 0, 8) == 224;
    assert Changed(a, r.data, 0, 0) == 0 && DiffUpTo(7, 224, 8) == 6;
  }
}
