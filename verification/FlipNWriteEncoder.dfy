/**
 The encoder object: inverts data blocks in place and keeps the set of inverted partitions.
 */
module FlipNWriteEncoder {
  import opened Arithmetic
  import opened FlipNWriteData

  /** One byte of `InvertData`: the inner loop over its bits. `first` is the number of its bit 0. */
  method InvertByte(original: bv8, first: nat, startBit: nat, endBit: nat) returns (newByte: bv8)
    ensures newByte == FlipByte(original, startBit - first, endBit - first)
  {
    var shiftByte := original;
    newByte := 0;
    var j := 0;
    BuiltNone(original, startBit - first, endBit - first);
    while j < 8
      invariant j <= 8 && Shifted(shiftByte, original, j)
      invariant Built(newByte, original, startBit - first, endBit - first, j)
    {
      BuildStep(shiftByte, newByte, original, startBit - first, endBit - first, j);
      if startBit <= first + j < endBit && shiftByte & 1 == 0 {
        newByte := newByte | Mask(7 - j);
      }
      shiftByte := shiftByte >> 1;
      j := j + 1;
    }
    SameAsSpec(newByte, original, startBit - first, endBit - first);
  }

  /** `b` is `original` shifted right by `j`. */
  ghost predicate Shifted(b: bv8, original: bv8, j: nat) {
    forall m | 0 <= m < 8 - j :: Bit(b, m) == Bit(original, m + j)
  }

  /** `b` holds the inverted bits below `j`. */
  ghost predicate Built(b: bv8, original: bv8, lo: int, hi: int, j: nat) {
    forall q | 0 <= q < 8 :: Bit(b, q) <==> 7 - q < j && Inverts(original, 7 - q, lo, hi)
  }

  lemma BuiltNone(original: bv8, lo: int, hi: int)
    ensures Built(0, original, lo, hi, 0)
  {
    forall q | 0 <= q < 8 ensures !Bit(0, q) { ZeroBit(q); }
  }

  lemma BuildStep(shiftByte: bv8, b: bv8, original: bv8, lo: int, hi: int, j: nat)
    requires j < 8 && Shifted(shiftByte, original, j) && Built(b, original, lo, hi, j)
    ensures Shifted(shiftByte >> 1, original, j + 1)
    ensures Built(if lo <= j < hi && shiftByte & 1 == 0 then b | Mask(7 - j) else b, original, lo, hi, j + 1)
  {
    ShiftStep(shiftByte, original, j);
    BitStep(b, original, lo, hi, j);
  }

  lemma ShiftStep(shiftByte: bv8, original: bv8, j: nat)
    requires j < 8 && Shifted(shiftByte, original, j)
    ensures Shifted(shiftByte >> 1, original, j + 1)
    ensures shiftByte & 1 == 0 <==> !Bit(original, j)
  {
    assert Bit(shiftByte, 0) == Bit(original, 0 + j);
    var next := shiftByte >> 1;
    forall m | 0 <= m < 8 - (j + 1) ensures Bit(next, m) == Bit(original, m + (j + 1)) {
      ShiftBit(shiftByte, m);
      assert Bit(shiftByte, m + 1) == Bit(original, m + 1 + j);
    }
  }

  lemma BitStep(b: bv8, original: bv8, lo: int, hi: int, j: nat)
    requires j < 8 && Built(b, original, lo, hi, j)
    ensures Built(if Inverts(original, j, lo, hi) then b | Mask(7 - j) else b, original, lo, hi, j + 1)
  {
    var b' := if Inverts(original, j, lo, hi) then b | Mask(7 - j) else b;
    forall q | 0 <= q < 8 ensures Bit(b', q) <==> 7 - q < j + 1 && Inverts(original, 7 - q, lo, hi) {
      SetBit(b, 7 - j, q);
    }
  }

  /** Bit `m` of a byte becomes a 1 when the bits from `lo` to `hi` are inverted. */
  ghost predicate Inverts(b: bv8, m: nat, lo: int, hi: int)
    requires m < 8
  {
    lo <= m < hi && !Bit(b, m)
  }

  lemma SameAsSpec(b: bv8, original: bv8, lo: int, hi: int)
    requires Built(b, original, lo, hi, 8)
    ensures b == FlipByte(original, lo, hi)
  {
    forall q | 0 <= q < 8 ensures Bit(b, q) == Bit(FlipByte(original, lo, hi), q) {
      FlipFromBit(original, lo, hi, 0, 7 - q);
    }
    SameBits(b, FlipByte(original, lo, hi));
  }

  /** `InvertData`. */
  method InvertData(data: array<bv8>, startBit: nat, endBit: nat)
    requires startBit < endBit <= 8 * data.Length
    modifies data
    ensures data[..] == Inverted(old(data[..]), startBit, endBit)
  {
    var startByte, endByte := startBit / 8, (endBit - 1) / 8;
    var i := startByte;
    while i <= endByte
      invariant startByte <= i <= endByte + 1
      invariant forall k | startByte <= k < i :: data[k] == FlipByte(old(data[k]), startBit - 8 * k, endBit - 8 * k)
      invariant forall k | 0 <= k < data.Length && !(startByte <= k < i) :: data[k] == old(data[k])
    {
      var newByte := InvertByte(data[i], 8 * i, startBit, endBit);
      data[i] := newByte;
      i := i + 1;
    }
    assert data[..] == Inverted(old(data[..]), startBit, endBit);
  }

  class FlipNWrite {
    var flippedAddresses: set<nat>
    var bitsFlipped: nat
    var bitCompareSwapWrites: nat
    const wordSize: nat    // bytes of a word
    const cols: nat        // words of a row
    const fpSize: nat      // bits of a partition

    constructor (wordSize: nat, cols: nat, fpSize: nat)
      ensures flippedAddresses == {} && bitsFlipped == bitCompareSwapWrites == 0
      ensures this.wordSize == wordSize && this.cols == cols && this.fpSize == fpSize
    {
      flippedAddresses, bitsFlipped, bitCompareSwapWrites := {}, 0, 0;
      this.wordSize, this.cols, this.fpSize := wordSize, cols, fpSize;
    }

    /** A partition is `g` bytes, and `n` of them fill the word. */
    ghost predicate Proper(g: nat, n: nat) {
      0 < g && fpSize == 8 * g && Times(n, g) == wordSize
    }

    /** The number of partitions of a word and of a row. */
    method Partitions(ghost g: nat, ghost n: nat) returns (flipPartitions: nat, rowPartitions: nat)
      requires Proper(g, n)
      ensures flipPartitions == n && rowPartitions == cols * n
    {
      WordParts(n, g);
      flipPartitions := (wordSize * 8) / fpSize;
      rowPartitions := RowPartitions(cols, wordSize, fpSize, n);
    }

    static method RowPartitions(cols: nat, wordSize: nat, fpSize: nat, ghost n: nat) returns (rowPartitions: nat)
      requires 0 < fpSize && wordSize * 8 == n * fpSize
      ensures rowPartitions == cols * n
    {
      var rowSize := cols * wordSize;
      assert rowSize * 8 == cols * (n * fpSize) == (cols * n) * fpSize;
      rowPartitions := (rowSize * 8) / fpSize;
      DigitsUnique((rowSize * 8) / fpSize, (rowSize * 8) % fpSize, cols * n, 0, fpSize);
    }

    /** `Write`: the new data are stored with the partitions inverted of which more than half of the
        bits would change; the old data become what the memory holds. */
    method Write(newData: array<bv8>, oldData: array<bv8>, row: nat, col: nat, ghost geo: Geometry)
      requires Proper(geo.g, geo.parts) && geo.cols == cols && newData.Length == oldData.Length == wordSize
      requires newData != oldData
      modifies this, newData, oldData
      ensures var base := geo.Base(Cell(row, col));
        && Coded(flippedAddresses, bitsFlipped, bitCompareSwapWrites, newData[..])
          == WriteWord(old(Coded(flippedAddresses, bitsFlipped, bitCompareSwapWrites, newData[..])), old(oldData[..]),
                       base, geo.g, geo.parts)
        && oldData[..] == Toggled(old(oldData[..]), old(flippedAddresses), base, geo.g, geo.parts)
    {
      var flipPartitions, rowPartitions := Partitions(geo.g, geo.parts);
      var base := row * rowPartitions + col * flipPartitions;
      WriteAt(newData, oldData, base, flipPartitions, geo.g);
    }

    method WriteAt(newData: array<bv8>, oldData: array<bv8>, base: nat, n: nat, ghost g: nat)
      requires Proper(g, n) && newData.Length == oldData.Length == wordSize && newData != oldData
      modifies this, newData, oldData
      ensures Coded(flippedAddresses, bitsFlipped, bitCompareSwapWrites, newData[..])
        == WriteWord(old(Coded(flippedAddresses, bitsFlipped, bitCompareSwapWrites, newData[..])), old(oldData[..]),
                     base, g, n)
      ensures oldData[..] == Toggled(old(oldData[..]), old(flippedAddresses), base, g, n)
    {
      ghost var e := Coded(flippedAddresses, bitsFlipped, bitCompareSwapWrites, newData[..]);
      FetchStored(oldData, base, n, g);
      CountsBound(oldData[..], newData[..], g, n);
      var modifyCount := CountModified(oldData, newData, n, g);
      StoreParts(newData, base, modifyCount[..], g, e);
    }

    /** Inverts the partitions that are marked, which gives what the memory holds. */
    method FetchStored(oldData: array<bv8>, base: nat, flipPartitions: nat, ghost g: nat)
      requires 0 < g && fpSize == 8 * g && Times(flipPartitions, g) == oldData.Length
      modifies oldData
      ensures oldData[..] == Toggled(old(oldData[..]), flippedAddresses, base, g, flipPartitions)
    {
      var i := 0;
      while i < flipPartitions
        invariant i <= flipPartitions && Times(i, g) <= oldData.Length
        invariant oldData[..] == Toggled(old(oldData[..]), flippedAddresses, base, g, i)
      {
        TimesMonotone(i + 1, flipPartitions, g);
        if base + i in flippedAddresses { InvertPartition(oldData, i, g); }
        i := i + 1;
      }
    }

    method InvertPartition(data: array<bv8>, i: nat, ghost g: nat)
      requires 0 < g && fpSize == 8 * g && Times(i + 1, g) <= data.Length
      modifies data
      ensures data[..] == InvertPart(old(data[..]), i, g)
    {
      InvertedPartBounds(i, g, data.Length);
      TimesIs(i, fpSize);
      TimesIs(i + 1, fpSize);
      InvertData(data, i * fpSize, (i + 1) * fpSize);
    }

    /** Counts the changed bits of each partition. */
    method CountModified(oldData: array<bv8>, newData: array<bv8>, flipPartitions: nat, ghost g: nat)
        returns (modifyCount: array<nat>)
      requires 0 < g && fpSize == 8 * g && newData.Length == oldData.Length
      requires Times(flipPartitions, g) == newData.Length
      ensures fresh(modifyCount) && modifyCount[..] == Counts(oldData[..], newData[..], g, flipPartitions)
    {
      modifyCount := new nat[flipPartitions](_ => 0);
      var i := 0;
      while i < newData.Length
        invariant i <= newData.Length
        invariant forall p | 0 <= p < flipPartitions :: modifyCount[p] == PartChanged(oldData[..], newData[..], p, g, i)
      {
        ghost var p := PartExists(i, g, flipPartitions);
        ghost var before := modifyCount[..];
        CountByte(oldData[i], newData[i], i, modifyCount, p, g);
        CountStep(oldData[..], newData[..], i, p, g, flipPartitions, before, modifyCount[..]);
        i := i + 1;
      }
      forall p | 0 <= p < flipPartitions
        ensures modifyCount[p] == Counts(oldData[..], newData[..], g, flipPartitions)[p]
      {
        CountsAt(oldData[..], newData[..], g, flipPartitions, p);
      }
    }

    /** The changed bits of one byte. */
    method CountByte(oldByte: bv8, newByte: bv8, i: nat, modifyCount: array<nat>, ghost p: nat, ghost g: nat)
      requires 0 < g && fpSize == 8 * g && p < modifyCount.Length && InPart(i, p, g)
      modifies modifyCount
      ensures modifyCount[..] == old(modifyCount[..])[p := old(modifyCount[p]) + DiffUpTo(oldByte, newByte, 8)]
    {
      if oldByte == newByte {
        DiffBounds(oldByte, newByte, 8);
        return;
      }
      var j := 0;
      while j < 8
        invariant j <= 8
        invariant modifyCount[..] == old(modifyCount[..])[p := old(modifyCount[p]) + DiffUpTo(oldByte, newByte, j)]
      {
        if Bit(oldByte, j) != Bit(newByte, j) {
          BitPartition(i, j, p, g);
          var q := (8 * i + j) / fpSize;
          modifyCount[q] := modifyCount[q] + 1;
        }
        j := j + 1;
      }
    }

    /** Stores each partition, inverted or not, and marks it accordingly. */
    method StoreParts(newData: array<bv8>, base: nat, modifyCount: seq<nat>, ghost g: nat, ghost e: Coded)
      requires 0 < g && fpSize == 8 * g && Times(|modifyCount|, g) == newData.Length && AtMost(modifyCount, 8 * g)
      requires e == Coded(flippedAddresses, bitsFlipped, bitCompareSwapWrites, newData[..])
      modifies this, newData
      ensures Coded(flippedAddresses, bitsFlipped, bitCompareSwapWrites, newData[..])
        == Store(e, base, modifyCount, g, |modifyCount|)
    {
      var i := 0;
      while i < |modifyCount|
        invariant i <= |modifyCount|
        invariant StoredUpTo(e, Coded(flippedAddresses, bitsFlipped, bitCompareSwapWrites, newData[..]),
                             base, modifyCount, g, i)
      {
        StoredStep(e, Coded(flippedAddresses, bitsFlipped, bitCompareSwapWrites, newData[..]), base, modifyCount, g, i);
        StoreOne(newData, base + i, modifyCount[i], i, g);
        i := i + 1;
      }
    }

    method StoreOne(newData: array<bv8>, key: nat, count: nat, i: nat, ghost g: nat)
      requires 0 < g && fpSize == 8 * g && Times(i + 1, g) <= newData.Length && count <= fpSize
      modifies this, newData
      ensures Coded(flippedAddresses, bitsFlipped, bitCompareSwapWrites, newData[..])
        == StorePart(old(Coded(flippedAddresses, bitsFlipped, bitCompareSwapWrites, newData[..])), key, count, i, g)
    {
      bitCompareSwapWrites := bitCompareSwapWrites + count;
      if count > fpSize / 2 {
        InvertPartition(newData, i, g);
        bitsFlipped := bitsFlipped + (fpSize - count);
        flippedAddresses := flippedAddresses + {key};
      } else {
        flippedAddresses := flippedAddresses - {key};
        bitsFlipped := bitsFlipped + count;
      }
    }
  }

  ghost predicate AtMost(counts: seq<nat>, most: nat) {
    forall i | 0 <= i < |counts| :: counts[i] <= most
  }

  /** The first `i` partitions are stored. */
  ghost predicate StoredUpTo(e: Coded, now: Coded, base: nat, counts: seq<nat>, g: nat, i: nat) {
    && 0 < g && Times(|counts|, g) == |e.data| && i <= |counts| && AtMost(counts, 8 * g) && Times(i, g) <= |e.data|
    && now == Store(e, base, counts, g, i)
  }

  lemma StoredStep(e: Coded, now: Coded, base: nat, counts: seq<nat>, g: nat, i: nat)
    requires StoredUpTo(e, now, base, counts, g, i) && i < |counts|
    ensures Times(i + 1, g) <= |now.data| == |e.data| && counts[i] <= 8 * g
    ensures StoredUpTo(e, StorePart(now, base + i, counts[i], i, g), base, counts, g, i + 1)
  {
    TimesMonotone(i + 1, |counts|, g);
  }

  lemma WordParts(n: nat, g: nat)
    requires 0 < g
    ensures (Times(n, g) * 8) / (8 * g) == n && Times(n, g) * 8 == n * (8 * g)
  {
    EightTimes(n, g);
    TimesIs(n, 8 * g);
    QuotientIs(Times(n, g) * 8, n, 8 * g);
  }

  /** All the bits of a byte belong to the byte's partition. */
  lemma BitPartition(i: nat, j: nat, p: nat, g: nat)
    requires 0 < g && j < 8 && InPart(i, p, g)
    ensures (8 * i + j) / (8 * g) == p
  {
    EightTimes(p, g);
    EightTimes(p + 1, g);
    QuotientIs(8 * i + j, p, 8 * g);
  }

  lemma CountStep(a: Word, b: Word, i: nat, p: nat, g: nat, n: nat, before: seq<nat>, after: seq<nat>)
    requires |a| == |b| == Times(n, g) && i < |a| && p < n && InPart(i, p, g) && |before| == n
    requires forall q | 0 <= q < n :: before[q] == PartChanged(a, b, q, g, i)
    requires after == before[p := before[p] + DiffUpTo(a[i], b[i], 8)]
    ensures forall q | 0 <= q < n :: after[q] == PartChanged(a, b, q, g, i + 1)
  {
    forall q | 0 <= q < n ensures after[q] == PartChanged(a, b, q, g, i + 1) {
      if q < p { TimesMonotone(q + 1, p, g); } else if p < q { TimesMonotone(p + 1, q, g); }
    }
  }
}
