/**
 The Flip-N-Write encoder: a word is stored in partitions, and a partition of which more than half
 of the bits would change is stored inverted and its key is kept in a set.
 */
module FlipNWriteData {
  import opened Arithmetic

  type Word = seq<bv8>

  // ------------------------------------------------------------------ bits of a byte

  function Mask(j: nat): bv8
    requires j < 8
  {
    if j == 0 then 1 else if j == 1 then 2 else if j == 2 then 4 else if j == 3 then 8
    else if j == 4 then 16 else if j == 5 then 32 else if j == 6 then 64 else 128
  }

  function Bit(b: bv8, j: nat): bool
    requires j < 8
  {
    b & Mask(j) != 0
  }

  lemma SetBit(b: bv8, k: nat, m: nat)
    requires k < 8 && m < 8
    ensures Bit(b | Mask(k), m) <==> m == k || Bit(b, m)
  {
  }

  lemma ShiftBit(b: bv8, m: nat)
    requires m < 7
    ensures Bit(b >> 1, m) == Bit(b, m + 1)
  {
  }

  lemma SameBits(a: bv8, b: bv8)
    requires forall j | 0 <= j < 8 :: Bit(a, j) == Bit(b, j)
    ensures a == b
  {
    assert Bit(a, 0) == Bit(b, 0) && Bit(a, 1) == Bit(b, 1) && Bit(a, 2) == Bit(b, 2) && Bit(a, 3) == Bit(b, 3);
    assert Bit(a, 4) == Bit(b, 4) && Bit(a, 5) == Bit(b, 5) && Bit(a, 6) == Bit(b, 6) && Bit(a, 7) == Bit(b, 7);
  }

  /** The bits from `lo` to `hi` of a byte that are 0, each moved from position j to 7 - j; the bits
      outside the range are lost. `j` is the first position still to do. */
  function FlipFrom(b: bv8, lo: int, hi: int, j: nat): bv8
    requires j <= 8
    decreases 8 - j
  {
    if j == 8 then 0
    else if lo <= j < hi && !Bit(b, j) then FlipFrom(b, lo, hi, j + 1) | Mask(7 - j)
    else FlipFrom(b, lo, hi, j + 1)
  }

  function FlipByte(b: bv8, lo: int, hi: int): bv8 { FlipFrom(b, lo, hi, 0) }

  lemma {:induction false} FlipFromBit(b: bv8, lo: int, hi: int, j: nat, m: nat)
    requires j <= 8 && m < 8
    ensures Bit(FlipFrom(b, lo, hi, j), 7 - m) <==> j <= m && lo <= m < hi && !Bit(b, m)
    decreases 8 - j
  {
    if j < 8 {
      FlipFromBit(b, lo, hi, j + 1, m);
      SetBit(FlipFrom(b, lo, hi, j + 1), 7 - j, 7 - m);
    } else {
      ZeroBit(7 - m);
    }
  }

  lemma ZeroBit(m: nat)
    requires m < 8
    ensures !Bit(0, m) && Bit(255, m)
  {
  }

  /** Inverting all the bits of a byte is an involution, although it also reverses their order. */
  lemma FlipTwice(b: bv8, lo: int, hi: int, lo': int, hi': int)
    requires lo <= 0 && 8 <= hi && lo' <= 0 && 8 <= hi'
    ensures FlipByte(FlipByte(b, lo, hi), lo', hi') == b
  {
    var c := FlipByte(b, lo, hi);
    forall j | 0 <= j < 8 ensures Bit(FlipByte(c, lo', hi'), j) == Bit(b, j) {
      FlipFromBit(c, lo', hi', 0, 7 - j);
      FlipFromBit(b, lo, hi, 0, j);
    }
    SameBits(FlipByte(c, lo', hi'), b);
  }

  /** A whole byte inverts the same way wherever the range starts and ends. */
  lemma FlipWhole(b: bv8, lo: int, hi: int)
    requires lo <= 0 && 8 <= hi
    ensures FlipByte(b, lo, hi) == FlipByte(b, 0, 8)
  {
    forall j | 0 <= j < 8 ensures Bit(FlipByte(b, lo, hi), j) == Bit(FlipByte(b, 0, 8), j) {
      FlipFromBit(b, lo, hi, 0, 7 - j);
      FlipFromBit(b, 0, 8, 0, 7 - j);
    }
    SameBits(FlipByte(b, lo, hi), FlipByte(b, 0, 8));
  }

  // ------------------------------------------------------------------ inverting a range of bits

  /** `InvertData`, as a function: the bytes that the range of bits touches are rewritten. */
  function Inverted(d: Word, start: nat, end: nat): (r: Word)
    requires start < end <= 8 * |d|
    ensures |r| == |d|
  {
    seq(|d|, k requires 0 <= k < |d| =>
      if start / 8 <= k <= (end - 1) / 8 then FlipByte(d[k], start - 8 * k, end - 8 * k) else d[k])
  }

  /** Inverting a range of bits twice restores every word exactly when the range starts and ends at
      byte boundaries. */
  lemma InvertInvolutiveIff(n: nat, start: nat, end: nat)
    requires start < end <= 8 * n
    ensures (forall d: Word | |d| == n :: Inverted(Inverted(d, start, end), start, end) == d)
      <==> start % 8 == 0 && end % 8 == 0
  {
    if start % 8 == 0 && end % 8 == 0 {
      forall d: Word | |d| == n ensures Inverted(Inverted(d, start, end), start, end) == d {
        InvertTwice(d, start, end);
      }
    } else {
      var d: Word := seq(n, _ => 255);
      InvertLoses(d, start, end);
    }
  }

  lemma InvertTwice(d: Word, start: nat, end: nat)
    requires start < end <= 8 * |d| && start % 8 == 0 && end % 8 == 0
    ensures Inverted(Inverted(d, start, end), start, end) == d
  {
    var c := Inverted(d, start, end);
    forall k | 0 <= k < |d| ensures Inverted(c, start, end)[k] == d[k] {
      if start / 8 <= k <= (end - 1) / 8 {
        WholeByte(start, end, k);
        FlipTwice(d[k], start - 8 * k, end - 8 * k, start - 8 * k, end - 8 * k);
      }
    }
  }

  lemma WholeByte(start: nat, end: nat, k: nat)
    requires start % 8 == 0 && end % 8 == 0 && start / 8 <= k <= (end - 1) / 8
    ensures start - 8 * k <= 0 && 8 <= end - 8 * k
  {
  }

  lemma InvertLoses(d: Word, start: nat, end: nat)
    requires start < end <= 8 * |d| && (forall k | 0 <= k < |d| :: d[k] == 255)
    requires start % 8 != 0 || end % 8 != 0
    ensures Inverted(Inverted(d, start, end), start, end) != d
  {
    var c := Inverted(d, start, end);
    var k, j := if start % 8 != 0 then start / 8 else (end - 1) / 8, if start % 8 != 0 then 7 else 0;
    FlipFromBit(c[k], start - 8 * k, end - 8 * k, 0, 7 - j);
    ZeroBit(j);
    assert Bit(d[k], j) && !Bit(Inverted(c, start, end)[k], j);
  }

  /** Byte `k` lies in partition `i` of `g` bytes. */
  ghost predicate InPart(k: nat, i: nat, g: nat) {
    Times(i, g) <= k < Times(i + 1, g)
  }

  lemma PartUnique(k: nat, i: nat, j: nat, g: nat)
    requires InPart(k, i, g) && InPart(k, j, g)
    ensures i == j
  {
    if i < j { TimesMonotone(i + 1, j, g); } else if j < i { TimesMonotone(j + 1, i, g); }
  }

  lemma {:induction false} PartExists(k: nat, g: nat, n: nat) returns (i: nat)
    requires k < Times(n, g)
    ensures i < n && InPart(k, i, g)
  {
    if Times(n - 1, g) <= k { i := n - 1; } else { i := PartExists(k, g, n - 1); }
  }

  lemma {:induction false} EightTimes(i: nat, g: nat)
    ensures Times(i, 8 * g) == 8 * Times(i, g)
  {
    if i > 0 { EightTimes(i - 1, g); }
  }

  /** Inverting partition `i` inverts its bytes and no others. */
  lemma InvertedPart(d: Word, i: nat, g: nat, k: nat)
    requires 0 < g && Times(i + 1, g) <= |d| && k < |d|
    ensures Times(i, 8 * g) < Times(i + 1, 8 * g) <= 8 * |d|
    ensures Inverted(d, Times(i, 8 * g), Times(i + 1, 8 * g))[k] ==
      if InPart(k, i, g) then FlipByte(d[k], 0, 8) else d[k]
  {
    EightTimes(i, g);
    EightTimes(i + 1, g);
    if InPart(k, i, g) {
      FlipWhole(d[k], 8 * Times(i, g) - 8 * k, 8 * Times(i + 1, g) - 8 * k);
    }
  }

  // ------------------------------------------------------------------ the flagged partitions

  /** Inverts the first `n` partitions whose keys, counted from `base`, are in `flags`. */
  function Toggled(d: Word, flags: set<nat>, base: nat, g: nat, n: nat): (r: Word)
    requires 0 < g && Times(n, g) <= |d|
    ensures |r| == |d|
  {
    if n == 0 then d
    else
      var r := Toggled(d, flags, base, g, n - 1);
      if base + n - 1 in flags then InvertPart(r, n - 1, g) else r
  }

  function InvertPart(d: Word, i: nat, g: nat): (r: Word)
    requires 0 < g && Times(i + 1, g) <= |d|
    ensures |r| == |d|
  {
    InvertedPartBounds(i, g, |d|);
    Inverted(d, Times(i, 8 * g), Times(i + 1, 8 * g))
  }

  lemma InvertedPartBounds(i: nat, g: nat, n: nat)
    requires 0 < g && Times(i + 1, g) <= n
    ensures Times(i, 8 * g) < Times(i + 1, 8 * g) <= 8 * n
  {
    EightTimes(i, g);
    EightTimes(i + 1, g);
  }

  lemma {:induction false} ToggledAt(d: Word, flags: set<nat>, base: nat, g: nat, n: nat, k: nat, i: nat)
    requires 0 < g && Times(n, g) <= |d| && k < |d| && InPart(k, i, g)
    ensures Toggled(d, flags, base, g, n)[k] == if i < n && base + i in flags then FlipByte(d[k], 0, 8) else d[k]
    decreases n
  {
    if n > 0 {
      ToggledAt(d, flags, base, g, n - 1, k, i);
      InvertedPart(Toggled(d, flags, base, g, n - 1), n - 1, g, k);
      if InPart(k, n - 1, g) { PartUnique(k, i, n - 1, g); }
    }
  }

  /** The decoded word: what is stored, with the partitions that are marked inverted. */
  lemma ToggledTwice(d: Word, flags: set<nat>, base: nat, g: nat, n: nat)
    requires 0 < g && Times(n, g) == |d|
    ensures Toggled(Toggled(d, flags, base, g, n), flags, base, g, n) == d
  {
    var c := Toggled(d, flags, base, g, n);
    forall k | 0 <= k < |d| ensures Toggled(c, flags, base, g, n)[k] == d[k] {
      var i := PartExists(k, g, n);
      ToggledAt(d, flags, base, g, n, k, i);
      ToggledAt(c, flags, base, g, n, k, i);
      FlipTwice(d[k], 0, 8, 0, 8);
    }
  }

  /** Only the keys of the word's own partitions matter. */
  lemma {:induction false} ToggledLocal(d: Word, flags: set<nat>, flags': set<nat>, base: nat, g: nat, n: nat)
    requires 0 < g && Times(n, g) <= |d|
    requires forall x: nat | base <= x < base + n :: x in flags <==> x in flags'
    ensures Toggled(d, flags, base, g, n) == Toggled(d, flags', base, g, n)
  {
    if n > 0 {
      ToggledLocal(d, flags, flags', base, g, n - 1);
    }
  }

  // ------------------------------------------------------------------ counting changed bits

  function DiffUpTo(a: bv8, b: bv8, j: nat): nat
    requires j <= 8
  {
    if j == 0 then 0 else DiffUpTo(a, b, j - 1) + (if Bit(a, j - 1) != Bit(b, j - 1) then 1 else 0)
  }

  lemma {:induction false} DiffBounds(a: bv8, b: bv8, j: nat)
    requires j <= 8
    ensures DiffUpTo(a, b, j) <= j && (a == b ==> DiffUpTo(a, b, j) == 0)
  {
    if j > 0 { DiffBounds(a, b, j - 1); }
  }

  /** The number of bits in which two words differ, from byte `lo` up to byte `hi`. */
  function Changed(a: Word, b: Word, lo: nat, hi: nat): nat
    requires |a| == |b| && hi <= |a|
  {
    if hi <= lo then 0 else Changed(a, b, lo, hi - 1) + DiffUpTo(a[hi - 1], b[hi - 1], 8)
  }

  lemma {:induction false} ChangedBound(a: Word, b: Word, lo: nat, hi: nat)
    requires |a| == |b| && lo <= hi <= |a|
    ensures Changed(a, b, lo, hi) <= 8 * (hi - lo)
    decreases hi
  {
    if lo < hi {
      ChangedBound(a, b, lo, hi - 1);
      DiffBounds(a[hi - 1], b[hi - 1], 8);
    }
  }

  /** The changed bits of partition `i`, of the bytes before `upto`. */
  function PartChanged(a: Word, b: Word, i: nat, g: nat, upto: nat): nat
    requires |a| == |b| && upto <= |a|
  {
    Changed(a, b, Times(i, g), if upto < Times(i + 1, g) then upto else Times(i + 1, g))
  }

  /** The changed bits of each partition. */
  function Counts(a: Word, b: Word, g: nat, n: nat): (c: seq<nat>)
    requires |a| == |b| && Times(n, g) <= |a|
    ensures |c| == n
  {
    if n == 0 then [] else Counts(a, b, g, n - 1) + [Changed(a, b, Times(n - 1, g), Times(n, g))]
  }

  lemma {:induction false} CountsAt(a: Word, b: Word, g: nat, n: nat, i: nat)
    requires |a| == |b| && Times(n, g) <= |a| && i < n
    ensures Times(i + 1, g) <= |a| && Counts(a, b, g, n)[i] == Changed(a, b, Times(i, g), Times(i + 1, g)) <= 8 * g
  {
    TimesMonotone(i + 1, n, g);
    ChangedBound(a, b, Times(i, g), Times(i + 1, g));
    if i < n - 1 { CountsAt(a, b, g, n - 1, i); }
  }

  function Sum(counts: seq<nat>, n: nat): nat
    requires n <= |counts|
  {
    if n == 0 then 0 else Sum(counts, n - 1) + counts[n - 1]
  }

  lemma {:induction false} SumPrefix(counts: seq<nat>, more: seq<nat>, n: nat)
    requires n <= |counts|
    ensures Sum(counts + more, n) == Sum(counts, n)
  {
    if n > 0 { SumPrefix(counts, more, n - 1); }
  }

  lemma {:induction false} ChangedSplit(a: Word, b: Word, lo: nat, mid: nat, hi: nat)
    requires |a| == |b| && lo <= mid <= hi <= |a|
    ensures Changed(a, b, lo, hi) == Changed(a, b, lo, mid) + Changed(a, b, mid, hi)
    decreases hi
  {
    if mid < hi { ChangedSplit(a, b, lo, mid, hi - 1); }
  }

  /** The counts of the partitions add up to the bits in which the words differ. */
  lemma {:induction false} CountsAddUp(a: Word, b: Word, g: nat, n: nat)
    requires |a| == |b| && Times(n, g) <= |a|
    ensures Sum(Counts(a, b, g, n), n) == Changed(a, b, 0, Times(n, g))
  {
    if n > 0 {
      CountsAddUp(a, b, g, n - 1);
      SumPrefix(Counts(a, b, g, n - 1), [Changed(a, b, Times(n - 1, g), Times(n, g))], n - 1);
      ChangedSplit(a, b, 0, Times(n - 1, g), Times(n, g));
    }
  }

  /** What writing `b` over `a` is charged: of each partition the bits that differ or those that agree,
      whichever are fewer. */
  function Charge(a: Word, b: Word, g: nat, n: nat): nat
    requires |a| == |b| && Times(n, g) <= |a|
  {
    if n == 0 then 0
    else
      ChangedBound(a, b, Times(n - 1, g), Times(n, g));
      var count := Changed(a, b, Times(n - 1, g), Times(n, g));
      Charge(a, b, g, n - 1) + if count <= 8 * g - count then count else 8 * g - count
  }

  // ------------------------------------------------------------------ writing a word

  /** The encoder's flags and counters, and the word it is writing. */
  datatype Coded = Coded(flags: set<nat>, bits: nat, swaps: nat, data: Word)

  /** Stores one partition, of which `count` bits change: inverted when that is more than half. */
  function StorePart(e: Coded, key: nat, count: nat, i: nat, g: nat): (r: Coded)
    requires 0 < g && Times(i + 1, g) <= |e.data| && count <= 8 * g
    ensures |r.data| == |e.data|
  {
    if count > 8 * g / 2 then
      Coded(e.flags + {key}, e.bits + (8 * g - count), e.swaps + count, InvertPart(e.data, i, g))
    else
      Coded(e.flags - {key}, e.bits + count, e.swaps + count, e.data)
  }

  function Store(e: Coded, base: nat, counts: seq<nat>, g: nat, n: nat): (r: Coded)
    requires 0 < g && Times(n, g) <= |e.data| && n <= |counts| && forall i | 0 <= i < |counts| :: counts[i] <= 8 * g
    ensures |r.data| == |e.data|
  {
    if n == 0 then e else StorePart(Store(e, base, counts, g, n - 1), base + n - 1, counts[n - 1], n - 1, g)
  }

  /** The stored word is the new one with exactly the marked partitions inverted; a key is marked
      exactly when more than half of its partition changed, and other keys stay; a write is charged
      at most half of every partition, and never more than the bits that differ. */
  lemma {:induction false} StoreFacts(e: Coded, base: nat, counts: seq<nat>, g: nat, n: nat)
    requires 0 < g && Times(n, g) <= |e.data| && n <= |counts| && forall i | 0 <= i < |counts| :: counts[i] <= 8 * g
    ensures var r := Store(e, base, counts, g, n);
      && r.data == Toggled(e.data, r.flags, base, g, n)
      && (forall x: nat ::
        x in r.flags <==> if base <= x < base + n then counts[x - base] > 8 * g / 2 else x in e.flags)
      && e.bits <= r.bits <= e.bits + Times(n, 8 * g / 2)
      && r.bits - e.bits <= r.swaps - e.swaps
  {
    if n > 0 {
      StoreFacts(e, base, counts, g, n - 1);
      var m := Store(e, base, counts, g, n - 1);
      var r := Store(e, base, counts, g, n);
      ToggledLocal(e.data, m.flags, r.flags, base, g, n - 1);
    }
  }

  /** The counters of a write, exactly: every bit in which the word differs from the one stored is
      compared and swapped, and the charge is added to the flipped bits. */
  lemma {:induction false} StoreCharges(e: Coded, base: nat, a: Word, g: nat, n: nat, m: nat)
    requires 0 < g && |a| == |e.data| && Times(n, g) <= |a| && m <= n && |Counts(a, e.data, g, n)| == n
    requires forall i | 0 <= i < n :: Counts(a, e.data, g, n)[i] <= 8 * g
    ensures Times(m, g) <= |a|
    ensures Store(e, base, Counts(a, e.data, g, n), g, m).bits == e.bits + Charge(a, e.data, g, m)
    ensures Store(e, base, Counts(a, e.data, g, n), g, m).swaps == e.swaps + Sum(Counts(a, e.data, g, n), m)
    decreases m
  {
    TimesMonotone(m, n, g);
    if m > 0 {
      StoreCharges(e, base, a, g, n, m - 1);
      CountsAt(a, e.data, g, n, m - 1);
    }
  }

  // ------------------------------------------------------------------ a memory behind the encoder

  datatype Cell = Cell(row: nat, col: nat)

  /** `parts` partitions of `g` bytes make a word, `cols` words a row. */
  datatype Geometry = Geometry(g: nat, parts: nat, cols: nat)
  {
    /** The key of a word's first partition. */
    function Base(c: Cell): nat { c.row * (cols * parts) + c.col * parts }

    ghost predicate Has(c: Cell) { c.col < cols }

    ghost function Size(): nat { Times(parts, g) }
  }

  /** No two partitions share a key. */
  lemma KeysDistinct(geo: Geometry, c: Cell, c': Cell, i: nat, i': nat)
    requires geo.Has(c) && geo.Has(c') && i < geo.parts && i' < geo.parts
    requires geo.Base(c) + i == geo.Base(c') + i'
    ensures c == c' && i == i'
  {
    BaseIs(geo, c);
    BaseIs(geo, c');
    DigitsUnique(c.row * geo.cols + c.col, i, c'.row * geo.cols + c'.col, i', geo.parts);
    DigitsUnique(c.row, c.col, c'.row, c'.col, geo.cols);
  }

  lemma BaseIs(geo: Geometry, c: Cell)
    ensures geo.Base(c) == (c.row * geo.cols + c.col) * geo.parts
  {
    assert c.row * (geo.cols * geo.parts) == (c.row * geo.cols) * geo.parts;
  }

  /** What is stored, what was last written, and the encoder's flags and counters. */
  datatype Memory = Memory(stored: Cell -> Word, logical: Cell -> Word, flags: set<nat>, bits: nat, swaps: nat)

  ghost predicate Decodes(m: Memory, geo: Geometry, c: Cell)
    requires 0 < geo.g
  {
    && |m.stored(c)| == |m.logical(c)| == geo.Size()
    && Toggled(m.stored(c), m.flags, geo.Base(c), geo.g, geo.parts) == m.logical(c)
  }

  ghost predicate AllDecode(m: Memory, geo: Geometry) {
    0 < geo.g && forall c | geo.Has(c) :: Decodes(m, geo, c)
  }

  /** A memory starts with no partition inverted. */
  lemma FreshDecodes(content: Cell -> Word, geo: Geometry)
    requires 0 < geo.g && forall c :: |content(c)| == geo.Size()
    ensures AllDecode(Memory(content, content, {}, 0, 0), geo)
  {
    forall c | geo.Has(c) ensures Decodes(Memory(content, content, {}, 0, 0), geo, c) {
      NothingToggled(content(c), geo.Base(c), geo.g, geo.parts);
    }
  }

  lemma {:induction false} NothingToggled(d: Word, base: nat, g: nat, n: nat)
    requires 0 < g && Times(n, g) <= |d|
    ensures Toggled(d, {}, base, g, n) == d
  {
    if n > 0 { NothingToggled(d, base, g, n - 1); }
  }

  /** One write through the encoder, which is given the word last written as the old data. */
  ghost function WriteCell(m: Memory, geo: Geometry, c: Cell, w: Word): Memory
    requires AllDecode(m, geo) && geo.Has(c) && |w| == geo.Size()
  {
    assert Decodes(m, geo, c);
    var e := WriteWord(Coded(m.flags, m.bits, m.swaps, w), m.logical(c), geo.Base(c), geo.g, geo.parts);
    Memory(x => if x == c then e.data else m.stored(x), x => if x == c then w else m.logical(x),
           e.flags, e.bits, e.swaps)
  }

  /** `Write`, as a function: `e` holds the new word and `previous` the word it replaces. */
  function WriteWord(e: Coded, previous: Word, base: nat, g: nat, n: nat): (r: Coded)
    requires 0 < g && |e.data| == |previous| == Times(n, g)
    ensures |r.data| == |e.data|
  {
    var was := Toggled(previous, e.flags, base, g, n);
    assert forall i | 0 <= i < n :: Counts(was, e.data, g, n)[i] <= 8 * g by { CountsBound(was, e.data, g, n); }
    Store(e, base, Counts(was, e.data, g, n), g, n)
  }

  lemma CountsBound(a: Word, b: Word, g: nat, n: nat)
    requires |a| == |b| && Times(n, g) <= |a|
    ensures forall i | 0 <= i < n :: Counts(a, b, g, n)[i] <= 8 * g
  {
    forall i | 0 <= i < n ensures Counts(a, b, g, n)[i] <= 8 * g { CountsAt(a, b, g, n, i); }
  }

  /** A write keeps every word decodable, changes the meaning of its own cell only, and compares
      the new word with what is really stored; it is charged at most half of the word. */
  lemma WriteDecodes(m: Memory, geo: Geometry, c: Cell, w: Word)
    requires AllDecode(m, geo) && geo.Has(c) && |w| == geo.Size()
    ensures var m' := WriteCell(m, geo, c, w);
      && AllDecode(m', geo) && m'.logical(c) == w
      && (forall x | x != c :: m'.logical(x) == m.logical(x) && m'.stored(x) == m.stored(x))
      && m.bits <= m'.bits <= m.bits + Times(geo.parts, 8 * geo.g / 2) && m'.bits - m.bits <= m'.swaps - m.swaps
      && |m.stored(c)| == |w|
      && m'.swaps == m.swaps + Changed(m.stored(c), w, 0, |w|)
      && m'.bits == m.bits + Charge(m.stored(c), w, geo.g, geo.parts)
    ensures Toggled(m.logical(c), m.flags, geo.Base(c), geo.g, geo.parts) == m.stored(c)
  {
    var g, n, base := geo.g, geo.parts, geo.Base(c);
    assert Decodes(m, geo, c);
    var m' := WriteCell(m, geo, c, w);
    ToggledTwice(m.stored(c), m.flags, base, g, n);
    var was := Toggled(m.logical(c), m.flags, base, g, n);
    CountsBound(was, w, g, n);
    StoreFacts(Coded(m.flags, m.bits, m.swaps, w), base, Counts(was, w, g, n), g, n);
    StoreCharges(Coded(m.flags, m.bits, m.swaps, w), base, was, g, n, n);
    CountsAddUp(was, w, g, n);
    ToggledTwice(w, m'.flags, base, g, n);
    forall x | geo.Has(x) ensures Decodes(m', geo, x) {
      assert Decodes(m, geo, x);
      if x != c { OtherKeys(m.flags, m'.flags, geo, c, x, m.stored(x)); }
    }
  }

  /** The keys of one word do not affect another word. */
  lemma OtherKeys(flags: set<nat>, flags': set<nat>, geo: Geometry, c: Cell, x: Cell, w: Word)
    requires geo.Has(c) && geo.Has(x) && x != c && 0 < geo.g && |w| == geo.Size()
    requires forall k: nat | !(geo.Base(c) <= k < geo.Base(c) + geo.parts) :: k in flags <==> k in flags'
    ensures Toggled(w, flags, geo.Base(x), geo.g, geo.parts) == Toggled(w, flags', geo.Base(x), geo.g, geo.parts)
  {
    forall k: nat | geo.Base(x) <= k < geo.Base(x) + geo.parts ensures k in flags <==> k in flags' {
      if geo.Base(c) <= k < geo.Base(c) + geo.parts {
        KeysDistinct(geo, c, x, k - geo.Base(c), k - geo.Base(x));
      }
    }
    ToggledLocal(w, flags, flags', geo.Base(x), geo.g, geo.parts);
  }

  datatype Access = Access(cell: Cell, word: Word)

  ghost predicate Fitting(ws: seq<Access>, geo: Geometry) {
    forall i | 0 <= i < |ws| :: geo.Has(ws[i].cell) && |ws[i].word| == geo.Size()
  }

  /** The word last written to a cell by a run, or the one it started with. */
  ghost function LastWritten(ws: seq<Access>, c: Cell, initial: Word): Word {
    if ws == [] then initial
    else if ws[|ws| - 1].cell == c then ws[|ws| - 1].word
    else LastWritten(ws[..|ws| - 1], c, initial)
  }

  /** A run of writes. */
  ghost function Written(m: Memory, geo: Geometry, ws: seq<Access>): (r: Memory)
    requires AllDecode(m, geo) && Fitting(ws, geo)
    ensures AllDecode(r, geo)
  {
    if ws == [] then m
    else
      var last := ws[|ws| - 1];
      var before := Written(m, geo, ws[..|ws| - 1]);
      WriteDecodes(before, geo, last.cell, last.word);
      WriteCell(before, geo, last.cell, last.word)
  }

  /** After any run of writes every word decodes to what was last written to it, and the counters
      keep their bounds. */
  lemma {:induction false} RunDecodes(m: Memory, geo: Geometry, ws: seq<Access>, c: Cell)
    requires AllDecode(m, geo) && Fitting(ws, geo) && geo.Has(c)
    ensures var r := Written(m, geo, ws);
      && |r.stored(c)| == geo.Size()
      && Toggled(r.stored(c), r.flags, geo.Base(c), geo.g, geo.parts) == LastWritten(ws, c, m.logical(c))
      && m.bits <= r.bits <= m.bits + Times(|ws|, Times(geo.parts, 8 * geo.g / 2))
      && r.bits - m.bits <= r.swaps - m.swaps
  {
    var r := Written(m, geo, ws);
    assert Decodes(r, geo, c);
    RunLogical(m, geo, ws, c);
  }

  lemma {:induction false} RunLogical(m: Memory, geo: Geometry, ws: seq<Access>, c: Cell)
    requires AllDecode(m, geo) && Fitting(ws, geo)
    ensures var r := Written(m, geo, ws);
      && r.logical(c) == LastWritten(ws, c, m.logical(c))
      && m.bits <= r.bits <= m.bits + Times(|ws|, Times(geo.parts, 8 * geo.g / 2))
      && r.bits - m.bits <= r.swaps - m.swaps
  {
    if ws != [] {
      var last := ws[|ws| - 1];
      RunLogical(m, geo, ws[..|ws| - 1], c);
      WriteDecodes(Written(m, geo, ws[..|ws| - 1]), geo, last.cell, last.word);
    }
  }
}
