/**
 The objects that translate addresses: `TranslationMethod` holds the order and widths of the
 fields, `AddressTranslator` translates in both directions with 64-bit arithmetic.
 */
module AddressTranslators {
  import opened Arithmetic
  import opened AddressMap

  class TranslationMethod {
    const bitWidths: array<nat>
    const order: array<int>
    const count: array<nat>

    ghost predicate Valid()
      reads this
    {
      bitWidths.Length == FIELDS && order.Length == FIELDS && count.Length == FIELDS
      && bitWidths != count
    }

    ghost function Layout(): Layout
      reads this, bitWidths, order
    {
      AddressMap.Layout(order[..], bitWidths[..])
    }

    constructor ()
      ensures Valid() && fresh(bitWidths) && fresh(order) && fresh(count)
      ensures Layout().Ok()
    {
      bitWidths := new nat[6][10, 8, 3, 1, 1, 6];
      order := new int[6][3, 0, 2, 4, 5, 1];
      count := new nat[6][1, 1, 1, 1, 1, 1];
    }

    /** `SetBitWidths` and `SetCount` from the configured counts: each width is the logarithm of
        its count, rounded down, so a field never exceeds its count. */
    method SetGeometry(counts: seq<nat>)
      requires Valid() && |counts| == FIELDS && forall k | 0 <= k < FIELDS :: counts[k] >= 1
      modifies bitWidths, count
      ensures count[..] == counts && order[..] == old(order[..])
      ensures forall k | 0 <= k < FIELDS :: bitWidths[k] == FloorLog2(counts[k]) && Pow2(bitWidths[k]) <= counts[k]
    {
      var i := 0;
      while i < FIELDS
        invariant i <= FIELDS && count[..i] == counts[..i] && order[..] == old(order[..])
        invariant forall k | 0 <= k < i :: bitWidths[k] == FloorLog2(counts[k]) && Pow2(bitWidths[k]) <= counts[k]
      {
        var bits := Mlog2(counts[i]);
        bitWidths[i] := bits;
        count[i] := counts[i];
        i := i + 1;
      }
    }

    /** `SetAddressMappingScheme`. The source copies the scheme into a buffer of 16 characters. */
    method SetAddressMappingScheme(scheme: string)
      requires Valid() && |scheme| < 16
      modifies order
      ensures order[..] == OrderOf(scheme) && bitWidths[..] == old(bitWidths[..])
      ensures Permutation(order[..]) <==> Decisive(Named(scheme))
    {
      var orders, currentOrder := AssignTokens(scheme, [0, 0, 0, 0, 0, 0], 6);
      orders, currentOrder := FillMissing(orders, currentOrder, FILL_ORDER);
      forall k | 0 <= k < FIELDS {
        order[k] := orders[k] - 1;
      }
      assert order[..] == OrderOf(scheme);
      SchemeIsPermutation(scheme);
    }
  }

  /** The token loop. */
  method AssignTokens(scheme: string, zero: seq<int>, first: int) returns (orders: seq<int>, currentOrder: int)
    requires |zero| == FIELDS
    ensures (orders, currentOrder) == Assign(Named(scheme), zero, first)
  {
    orders, currentOrder := zero, first;
    var tokens := Tokens(scheme);
    ghost var fs := Named(scheme);
    var i := 0;
    while i < |tokens|
      invariant i <= |tokens| && |orders| == FIELDS
      invariant Assign(fs[i..], orders, currentOrder) == Assign(fs, zero, first)
    {
      var k := FieldOf(tokens[i]);
      assert fs[i] == k && fs[i..][0] == k && fs[i..][1..] == fs[i + 1..];
      if k < FIELDS {
        orders := orders[k := currentOrder];
      }
      currentOrder := currentOrder - 1;
      i := i + 1;
    }
    assert fs[i..] == [];
  }

  /** The fields that no token named get the orders that are left. */
  method FillMissing(orders0: seq<int>, first: int, fields: seq<nat>) returns (orders: seq<int>, currentOrder: int)
    requires |orders0| == FIELDS && forall i | 0 <= i < |fields| :: fields[i] < FIELDS
    ensures (orders, currentOrder) == FillList((orders0, first), fields)
  {
    orders, currentOrder := orders0, first;
    var f := 0;
    while f < |fields|
      invariant f <= |fields| && |orders| == FIELDS
      invariant FillList((orders, currentOrder), fields[f..]) == FillList((orders0, first), fields)
    {
      var k := fields[f];
      assert fields[f..][1..] == fields[f + 1..];
      if orders[k] == 0 {
        orders, currentOrder := orders[k := currentOrder], currentOrder - 1;
      }
      f := f + 1;
    }
    assert fields[f..] == [];
  }

  /** `Divide`: shifts an address right by the width of a field. */
  function Divide(a: nat, bits: nat): nat {
    if bits == 0 then a else Divide(a / 2, bits - 1)
  }

  lemma {:induction false} DivideIs(a: nat, bits: nat)
    ensures Divide(a, bits) == a / Pow2(bits)
  {
    if bits > 0 {
      DivideIs(a / 2, bits - 1);
      HalfFirst(a, Pow2(bits - 1));
    }
  }

  lemma HalfFirst(a: nat, p: nat)
    requires p > 0
    ensures (a / 2) / p == a / (2 * p)
  {
    var q, r := (a / 2) / p, (a / 2) % p;
    Division(a / 2, p);
    Double(q, p);
    QuotientUnique(a, 2 * p, q, 2 * r + a % 2);
  }

  lemma Double(q: nat, p: nat)
    ensures q * (2 * p) == 2 * (q * p)
  {
  }

  lemma {:induction false} DivideTwice(a: nat, x: nat, y: nat)
    ensures Divide(Divide(a, x), y) == Divide(a, x + y)
    decreases x
  {
    if x > 0 { DivideTwice(a / 2, x - 1, y); }
  }

  /** `Modulo`: the lowest bits of an address. */
  function Modulo(a: nat, bits: nat): nat { a % Pow2(bits) }

  /** A 64-bit variable. */
  function Wrap(x: nat): nat { x % WORD }

  function Product2(a: nat, b: nat): nat { a * b }

  /** The bus is no wider than a burst. */
  lemma BusFits(busWidth: nat, burstLength: nat)
    requires burstLength >= 1
    ensures FloorLog2(busWidth / 8) <= FloorLog2((busWidth * burstLength) / 8)
  {
    MulLe(1, burstLength, busWidth);
    var bytes := busWidth * burstLength;
    assert busWidth <= bytes;
    FloorLog2Monotone(busWidth / 8, bytes / 8);
  }

  class AddressTranslator {
    const method_: TranslationMethod
    var busWidth: nat
    var burstLength: nat

    constructor (m: TranslationMethod)
      ensures method_ == m && busWidth == 64 && burstLength == 8
    {
      method_ := m;
      busWidth, burstLength := 64, 8;
    }

    /** The number of bytes of a burst. */
    ghost function Burst(): (r: nat)
      reads this
      ensures r > 0
    {
      Pow2(FloorLog2((busWidth * burstLength) / 8))
    }

    /** The bits of the bus offset, and the further bits of the position within a burst. */
    method OffsetBits() returns (busOffsetBits: nat, lowColBits: nat)
      requires burstLength >= 1
      ensures Pow2(busOffsetBits + lowColBits) == Burst()
    {
      BusFits(busWidth, burstLength);
      busOffsetBits := Mlog2(busWidth / 8);
      var burstBits := Mlog2((busWidth * burstLength) / 8);
      lowColBits := burstBits - busOffsetBits;
    }

    /** Drops the bits of the position within a burst. */
    method Strip(address: nat) returns (refAddress: nat)
      requires burstLength >= 1
      ensures refAddress == address / Burst()
    {
      var busOffsetBits, lowColBits := OffsetBits();
      refAddress := Divide(address, busOffsetBits);
      refAddress := Divide(refAddress, lowColBits);
      DivideTwice(address, busOffsetBits, lowColBits);
      DivideIs(address, busOffsetBits + lowColBits);
    }

    /** `Translate`: the coordinates of a physical address. */
    method Translate(address: nat) returns (partitions: array<nat>)
      requires method_.Valid() && method_.Layout().Ok() && burstLength >= 1
      ensures fresh(partitions) && partitions[..] == method_.Layout().Coordinates(address, Burst())
    {
      var refAddress := Strip(address);
      var layout := Layout(method_.order[..], method_.bitWidths[..]);
      partitions := new nat[6];
      Split(refAddress, layout, partitions);
    }

    /** Stores the field at one position and returns what is left of the address above it. */
    static method CutField(refAddress: nat, i: nat, layout: Layout, partitions: array<nat>, ghost bs: seq<nat>,
                           ghost ds: seq<nat>)
      returns (rest: nat)
      requires layout.Ok() && bs == layout.Bases() && i < FIELDS && |ds| == FIELDS
      requires Remains(refAddress, bs, ds, i) && Filled(partitions[..], layout.order, ds, i)
      modifies partitions
      ensures Remains(rest, bs, ds, i + 1) && Filled(partitions[..], layout.order, ds, i + 1)
    {
      PermutationCovers(layout.order, i);
      var part := FieldAt(layout.order, i);
      var bits := layout.bits[part];
      assert bs[i] == Pow2(bits);
      DecodeStep(refAddress, bs, ds, i, bits);
      FillStep(partitions[..], layout.order, ds, i, part);
      partitions[part] := Modulo(refAddress, bits);
      rest := Divide(refAddress, bits);
    }

    /** Cuts a stripped address into its fields, least significant first. */
    static method Split(address: nat, layout: Layout, partitions: array<nat>)
      requires layout.Ok() && partitions.Length == FIELDS
      modifies partitions
      ensures forall k | 0 <= k < FIELDS :: partitions[k] == Decode(address, layout.Bases())[layout.order[k]]
    {
      ghost var bs := layout.Bases();
      ghost var ds := Decode(address, bs);
      assert bs[0..] == bs && ds[0..] == ds;
      CutAll(address, layout, partitions, bs, ds);
      assert forall k | 0 <= k < FIELDS :: partitions[..][k] == ds[layout.order[k]];
    }

    static method CutAll(address: nat, layout: Layout, partitions: array<nat>, ghost bs: seq<nat>, ghost ds: seq<nat>)
      requires layout.Ok() && bs == layout.Bases() && |ds| == FIELDS && partitions.Length == FIELDS
      requires Remains(address, bs, ds, 0)
      modifies partitions
      ensures Filled(partitions[..], layout.order, ds, FIELDS)
    {
      var refAddress, i := address, 0;
      while i < FIELDS
        invariant i <= FIELDS && Remains(refAddress, bs, ds, i) && Filled(partitions[..], layout.order, ds, i)
      {
        refAddress := CutField(refAddress, i, layout, partitions, bs, ds);
        i := i + 1;
      }
    }

    /** `ReverseTranslate`, in 64-bit arithmetic: exact when the coordinates fit their fields and
        the memory has at most 2^64 bytes. */
    method ReverseTranslate(c: seq<nat>) returns (phyAddr: nat)
      requires method_.Valid() && method_.Layout().Ok() && burstLength >= 1 && |c| == FIELDS
      ensures phyAddr < WORD
      ensures method_.Layout().Fits(c) && method_.Layout().Capacity(Burst()) <= WORD ==>
        phyAddr == method_.Layout().Address(c, Burst())
    {
      var layout := Layout(method_.order[..], method_.bitWidths[..]);
      var busOffsetBits, lowColBits := OffsetBits();
      var unitAddr := Wrap(Pow2(busOffsetBits));
      unitAddr := Wrap(Product2(unitAddr, Pow2(lowColBits)));
      ghost var exact := layout.Fits(c) && layout.Capacity(Burst()) <= WORD;
      ghost var bs, ds := layout.Bases(), layout.Arranged(c);
      Pow2Add(busOffsetBits, lowColBits);
      if exact { Start(busOffsetBits, lowColBits, Burst(), bs, ds, layout, c); }
      phyAddr := Sum(layout, c, unitAddr, exact, Burst());
    }

    /** Adds up the fields, least significant first. */
    static method Sum(layout: Layout, c: seq<nat>, unitAddr0: nat, ghost exact: bool, ghost burst: nat)
      returns (phyAddr: nat)
      requires layout.Ok() && |c| == FIELDS
      requires exact ==> Summed(layout, c, 0, burst, unitAddr0, 0, layout.Address(c, burst))
      ensures phyAddr < WORD && (exact ==> phyAddr == layout.Address(c, burst))
    {
      phyAddr := 0;
      var unitAddr := unitAddr0;
      ghost var unit := burst;
      var i := 0;
      while i < FIELDS
        invariant i <= FIELDS && phyAddr < WORD
        invariant exact ==> Summed(layout, c, phyAddr, unit, unitAddr, i, layout.Address(c, burst))
      {
        PermutationCovers(layout.order, i);
        var part := FieldAt(layout.order, i);
        if exact { SumStep(layout, c, phyAddr, unit, unitAddr, i, layout.Address(c, burst)); }
        phyAddr := Wrap(phyAddr + Wrap(Product2(c[part], unitAddr)));
        unit := Product2(unit, Pow2(layout.bits[part]));
        unitAddr := Wrap(Product2(unitAddr, Pow2(layout.bits[part])));
        i := i + 1;
      }
      if exact { SumEnds(layout, c, phyAddr, unit, unitAddr, layout.Address(c, burst)); }
    }
  }

  /** The first `i` fields are added up. */
  ghost predicate Summed(l: Layout, c: seq<nat>, phy: nat, unit: nat, unitAddr: nat, i: nat, total: nat) {
    && l.Ok() && l.Fits(c) && i <= FIELDS
    && Digits(l.Arranged(c)[i..], l.Bases()[i..])
    && Upto(phy, unit, unitAddr, l.Arranged(c)[i..], l.Bases()[i..], total)
  }

  lemma SumStep(l: Layout, c: seq<nat>, phy: nat, unit: nat, unitAddr: nat, i: nat, total: nat)
    requires i < FIELDS && Summed(l, c, phy, unit, unitAddr, i, total)
    ensures var part := FieldAt(l.order, i);
      && part < FIELDS
      && Summed(l, c, Wrap(phy + Wrap(Product2(c[part], unitAddr))), Product2(unit, Pow2(l.bits[part])),
                Wrap(Product2(unitAddr, Pow2(l.bits[part]))), i + 1, total)
  {
    PermutationCovers(l.order, i);
    var ds, bs := l.Arranged(c), l.Bases();
    assert ds[i..][0] == ds[i] && ds[i..][1..] == ds[i + 1..];
    assert bs[i..][0] == bs[i] && bs[i..][1..] == bs[i + 1..];
    NextField(phy, unit, unitAddr, ds[i..], bs[i..], total);
  }

  lemma SumEnds(l: Layout, c: seq<nat>, phy: nat, unit: nat, unitAddr: nat, total: nat)
    requires Summed(l, c, phy, unit, unitAddr, FIELDS, total)
    ensures phy == total
  {
    assert l.Arranged(c)[FIELDS..] == [];
  }

  /** The address left over after `i` fields decodes to the digits from `i` on. */
  ghost predicate Remains(a: nat, bs: seq<nat>, ds: seq<nat>, i: nat) {
    && i <= |bs| == |ds| && (forall k | 0 <= k < |bs| :: bs[k] > 0)
    && Decode(a, bs[i..]) == ds[i..]
  }

  /** The fields at the positions below `i` hold their digits. */
  ghost predicate Filled(parts: seq<nat>, order: seq<int>, ds: seq<nat>, i: nat) {
    && |parts| == |ds| == FIELDS && Permutation(order)
    && forall k | 0 <= k < FIELDS && order[k] < i :: parts[k] == ds[order[k]]
  }

  lemma FillStep(parts: seq<nat>, order: seq<int>, ds: seq<nat>, i: nat, part: nat)
    requires i < FIELDS && Filled(parts, order, ds, i) && part < FIELDS && order[part] == i
    ensures Filled(parts[part := ds[i]], order, ds, i + 1)
  {
  }

  lemma DecodeStep(a: nat, bs: seq<nat>, ds: seq<nat>, i: nat, bits: nat)
    requires Remains(a, bs, ds, i) && i < |bs| && bs[i] == Pow2(bits)
    ensures Modulo(a, bits) == ds[i] && Remains(Divide(a, bits), bs, ds, i + 1)
  {
    assert bs[i..][0] == bs[i] && bs[i..][1..] == bs[i + 1..];
    assert ds[i..][0] == ds[i] && ds[i..][1..] == ds[i + 1..];
    DivideIs(a, bits);
  }

  /** The address so far, the unit of the next field (exactly, and as the 64-bit variable holds it)
      and the fields still to come make up the whole address, which is representable. */
  ghost predicate Upto(phy: nat, unit: nat, unitAddr: nat, ds: seq<nat>, bs: seq<nat>, total: nat) {
    && |ds| == |bs| && unit > 0 && unitAddr == unit % WORD
    && phy + unit * Encode(ds, bs) == total < WORD
    && unit * Product(bs) <= WORD
  }

  lemma {:induction false} ProductPositive(ds: seq<nat>, bs: seq<nat>)
    requires Digits(ds, bs)
    ensures Product(bs) >= 1
  {
    if bs != [] {
      ProductPositive(ds[1..], bs[1..]);
      MulLe(1, Product(bs[1..]), bs[0]);
    }
  }

  lemma NextField(phy: nat, unit: nat, unitAddr: nat, ds: seq<nat>, bs: seq<nat>, total: nat)
    requires Upto(phy, unit, unitAddr, ds, bs, total) && Digits(ds, bs) && ds != []
    ensures Upto(Wrap(phy + Wrap(Product2(ds[0], unitAddr))), Product2(unit, bs[0]), Wrap(Product2(unitAddr, bs[0])),
                 ds[1..], bs[1..], total)
  {
    var rest, d, b := Encode(ds[1..], bs[1..]), ds[0], bs[0];
    ProductPositive(ds[1..], bs[1..]);
    Regroup(unit, d, b, rest);
    MulAssoc(unit, b, Product(bs[1..]));
    MulLe(1, Product(bs[1..]), unit * b);
    AddField(phy, unit, unitAddr, d, b, total);
    ModTimes(unit, b);
  }

  lemma Regroup(unit: nat, d: nat, b: nat, rest: nat)
    ensures unit * (d + b * rest) == unit * d + (unit * b) * rest
  {
  }

  /** Adding a field to the address is exact. */
  lemma AddField(phy: nat, unit: nat, unitAddr: nat, d: nat, b: nat, total: nat)
    requires unit > 0 && unitAddr == unit % WORD && d < b && unit * b <= WORD && phy + unit * d <= total < WORD
    ensures Wrap(phy + Wrap(Product2(d, unitAddr))) == phy + unit * d
  {
    if unit >= WORD {
      BaseIsOne(unit, b);
    } else {
      assert Product2(d, unit) == unit * d;
      Small(unit);
      Small(unit * d);
    }
    Small(phy + unit * d);
  }

  lemma Small(x: nat)
    requires x < WORD
    ensures x % WORD == x
  {
  }

  lemma BaseIsOne(unit: nat, b: nat)
    requires unit >= WORD && b > 0 && unit * b <= WORD
    ensures unit == WORD && b == 1
  {
    MulLe(WORD, unit, b);
    MulLe(1, b, unit);
  }

  lemma ModTimes(u: nat, b: nat)
    ensures ((u % WORD) * b) % WORD == (u * b) % WORD
  {
    var q, r := u / WORD, u % WORD;
    var x := r * b;
    assert u * b == x + WORD * (q * b);
    var y, z := x / WORD, x % WORD;
    assert x == z + WORD * y;
    assert x + WORD * (q * b) == z + WORD * (y + q * b);
    SplitDigit(z, y + q * b, WORD);
  }

  lemma Start(bus: nat, low: nat, unit: nat, bs: seq<nat>, ds: seq<nat>, l: Layout, c: seq<nat>)
    requires l.Ok() && l.Fits(c) && unit == Pow2(bus) * Pow2(low) && unit > 0
    requires bs == l.Bases() && ds == l.Arranged(c) && l.Capacity(unit) <= WORD
    ensures Summed(l, c, 0, unit, Wrap(Product2(Wrap(Pow2(bus)), Pow2(low))), 0, l.Address(c, unit))
  {
    ArrangedDigits(l, c);
    CoordinatesOfAddress(l, c, unit);
    ModTimes(Pow2(bus), Pow2(low));
    assert Encode(ds, bs) * unit == unit * Encode(ds, bs);
    assert Product(bs) * unit == unit * Product(bs);
    assert bs[0..] == bs && ds[0..] == ds;
  }
}
