/**
 Address translation: the parsing of a mapping scheme into an order of the six address fields,
 the field widths, and the translation between physical addresses and coordinates.
 */
module AddressMap {
  import opened Arithmetic

  const WORD: nat := 0x1_0000_0000_0000_0000

  // ------------------------------------------------------------------ powers of two and mlog2

  function Pow2(n: nat): (r: nat)
    ensures r > 0
  {
    if n == 0 then 1 else 2 * Pow2(n - 1)
  }

  lemma {:induction false} Pow2Add(a: nat, b: nat)
    ensures Pow2(a + b) == Pow2(a) * Pow2(b)
  {
    if a > 0 {
      Pow2Add(a - 1, b);
      assert Pow2(a + b) == 2 * Pow2(a - 1 + b);
      MulAssoc(2, Pow2(a - 1), Pow2(b));
    }
  }

  /** The floor of the binary logarithm, and 0 for numbers below 2. */
  function FloorLog2(n: int): nat
    decreases n
  {
    if n < 2 then 0 else 1 + FloorLog2(n / 2)
  }

  lemma {:induction false} FloorLog2Monotone(a: int, b: int)
    requires a <= b
    ensures FloorLog2(a) <= FloorLog2(b)
    decreases b
  {
    if a >= 2 { FloorLog2Monotone(a / 2, b / 2); }
  }

  /** The shift loop that computes every field width: the floor of the binary logarithm, and 0 for
      numbers below 2. */
  method Mlog2(num: int) returns (bits: nat)
    ensures bits == FloorLog2(num)
    ensures num < 2 ==> bits == 0
    ensures num >= 1 ==> Pow2(bits) <= num < Pow2(bits + 1)
  {
    var retVal: int := -1;
    var newNum := num;
    if num < 2 {
      return 0;
    }
    while newNum != 0
      invariant 0 <= newNum && -1 <= retVal && (newNum == 0 ==> retVal >= 0)
      invariant newNum * Pow2(retVal + 1) <= num < (newNum + 1) * Pow2(retVal + 1)
      invariant newNum == 0 ==> Pow2(retVal) <= num
      invariant FloorLog2(num) == if newNum == 0 then retVal else retVal + 1 + FloorLog2(newNum)
      decreases newNum
    {
      Halve(newNum, Pow2(retVal + 1), num);
      retVal := retVal + 1;
      newNum := newNum / 2;
    }
    bits := retVal;
  }

  lemma Halve(n: nat, u: nat, num: int)
    requires n >= 1 && n * u <= num < (n + 1) * u
    ensures (n / 2) * (2 * u) <= num < (n / 2 + 1) * (2 * u)
    ensures n / 2 == 0 ==> u <= num
  {
    var h := n / 2;
    assert n == 2 * h || n == 2 * h + 1;
    assert h * (2 * u) == (2 * h) * u && (h + 1) * (2 * u) == (2 * h + 2) * u;
    MulLe(2 * h, n, u);
    MulLe(n + 1, 2 * h + 2, u);
  }

  // ------------------------------------------------------------------ mixed-radix numbers

  function Encode(ds: seq<nat>, bs: seq<nat>): nat
    requires |ds| == |bs|
  {
    if ds == [] then 0 else ds[0] + bs[0] * Encode(ds[1..], bs[1..])
  }

  function Decode(a: nat, bs: seq<nat>): (ds: seq<nat>)
    requires forall i | 0 <= i < |bs| :: bs[i] > 0
    ensures |ds| == |bs|
    decreases |bs|
  {
    if bs == [] then [] else [a % bs[0]] + Decode(a / bs[0], bs[1..])
  }

  function Product(bs: seq<nat>): nat {
    if bs == [] then 1 else bs[0] * Product(bs[1..])
  }

  ghost predicate Digits(ds: seq<nat>, bs: seq<nat>) {
    |ds| == |bs| && forall i | 0 <= i < |bs| :: ds[i] < bs[i]
  }

  lemma {:induction false} DecodeDigits(a: nat, bs: seq<nat>)
    requires forall i | 0 <= i < |bs| :: bs[i] > 0
    ensures Digits(Decode(a, bs), bs)
    decreases |bs|
  {
    if bs != [] { DecodeDigits(a / bs[0], bs[1..]); }
  }

  lemma SplitDigit(d: nat, r: nat, b: nat)
    requires d < b
    ensures (d + b * r) % b == d && (d + b * r) / b == r
  {
    var v := d + b * r;
    var q, m := v / b, v % b;
    assert v == b * q + m;
    if q < r { MulLe(q + 1, r, b); } else if r < q { MulLe(r + 1, q, b); }
  }

  lemma {:induction false} DecodeEncode(ds: seq<nat>, bs: seq<nat>)
    requires Digits(ds, bs)
    ensures Decode(Encode(ds, bs), bs) == ds
  {
    if ds != [] {
      DecodeEncode(ds[1..], bs[1..]);
      SplitDigit(ds[0], Encode(ds[1..], bs[1..]), bs[0]);
    }
  }

  lemma {:induction false} EncodeDecode(a: nat, bs: seq<nat>)
    requires (forall i | 0 <= i < |bs| :: bs[i] > 0) && a < Product(bs)
    ensures Encode(Decode(a, bs), bs) == a
    decreases |bs|
  {
    if bs != [] {
      QuotientBelow(a, bs[0], Product(bs[1..]));
      EncodeDecode(a / bs[0], bs[1..]);
      var ds := Decode(a, bs);
      assert ds[0] == a % bs[0] && ds[1..] == Decode(a / bs[0], bs[1..]);
    }
  }

  lemma QuotientBelow(a: nat, b: nat, n: nat)
    requires b > 0 && a < b * n
    ensures a / b < n && a == a % b + b * (a / b)
  {
    if a / b >= n { MulLe(n, a / b, b); }
  }

  lemma {:induction false} EncodeBound(ds: seq<nat>, bs: seq<nat>)
    requires Digits(ds, bs)
    ensures Encode(ds, bs) < Product(bs)
  {
    if ds != [] {
      EncodeBound(ds[1..], bs[1..]);
      MulLe(Encode(ds[1..], bs[1..]) + 1, Product(bs[1..]), bs[0]);
    }
  }

  // ------------------------------------------------------------------ mapping schemes

  // The six fields of an address: 0 row, 1 column, 2 bank, 3 rank, 4 channel, 5 subarray.
  const FIELDS: nat := 6

  /** The non-empty pieces of a string between colons, as strtok_r delivers them. */
  function Tokens(s: string): seq<string> {
    Pieces(s, "")
  }

  function Pieces(s: string, piece: string): seq<string>
    decreases |s|
  {
    var done := if piece == "" then [] else [piece];
    if s == "" then done
    else if s[0] == ':' then done + Pieces(s[1..], "")
    else Pieces(s[1..], piece + [s[0]])
  }

  /** The field a token names; FIELDS when it is not recognised. */
  function FieldOf(token: string): nat {
    if token == "R" then 0
    else if token == "C" then 1
    else if token == "BK" then 2
    else if token == "RK" then 3
    else if token == "CH" then 4
    else if token == "SA" then 5
    else FIELDS
  }

  /** The fields that a scheme names, in its order; FIELDS for a token that is not recognised. */
  function Named(scheme: string): (fs: seq<nat>)
    ensures |fs| == |Tokens(scheme)| && forall i | 0 <= i < |fs| :: fs[i] == FieldOf(Tokens(scheme)[i])
  {
    seq(|Tokens(scheme)|, i requires 0 <= i < |Tokens(scheme)| => FieldOf(Tokens(scheme)[i]))
  }

  /** The token loop: each token gives its field the current order, which then drops by one. */
  function Assign(fs: seq<nat>, orders: seq<int>, current: int): (r: (seq<int>, int))
    requires |orders| == FIELDS
    ensures |r.0| == FIELDS
    decreases |fs|
  {
    if fs == [] then (orders, current)
    else Assign(fs[1..], if fs[0] < FIELDS then orders[fs[0] := current] else orders, current - 1)
  }

  /** Gives one field that no token named the current order. */
  function FillOne(s: (seq<int>, int), k: nat): (r: (seq<int>, int))
    requires |s.0| == FIELDS && k < FIELDS
    ensures |r.0| == FIELDS
  {
    if s.0[k] == 0 then (s.0[k := s.1], s.1 - 1) else s
  }

  function FillList(s: (seq<int>, int), ks: seq<nat>): (r: (seq<int>, int))
    requires |s.0| == FIELDS && forall i | 0 <= i < |ks| :: ks[i] < FIELDS
    ensures |r.0| == FIELDS
    decreases |ks|
  {
    if ks == [] then s else FillList(FillOne(s, ks[0]), ks[1..])
  }

  // The order in which fields without a token are filled in.
  const FILL_ORDER: seq<nat> := [5, 4, 3, 2, 0, 1]

  /** The order of each field, least significant first, that a scheme gives. */
  function OrderOf(scheme: string): (r: seq<int>)
    ensures |r| == FIELDS
  {
    var orders := FillList(Assign(Named(scheme), [0, 0, 0, 0, 0, 0], 6), FILL_ORDER).0;
    seq(FIELDS, k requires 0 <= k < FIELDS => orders[k] - 1)
  }

  /** Every named field is known and none repeats. */
  ghost predicate Proper(fs: seq<nat>) {
    && (forall i | 0 <= i < |fs| :: fs[i] < FIELDS)
    && (forall i, j | 0 <= i < j < |fs| :: fs[i] != fs[j])
  }

  ghost predicate Permutation(order: seq<int>) {
    && |order| == FIELDS && (forall k | 0 <= k < FIELDS :: 0 <= order[k] < FIELDS)
    && (forall j, k | 0 <= j < k < FIELDS :: order[j] != order[k])
  }

  function Zero(x: int): nat { if x == 0 then 1 else 0 }

  /** The orders handed out so far are 6, 5, ... down to current + 1, each to one field; the fields
      still at 0 are as many as the orders left. */
  ghost predicate Partial(s: (seq<int>, int)) {
    && |s.0| == FIELDS
    && (forall k | 0 <= k < FIELDS :: s.0[k] == 0 || s.1 < s.0[k] <= 6)
    && (forall j, k | 0 <= j < k < FIELDS && s.0[j] != 0 :: s.0[j] != s.0[k])
    && s.1 == Zeros(s.0)
  }

  function Zeros(orders: seq<int>): nat
    requires |orders| == FIELDS
  {
    Zero(orders[0]) + Zero(orders[1]) + Zero(orders[2]) + Zero(orders[3]) + Zero(orders[4]) + Zero(orders[5])
  }

  lemma ZerosDrop(orders: seq<int>, k: nat, v: int)
    requires |orders| == FIELDS && k < FIELDS && orders[k] == 0
    ensures Zeros(orders) >= 1 && (v != 0 ==> Zeros(orders[k := v]) == Zeros(orders) - 1)
  {
  }

  lemma SetOne(s: (seq<int>, int), k: nat)
    requires Partial(s) && k < FIELDS && s.0[k] == 0
    ensures Partial((s.0[k := s.1], s.1 - 1)) && s.1 > 0
  {
    ZerosDrop(s.0, k, s.1);
  }

  lemma {:induction false} AssignPartial(fs: seq<nat>, orders: seq<int>, current: int)
    requires Partial((orders, current)) && Proper(fs)
    requires forall i | 0 <= i < |fs| :: orders[fs[i]] == 0
    ensures Partial(Assign(fs, orders, current))
    decreases |fs|
  {
    if fs != [] {
      SetOne((orders, current), fs[0]);
      var rest := fs[1..];
      assert forall i | 0 <= i < |rest| :: rest[i] == fs[i + 1];
      AssignPartial(rest, orders[fs[0] := current], current - 1);
    }
  }

  lemma FillPartial(s: (seq<int>, int), k: nat)
    requires Partial(s) && k < FIELDS
    ensures Partial(FillOne(s, k)) && FillOne(s, k).0[k] != 0
    ensures forall j | 0 <= j < FIELDS && s.0[j] != 0 :: FillOne(s, k).0[j] != 0
  {
    if s.0[k] == 0 { SetOne(s, k); }
  }

  function FirstSix(fs: seq<nat>): seq<nat> { if |fs| <= FIELDS then fs else fs[..FIELDS] }

  /** The first six named fields are known and distinct, and those after the sixth are not known. */
  ghost predicate Decisive(fs: seq<nat>) {
    Proper(FirstSix(fs)) && forall i | FIELDS <= i < |fs| :: fs[i] >= FIELDS
  }

  /** A scheme is a permutation of the fields exactly when its tokens are known and distinct, not
      counting unknown ones after a sixth. Any other unknown or repeated token uses up an order, and
      some field gets one below the least. */
  lemma SchemeIsPermutation(scheme: string)
    ensures Permutation(OrderOf(scheme)) <==> Decisive(Named(scheme))
  {
    var none := [0, 0, 0, 0, 0, 0];
    forall k | 0 <= k < FIELDS ensures k in FILL_ORDER {
      assert FILL_ORDER[if k < 2 then 4 + k else 5 - k] == k;
    }
    if Decisive(Named(scheme)) { DecisiveIsPermutation(Named(scheme), none, FILL_ORDER); }
    if Permutation(OrderOf(scheme)) { PermutationIsDecisive(Named(scheme), none, FILL_ORDER, OrderOf(scheme)); }
  }

  /** Named fields that are all known and distinct are at most six, and decisive. */
  lemma ProperIsDecisive(fs: seq<nat>)
    requires Proper(fs)
    ensures Decisive(fs) && |fs| <= FIELDS
  {
    var fields: seq<int> := seq(|fs|, i requires 0 <= i < |fs| => fs[i]);
    RangeIs(FIELDS, 0);
    forall i | 0 <= i < |fields| ensures fields[i] in Range(FIELDS) { RangeIs(FIELDS, fields[i]); }
    DistinctFit(fields, Range(FIELDS));
  }

  lemma DecisiveIsPermutation(fs: seq<nat>, none: seq<int>, ks: seq<nat>)
    requires Decisive(fs) && none == [0, 0, 0, 0, 0, 0]
    requires (forall i | 0 <= i < |ks| :: ks[i] < FIELDS) && (forall k | 0 <= k < FIELDS :: k in ks)
    ensures Permutation(seq(FIELDS, k requires 0 <= k < FIELDS => FillList(Assign(fs, none, 6), ks).0[k] - 1))
  {
    AssignPartial(FirstSix(fs), none, 6);
    FilledIsPermutation(Assign(FirstSix(fs), none, 6), ks);
    if |fs| > FIELDS {
      var rest := fs[FIELDS..];
      assert FirstSix(fs) + rest == fs;
      SixAreEnough(FirstSix(fs), rest, none, ks);
    }
  }

  /** With six fields named, later unknown tokens change no order. */
  lemma SixAreEnough(first: seq<nat>, rest: seq<nat>, none: seq<int>, ks: seq<nat>)
    requires |first| == FIELDS == |none| && (forall i | 0 <= i < |rest| :: rest[i] >= FIELDS)
    requires (forall i | 0 <= i < |ks| :: ks[i] < FIELDS) && Partial(Assign(first, none, 6))
    ensures FillList(Assign(first + rest, none, 6), ks).0 == FillList(Assign(first, none, 6), ks).0
  {
    var s, t := Assign(first, none, 6), Assign(first + rest, none, 6);
    AssignCount(first, none, 6);
    AssignAppend(first, rest, none, 6);
    UnknownChangesNothing(s, rest, ks);
    assert t == Assign(rest, s.0, s.1);
  }

  lemma UnknownChangesNothing(s: (seq<int>, int), rest: seq<nat>, ks: seq<nat>)
    requires Partial(s) && s.1 == 0 && (forall i | 0 <= i < |rest| :: rest[i] >= FIELDS)
    requires forall i | 0 <= i < |ks| :: ks[i] < FIELDS
    ensures FillList(Assign(rest, s.0, s.1), ks).0 == FillList(s, ks).0
  {
    AssignUnknown(rest, s.0, s.1);
    NoZeros(s);
    NothingToFill((s.0, s.1 - |rest|), ks);
    NothingToFill(s, ks);
  }

  lemma NoZeros(s: (seq<int>, int))
    requires Partial(s) && s.1 == 0
    ensures forall k | 0 <= k < FIELDS :: s.0[k] != 0
  {
  }

  lemma {:induction false} AssignCount(fs: seq<nat>, orders: seq<int>, current: int)
    requires |orders| == FIELDS
    ensures Assign(fs, orders, current).1 == current - |fs|
    decreases |fs|
  {
    if fs != [] { AssignCount(fs[1..], if fs[0] < FIELDS then orders[fs[0] := current] else orders, current - 1); }
  }

  lemma {:induction false} AssignAppend(a: seq<nat>, b: seq<nat>, orders: seq<int>, current: int)
    requires |orders| == FIELDS
    ensures Assign(a + b, orders, current) == (var s := Assign(a, orders, current); Assign(b, s.0, s.1))
    decreases |a|
  {
    if a == [] {
      assert a + b == b;
    } else {
      assert (a + b)[1..] == a[1..] + b;
      AssignAppend(a[1..], b, if a[0] < FIELDS then orders[a[0] := current] else orders, current - 1);
    }
  }

  lemma {:induction false} AssignUnknown(fs: seq<nat>, orders: seq<int>, current: int)
    requires |orders| == FIELDS && forall i | 0 <= i < |fs| :: fs[i] >= FIELDS
    ensures Assign(fs, orders, current) == (orders, current - |fs|)
    decreases |fs|
  {
    if fs != [] { AssignUnknown(fs[1..], orders, current - 1); }
  }

  lemma {:induction false} NothingToFill(s: (seq<int>, int), ks: seq<nat>)
    requires |s.0| == FIELDS && forall k | 0 <= k < FIELDS :: s.0[k] != 0
    requires forall i | 0 <= i < |ks| :: ks[i] < FIELDS
    ensures FillList(s, ks) == s
    decreases |ks|
  {
    if ks != [] { NothingToFill(s, ks[1..]); }
  }

  /** The last position at which a field is named, or -1. */
  function LastNamed(fs: seq<nat>, k: nat): (i: int)
    ensures -1 <= i < |fs| && (i >= 0 ==> fs[i] == k)
    ensures forall j | i < j < |fs| :: fs[j] != k
  {
    if fs == [] then -1
    else if fs[|fs| - 1] == k then |fs| - 1
    else LastNamed(fs[..|fs| - 1], k)
  }

  lemma {:induction false} AssignAt(fs: seq<nat>, orders: seq<int>, current: int, k: nat)
    requires |orders| == FIELDS && k < FIELDS
    ensures Assign(fs, orders, current).0[k] == if LastNamed(fs, k) >= 0 then current - LastNamed(fs, k) else orders[k]
    decreases |fs|
  {
    if fs != [] {
      var n := |fs| - 1;
      assert fs == fs[..n] + [fs[n]];
      AssignAppend(fs[..n], [fs[n]], orders, current);
      AssignCount(fs[..n], orders, current);
      AssignAt(fs[..n], orders, current, k);
      assert [fs[n]][1..] == [];
    }
  }

  /** Filling leaves an order alone, or gives one that is left. */
  lemma {:induction false} FillAtMost(s: (seq<int>, int), ks: seq<nat>, k: nat)
    requires |s.0| == FIELDS && k < FIELDS && forall i | 0 <= i < |ks| :: ks[i] < FIELDS
    ensures var v := FillList(s, ks).0[k]; v == s.0[k] || (s.0[k] == 0 && v <= s.1)
    decreases |ks|
  {
    if ks != [] { FillAtMost(FillOne(s, ks[0]), ks[1..], k); }
  }

  /** The final order of a field: counted from its last token, or one that the tokens left. */
  lemma FinalOrder(fs: seq<nat>, none: seq<int>, ks: seq<nat>, k: nat)
    requires none == [0, 0, 0, 0, 0, 0] && k < FIELDS && forall i | 0 <= i < |ks| :: ks[i] < FIELDS
    ensures var v := FillList(Assign(fs, none, 6), ks).0[k];
      && (v > 0 && v > 6 - |fs| ==> v == 6 - LastNamed(fs, k) && LastNamed(fs, k) >= 0)
      && (LastNamed(fs, k) >= 6 ==> v <= 0)
  {
    AssignCount(fs, none, 6);
    AssignAt(fs, none, 6, k);
    FillAtMost(Assign(fs, none, 6), ks, k);
  }

  lemma PermutationIsDecisive(fs: seq<nat>, none: seq<int>, ks: seq<nat>, order: seq<int>)
    requires none == [0, 0, 0, 0, 0, 0] && (forall i | 0 <= i < |ks| :: ks[i] < FIELDS) && Permutation(order)
    requires forall k | 0 <= k < FIELDS :: order[k] == FillList(Assign(fs, none, 6), ks).0[k] - 1
    ensures Decisive(fs)
  {
    forall i | 0 <= i < |FirstSix(fs)| ensures fs[i] < FIELDS && LastNamed(fs, fs[i]) == i {
      NoneMissing(order, 5 - i);
      var k :| 0 <= k < FIELDS && order[k] == 5 - i;
      FinalOrder(fs, none, ks, k);
    }
    forall i | FIELDS <= i < |fs| ensures fs[i] >= FIELDS {
      if fs[i] < FIELDS {
        FinalOrder(fs, none, ks, fs[i]);
      }
    }
    LastAreDistinct(fs);
  }

  lemma LastAreDistinct(fs: seq<nat>)
    requires forall i | 0 <= i < |FirstSix(fs)| :: fs[i] < FIELDS && LastNamed(fs, fs[i]) == i
    ensures Proper(FirstSix(fs))
  {
    var first := FirstSix(fs);
    assert forall i | 0 <= i < |first| :: first[i] == fs[i];
    forall i, j | 0 <= i < j < |first| ensures first[i] != first[j] {
      assert LastNamed(fs, fs[i]) == i && LastNamed(fs, fs[j]) == j;
    }
  }

  lemma FilledIsPermutation(s: (seq<int>, int), ks: seq<nat>)
    requires Partial(s) && (forall i | 0 <= i < |ks| :: ks[i] < FIELDS) && (forall k | 0 <= k < FIELDS :: k in ks)
    ensures Permutation(seq(FIELDS, k requires 0 <= k < FIELDS => FillList(s, ks).0[k] - 1))
  {
    FillListPartial(s, ks);
    var t := FillList(s, ks);
    forall k | 0 <= k < FIELDS ensures t.0[k] != 0 {
      assert k in ks;
    }
  }

  lemma {:induction false} FillListPartial(s: (seq<int>, int), ks: seq<nat>)
    requires Partial(s) && forall i | 0 <= i < |ks| :: ks[i] < FIELDS
    ensures Partial(FillList(s, ks))
    ensures forall j | 0 <= j < FIELDS && s.0[j] != 0 :: FillList(s, ks).0[j] != 0
    ensures forall i | 0 <= i < |ks| :: FillList(s, ks).0[ks[i]] != 0
    decreases |ks|
  {
    if ks != [] {
      FillPartial(s, ks[0]);
      FillListPartial(FillOne(s, ks[0]), ks[1..]);
      forall i | 0 <= i < |ks| ensures FillList(s, ks).0[ks[i]] != 0 {
        assert i > 0 ==> ks[i] == ks[1..][i - 1];
      }
    }
  }

  // ------------------------------------------------------------------ translation

  /** `FindOrder`: the field at position `i`, counted from the least significant; FIELDS if none. */
  function FieldAt(order: seq<int>, i: int): (k: nat)
    requires |order| == FIELDS
    ensures k < FIELDS ==> order[k] == i
    ensures k == FIELDS ==> forall j | 0 <= j < FIELDS :: order[j] != i
    ensures k <= FIELDS
  {
    if order[0] == i then 0 else if order[1] == i then 1 else if order[2] == i then 2
    else if order[3] == i then 3 else if order[4] == i then 4 else if order[5] == i then 5 else FIELDS
  }

  lemma PermutationCovers(order: seq<int>, i: int)
    requires Permutation(order) && 0 <= i < FIELDS
    ensures FieldAt(order, i) < FIELDS
  {
    NoneMissing(order, i);
  }

  lemma NoneMissing(order: seq<int>, i: int)
    requires Permutation(order) && 0 <= i < FIELDS
    ensures exists j | 0 <= j < FIELDS :: order[j] == i
  {
    if forall j | 0 <= j < FIELDS :: order[j] != i {
      RangeIs(FIELDS, i);
      forall k | 0 <= k < |order| ensures order[k] in Range(FIELDS) - {i} { RangeIs(FIELDS, order[k]); }
      DistinctFit(order, Range(FIELDS) - {i});
    }
  }

  function Range(n: nat): set<int> {
    if n == 0 then {} else Range(n - 1) + {n - 1}
  }

  lemma {:induction false} RangeIs(n: nat, x: int)
    ensures x in Range(n) <==> 0 <= x < n
    ensures |Range(n)| == n
  {
    if n > 0 {
      RangeIs(n - 1, x);
      RangeIs(n - 1, n - 1);
    }
  }

  lemma {:induction false} DistinctFit(s: seq<int>, room: set<int>)
    requires forall j, k | 0 <= j < k < |s| :: s[j] != s[k]
    requires forall k | 0 <= k < |s| :: s[k] in room
    ensures |s| <= |room|
  {
    if s != [] {
      DistinctFit(s[1..], room - {s[0]});
    }
  }

  lemma FieldAtInverse(order: seq<int>, k: nat)
    requires Permutation(order) && k < FIELDS
    ensures FieldAt(order, order[k]) == k
  {
    PermutationCovers(order, order[k]);
  }

  /** The order and the width in bits of each field. */
  datatype Layout = Layout(order: seq<int>, bits: seq<nat>)
  {
    ghost predicate Ok() {
      Permutation(order) && |bits| == FIELDS
    }

    function Field(i: nat): nat
      requires |order| == FIELDS
    {
      FieldAt(order, i)
    }

    /** The sizes of the fields, least significant first. */
    ghost function Bases(): (bs: seq<nat>)
      requires Ok()
      ensures |bs| == FIELDS && forall i | 0 <= i < FIELDS :: bs[i] > 0
    {
      seq(FIELDS, i requires 0 <= i < FIELDS && Ok() => PermutationCovers(order, i); Pow2(bits[Field(i)]))
    }

    /** Every coordinate fits its field. */
    ghost predicate Fits(c: seq<nat>) {
      |c| == FIELDS && |bits| == FIELDS && forall k | 0 <= k < FIELDS :: c[k] < Pow2(bits[k])
    }

    /** The coordinates, least significant first. */
    ghost function Arranged(c: seq<nat>): (ds: seq<nat>)
      requires Ok() && |c| == FIELDS
      ensures |ds| == FIELDS
    {
      seq(FIELDS, i requires 0 <= i < FIELDS && Ok() && |c| == FIELDS => PermutationCovers(order, i); c[Field(i)])
    }

    /** The coordinates of a physical address; `burst` is the size of a burst in bytes. */
    ghost function Coordinates(a: nat, burst: nat): (c: seq<nat>)
      requires Ok() && burst > 0
      ensures |c| == FIELDS
    {
      var ds := Decode(a / burst, Bases());
      seq(FIELDS, k requires 0 <= k < FIELDS && Ok() && |ds| == FIELDS => ds[order[k]])
    }

    /** The physical address of coordinates. */
    ghost function Address(c: seq<nat>, burst: nat): nat
      requires Ok() && |c| == FIELDS
    {
      Encode(Arranged(c), Bases()) * burst
    }

    ghost function Capacity(burst: nat): nat
      requires Ok()
    {
      Product(Bases()) * burst
    }
  }

  lemma ArrangedDigits(l: Layout, c: seq<nat>)
    requires l.Ok() && l.Fits(c)
    ensures Digits(l.Arranged(c), l.Bases())
  {
    forall i | 0 <= i < FIELDS ensures l.Arranged(c)[i] < l.Bases()[i] {
      PermutationCovers(l.order, i);
    }
  }

  /** Translating the address of coordinates gives them back, for every layout. */
  lemma CoordinatesOfAddress(l: Layout, c: seq<nat>, burst: nat)
    requires l.Ok() && l.Fits(c) && burst > 0
    ensures l.Coordinates(l.Address(c, burst), burst) == c
    ensures l.Address(c, burst) < l.Capacity(burst)
  {
    ArrangedDigits(l, c);
    AddressDecodes(l.Arranged(c), l.Bases(), burst);
    forall k | 0 <= k < FIELDS ensures l.Coordinates(l.Address(c, burst), burst)[k] == c[k] {
      FieldAtInverse(l.order, k);
    }
  }

  lemma AddressDecodes(ds: seq<nat>, bs: seq<nat>, burst: nat)
    requires Digits(ds, bs) && burst > 0 && forall i | 0 <= i < |bs| :: bs[i] > 0
    ensures Decode(Encode(ds, bs) * burst / burst, bs) == ds && Encode(ds, bs) * burst < Product(bs) * burst
  {
    DecodeEncode(ds, bs);
    EncodeBound(ds, bs);
    ExactQuotient(Encode(ds, bs), burst);
    MulLe(Encode(ds, bs) + 1, Product(bs), burst);
    assert (Encode(ds, bs) + 1) * burst == Encode(ds, bs) * burst + burst;
  }

  lemma ExactQuotient(x: nat, d: nat)
    requires d > 0
    ensures (x * d) / d == x && (x * d) % d == 0
  {
    SplitDigit(0, x, d);
    assert x * d == 0 + d * x;
  }

  /** The address of an address's coordinates is the address with its offset in the burst cleared,
      for every address the memory has. */
  lemma AddressOfCoordinates(l: Layout, a: nat, burst: nat)
    requires l.Ok() && burst > 0 && a < l.Capacity(burst)
    ensures l.Address(l.Coordinates(a, burst), burst) == a - a % burst
    ensures l.Fits(l.Coordinates(a, burst))
  {
    var bs := l.Bases();
    var c := l.Coordinates(a, burst);
    assert Product(bs) * burst == burst * Product(bs);
    QuotientBelow(a, burst, Product(bs));
    EncodeDecode(a / burst, bs);
    var ds := Decode(a / burst, bs);
    forall i | 0 <= i < FIELDS ensures l.Arranged(c)[i] == ds[i] {
      PermutationCovers(l.order, i);
    }
    assert l.Arranged(c) == ds;
    CoordinatesFit(l, a, burst);
  }

  /** Every decoded field is below two to its width. */
  lemma CoordinatesFit(l: Layout, a: nat, burst: nat)
    requires l.Ok() && burst > 0
    ensures l.Fits(l.Coordinates(a, burst))
  {
    var bs := l.Bases();
    DecodeDigits(a / burst, bs);
    forall k | 0 <= k < FIELDS ensures l.Coordinates(a, burst)[k] < Pow2(l.bits[k]) {
      FieldAtInverse(l.order, k);
      assert Decode(a / burst, bs)[l.order[k]] < bs[l.order[k]];
    }
  }

  /** Different coordinates have different addresses, and every burst-aligned address of the memory
      belongs to some: the map is a bijection. */
  lemma AddressMapBijective(l: Layout, c: seq<nat>, c': seq<nat>, a: nat, burst: nat)
    requires l.Ok() && burst > 0 && l.Fits(c) && l.Fits(c')
    ensures l.Address(c, burst) == l.Address(c', burst) ==> c == c'
    ensures a < l.Capacity(burst) && a % burst == 0 ==> exists x :: l.Fits(x) && l.Address(x, burst) == a
  {
    CoordinatesOfAddress(l, c, burst);
    CoordinatesOfAddress(l, c', burst);
    if a < l.Capacity(burst) && a % burst == 0 {
      AddressOfCoordinates(l, a, burst);
    }
  }
}
