/**
 Where the fields of an address lie: the significance each token of a mapping scheme gives its field,
 and the bits of a physical address that hold a coordinate.
 */
module AddressFields {
  import opened Arithmetic
  import opened AddressMap

  // ------------------------------------------------------------------ significance

  const ROW: nat := 0
  const COL: nat := 1
  const BANK: nat := 2
  const RANK: nat := 3
  const CHANNEL: nat := 4
  const SUBARRAY: nat := 5

  predicate Word(t: string) { t != "" && ':' !in t }

  /** Words with colons between them. */
  function Joined(ts: seq<string>): string {
    if ts == [] then "" else if |ts| == 1 then ts[0] else ts[0] + ":" + Joined(ts[1..])
  }

  lemma {:induction false} PiecesWord(w: string, rest: string, piece: string)
    requires ':' !in w
    ensures Pieces(w + rest, piece) == Pieces(rest, piece + w)
    decreases |w|
  {
    if w == "" {
      assert w + rest == rest && piece + w == piece;
    } else {
      assert (w + rest)[0] == w[0] && (w + rest)[1..] == w[1..] + rest;
      PiecesWord(w[1..], rest, piece + [w[0]]);
      assert piece + [w[0]] + w[1..] == piece + w;
    }
  }

  /** The tokens of words joined by colons are the words. */
  lemma {:induction false} TokensOfJoined(ts: seq<string>)
    requires forall i | 0 <= i < |ts| :: Word(ts[i])
    ensures Tokens(Joined(ts)) == ts
  {
    if ts != [] {
      var t, rest := ts[0], ts[1..];
      assert "" + t == t;
      if rest == [] {
        PiecesWord(t, "", "");
        assert t + "" == t && ts == [t];
      } else {
        var tail := ":" + Joined(rest);
        PiecesWord(t, tail, "");
        assert t + ":" + Joined(rest) == t + tail;
        assert tail[1..] == Joined(rest);
        TokensOfJoined(rest);
        assert ts == [t] + rest;
      }
    }
  }

  /** Those of the fields `ks` that are not among `fs`. */
  function Unnamed(fs: seq<nat>, ks: seq<nat>): (r: seq<nat>)
    ensures forall i | 0 <= i < |r| :: r[i] in ks && r[i] !in fs
    ensures forall k | k in ks && k !in fs :: k in r
  {
    if ks == [] then [] else (if ks[0] in fs then [] else [ks[0]]) + Unnamed(fs, ks[1..])
  }

  /** The fields in the order of a scheme, the most significant first: as its tokens name them, then
      subarray, channel, rank, bank, row and column as far as they have no token. */
  function Ranking(fs: seq<nat>): seq<nat> { fs + Unnamed(fs, FILL_ORDER) }

  ghost predicate Distinct(ks: seq<nat>) {
    forall i, j | 0 <= i < j < |ks| :: ks[i] != ks[j]
  }

  /** Those of the fields `ks` that have no order yet. */
  function Missing(orders: seq<int>, ks: seq<nat>): seq<nat>
    requires |orders| == FIELDS && forall i | 0 <= i < |ks| :: ks[i] < FIELDS
  {
    if ks == [] then [] else (if orders[ks[0]] == 0 then [ks[0]] else []) + Missing(orders, ks[1..])
  }

  lemma {:induction false} MissingSame(orders: seq<int>, k: nat, v: int, ks: seq<nat>)
    requires |orders| == FIELDS && k < FIELDS && (forall i | 0 <= i < |ks| :: ks[i] < FIELDS) && k !in ks
    ensures Missing(orders[k := v], ks) == Missing(orders, ks)
    decreases |ks|
  {
    if ks != [] { MissingSame(orders, k, v, ks[1..]); }
  }

  lemma {:induction false} MissingIsUnnamed(orders: seq<int>, fs: seq<nat>, ks: seq<nat>)
    requires |orders| == FIELDS && (forall i | 0 <= i < |ks| :: ks[i] < FIELDS)
    requires forall k | 0 <= k < FIELDS :: orders[k] == 0 <==> k !in fs
    ensures Missing(orders, ks) == Unnamed(fs, ks)
    decreases |ks|
  {
    if ks != [] { MissingIsUnnamed(orders, fs, ks[1..]); }
  }

  /** Filling goes on as if the missing fields had tokens. */
  lemma {:induction false} FillIsAssign(s: (seq<int>, int), ks: seq<nat>)
    requires Partial(s) && (forall i | 0 <= i < |ks| :: ks[i] < FIELDS) && Distinct(ks)
    ensures FillList(s, ks) == Assign(Missing(s.0, ks), s.0, s.1)
    decreases |ks|
  {
    if ks != [] {
      var k, rest := ks[0], ks[1..];
      assert forall i | 0 <= i < |rest| :: rest[i] == ks[i + 1];
      FillPartial(s, k);
      FillIsAssign(FillOne(s, k), rest);
      if s.0[k] == 0 {
        MissingSame(s.0, k, s.1, rest);
        var m := Missing(s.0, rest);
        assert Missing(s.0, ks) == [k] + m;
        assert ([k] + m)[1..] == m;
      } else {
        assert Missing(s.0, ks) == [] + Missing(s.0, rest) == Missing(s.0, rest);
      }
    }
  }

  lemma {:induction false} UnnamedDistinct(fs: seq<nat>, ks: seq<nat>)
    requires Distinct(ks)
    ensures Distinct(Unnamed(fs, ks))
    decreases |ks|
  {
    if ks != [] {
      var rest := ks[1..];
      assert forall i | 0 <= i < |rest| :: rest[i] == ks[i + 1];
      UnnamedDistinct(fs, rest);
    }
  }

  lemma AppendDistinct(a: seq<nat>, b: seq<nat>)
    requires Distinct(a) && Distinct(b) && forall i | 0 <= i < |b| :: b[i] !in a
    ensures Distinct(a + b)
  {
    var c := a + b;
    forall i, j | 0 <= i < j < |c| ensures c[i] != c[j] {
      if i < |a| <= j { assert c[j] == b[j - |a|] && c[i] in a; }
    }
  }

  lemma LastIs(fs: seq<nat>, i: nat)
    requires Distinct(fs) && i < |fs|
    ensures LastNamed(fs, fs[i]) == i
  {
    var j := LastNamed(fs, fs[i]);
    assert j >= i;
  }

  /** The orders a ranking hands out. */
  lemma RankingOrders(fs: seq<nat>, none: seq<int>, ks: seq<nat>)
    requires none == [0, 0, 0, 0, 0, 0] && Proper(fs) && |fs| <= FIELDS
    requires (forall i | 0 <= i < |ks| :: ks[i] < FIELDS) && Distinct(ks)
    ensures FillList(Assign(fs, none, 6), ks).0 == Assign(fs + Unnamed(fs, ks), none, 6).0
  {
    var s := Assign(fs, none, 6);
    AssignPartial(fs, none, 6);
    FillIsAssign(s, ks);
    forall k | 0 <= k < FIELDS ensures s.0[k] == 0 <==> k !in fs { AssignAt(fs, none, 6, k); }
    MissingIsUnnamed(s.0, fs, ks);
    AssignAppend(fs, Unnamed(fs, ks), none, 6);
  }

  lemma RankingAt(fs: seq<nat>, none: seq<int>, ks: seq<nat>, i: nat)
    requires none == [0, 0, 0, 0, 0, 0] && Proper(fs) && |fs| <= FIELDS
    requires (forall i | 0 <= i < |ks| :: ks[i] < FIELDS) && Distinct(ks) && i < |fs + Unnamed(fs, ks)|
    ensures var k := (fs + Unnamed(fs, ks))[i]; k < FIELDS && FillList(Assign(fs, none, 6), ks).0[k] == 6 - i
  {
    var all := fs + Unnamed(fs, ks);
    UnnamedDistinct(fs, ks);
    AppendDistinct(fs, Unnamed(fs, ks));
    LastIs(all, i);
    assert all[i] < FIELDS by { if i >= |fs| { assert all[i] == Unnamed(fs, ks)[i - |fs|] && all[i] in ks; } }
    RankingOrders(fs, none, ks);
    AssignAt(all, none, 6, all[i]);
  }

  /** An earlier token names a more significant field, and a field without a token comes after all that
      have one: place `i` of the ranking has order 5 - i. */
  lemma TokensRank(scheme: string, i: nat)
    requires Decisive(Named(scheme)) && i < |Ranking(FirstSix(Named(scheme)))|
    ensures
      var k := Ranking(FirstSix(Named(scheme)))[i];
      k < FIELDS && OrderOf(scheme)[k] == 5 - i
  {
    RankingDecides(Named(scheme), [0, 0, 0, 0, 0, 0], FILL_ORDER, i);
  }

  lemma RankingDecides(fs: seq<nat>, none: seq<int>, ks: seq<nat>, i: nat)
    requires none == [0, 0, 0, 0, 0, 0] && Decisive(fs)
    requires (forall i | 0 <= i < |ks| :: ks[i] < FIELDS) && Distinct(ks)
    requires i < |FirstSix(fs) + Unnamed(FirstSix(fs), ks)|
    ensures
      var k := (FirstSix(fs) + Unnamed(FirstSix(fs), ks))[i];
      k < FIELDS && FillList(Assign(fs, none, 6), ks).0[k] == 6 - i
  {
    var first := FirstSix(fs);
    RankingAt(first, none, ks, i);
    if |fs| > FIELDS {
      assert first + fs[FIELDS..] == fs;
      AssignPartial(first, none, 6);
      SixAreEnough(first, fs[FIELDS..], none, ks);
    }
  }

  /** Which field each token stands for: token `i` of a scheme puts it at order 5 - i. */
  lemma TokenOrder(scheme: string, i: nat)
    requires Decisive(Named(scheme)) && i < |Tokens(scheme)| && i < FIELDS
    ensures
      var order, token := OrderOf(scheme), Tokens(scheme)[i];
      && (token == "R" <==> order[ROW] == 5 - i) && (token == "C" <==> order[COL] == 5 - i)
      && (token == "BK" <==> order[BANK] == 5 - i) && (token == "RK" <==> order[RANK] == 5 - i)
      && (token == "CH" <==> order[CHANNEL] == 5 - i) && (token == "SA" <==> order[SUBARRAY] == 5 - i)
  {
    var fs, order := Named(scheme), OrderOf(scheme);
    var first := FirstSix(fs);
    assert first[i] == fs[i] == FieldOf(Tokens(scheme)[i]);
    assert Ranking(first)[i] == first[i];
    TokensRank(scheme, i);
    SchemeIsPermutation(scheme);
    assert forall k | 0 <= k < FIELDS && order[k] == 5 - i :: k == fs[i];
  }

  // ------------------------------------------------------------------ the bits of a field

  /** The bits of the fields among the first `m` that are less significant than position `i`. */
  function BitsBelow(l: Layout, i: int, m: nat): nat
    requires |l.order| == FIELDS == |l.bits| && m <= FIELDS
  {
    if m == 0 then 0 else BitsBelow(l, i, m - 1) + if l.order[m - 1] < i then l.bits[m - 1] else 0
  }

  lemma {:induction false} BitsBelowStep(l: Layout, i: nat, m: nat)
    requires l.Ok() && i < FIELDS && m <= FIELDS && l.Field(i) < FIELDS
    ensures BitsBelow(l, i + 1, m) == BitsBelow(l, i, m) + if l.Field(i) < m then l.bits[l.Field(i)] else 0
    decreases m
  {
    if m > 0 {
      BitsBelowStep(l, i, m - 1);
      assert l.order[m - 1] == i <==> m - 1 == l.Field(i);
    }
  }

  lemma {:induction false} NoneBelow(l: Layout, m: nat)
    requires l.Ok() && m <= FIELDS
    ensures BitsBelow(l, 0, m) == 0
    decreases m
  {
    if m > 0 { NoneBelow(l, m - 1); }
  }

  lemma {:induction false} ProductAppend(a: seq<nat>, b: nat)
    ensures Product(a + [b]) == Product(a) * b
  {
    if a == [] {
      assert a + [b] == [b] && [b][1..] == [];
      assert Product([b]) == b * Product([]);
    } else {
      assert (a + [b])[1..] == a[1..] + [b];
      ProductAppend(a[1..], b);
      MulAssoc(a[0], Product(a[1..]), b);
    }
  }

  /** The fields less significant than position `i` together take that many bits. */
  lemma {:induction false} SizesBelow(l: Layout, i: nat)
    requires l.Ok() && i <= FIELDS
    ensures Product(l.Bases()[..i]) == Pow2(BitsBelow(l, i, FIELDS))
    decreases i
  {
    if i == 0 {
      NoneBelow(l, FIELDS);
      assert l.Bases()[..0] == [];
    } else {
      var bs := l.Bases();
      SizesBelow(l, i - 1);
      PermutationCovers(l.order, i - 1);
      assert bs[..i] == bs[..i - 1] + [bs[i - 1]];
      ProductAppend(bs[..i - 1], bs[i - 1]);
      BitsBelowStep(l, i - 1, FIELDS);
      Pow2Add(BitsBelow(l, i - 1, FIELDS), l.bits[l.Field(i - 1)]);
    }
  }

  lemma {:induction false} ProductPositive(bs: seq<nat>)
    requires forall i | 0 <= i < |bs| :: bs[i] > 0
    ensures Product(bs) > 0
  {
    if bs != [] {
      ProductPositive(bs[1..]);
      MulLe(1, bs[0], Product(bs[1..]));
    }
  }

  /** One digit of a mixed-radix number. */
  lemma {:induction false} DecodeAt(a: nat, bs: seq<nat>, i: nat)
    requires (forall j | 0 <= j < |bs| :: bs[j] > 0) && i < |bs|
    ensures Product(bs[..i]) > 0 && Decode(a, bs)[i] == a / Product(bs[..i]) % bs[i]
    decreases |bs|
  {
    ProductPositive(bs[..i]);
    if i == 0 {
      assert bs[..0] == [];
    } else {
      DecodeAt(a / bs[0], bs[1..], i - 1);
      assert bs[..i][1..] == bs[1..][..i - 1] && bs[..i][0] == bs[0];
      QuotientTwice(a, bs[0], Product(bs[1..][..i - 1]));
    }
  }

  /** The bits of an address that hold a coordinate: above the offset in the burst, behind those of all
      less significant fields. */
  lemma FieldBits(l: Layout, a: nat, burst: nat, k: nat)
    requires l.Ok() && burst > 0 && k < FIELDS
    ensures l.Coordinates(a, burst)[k] == a / burst / Pow2(BitsBelow(l, l.order[k], FIELDS)) % Pow2(l.bits[k])
  {
    FieldAtInverse(l.order, k);
    DecodeAt(a / burst, l.Bases(), l.order[k]);
    SizesBelow(l, l.order[k]);
  }

  function BitSum(bits: seq<nat>, m: nat): nat
    requires m <= |bits|
  {
    if m == 0 then 0 else BitSum(bits, m - 1) + bits[m - 1]
  }

  /** Below the topmost field are all the others. */
  lemma {:induction false} TopAbove(l: Layout, k: nat, m: nat)
    requires l.Ok() && k < FIELDS && l.order[k] == 5 && m <= FIELDS
    ensures BitsBelow(l, 5, m) + (if k < m then l.bits[k] else 0) == BitSum(l.bits, m)
    decreases m
  {
    if m > 0 {
      TopAbove(l, k, m - 1);
      assert l.order[m - 1] < 5 <==> m - 1 != k;
    }
  }

  lemma SixBits(bits: seq<nat>)
    requires |bits| == 6
    ensures BitSum(bits, 6) == bits[0] + bits[1] + bits[2] + bits[3] + bits[4] + bits[5]
  {
    assert BitSum(bits, 1) == bits[0];
    assert BitSum(bits, 2) == bits[0] + bits[1];
    assert BitSum(bits, 3) == bits[0] + bits[1] + bits[2];
    assert BitSum(bits, 4) == bits[0] + bits[1] + bits[2] + bits[3];
    assert BitSum(bits, 5) == bits[0] + bits[1] + bits[2] + bits[3] + bits[4];
  }

  /** A scheme that starts with R puts the row into the topmost bits, above all other fields. */
  lemma RowOnTop(scheme: string, l: Layout, a: nat, burst: nat)
    requires Decisive(Named(scheme)) && Tokens(scheme) != [] && Tokens(scheme)[0] == "R"
    requires l.order == OrderOf(scheme) && |l.bits| == FIELDS && burst > 0
    ensures
      var others := l.bits[COL] + l.bits[BANK] + l.bits[RANK] + l.bits[CHANNEL] + l.bits[SUBARRAY];
      l.Ok() && l.Coordinates(a, burst)[ROW] == a / burst / Pow2(others) % Pow2(l.bits[ROW])
  {
    TokenOrder(scheme, 0);
    SchemeIsPermutation(scheme);
    TopAbove(l, ROW, FIELDS);
    SixBits(l.bits);
    FieldBits(l, a, burst, ROW);
  }
}
