/**
 The row-buffer cache of a cached bank: a small list of row buffers, most recently used first.
 */
module RowCache {
  import opened Arithmetic

  /** A cached row. A buffer that was never bound holds no columns. */
  datatype Buffer = Buffer(
    used: bool, row: nat, dirty: seq<bool>, colStart: nat, colEnd: nat, readHits: nat, writeHits: nat)
  {
    predicate Holds(r: nat, col: nat) { row == r && colStart <= col < colEnd }
  }

  /** The buffers and the counters `RDBAllocations`, `writebackCount`, `RDBReads` and `RDBWrites`. */
  datatype Cache = Cache(buffers: seq<Buffer>, allocations: nat, writebacks: nat, readHits: nat, writeHits: nat)

  // ------------------------------------------------------------------ dirty words

  function DirtyWords(d: seq<bool>): nat {
    if d == [] then 0 else DirtyWords(d[..|d| - 1]) + (if d[|d| - 1] then 1 else 0)
  }

  function Clean(size: nat): (d: seq<bool>)
    ensures |d| == size
  {
    seq(size, _ => false)
  }

  lemma {:induction false} CleanHasNone(d: seq<bool>)
    ensures DirtyWords(d) == 0 <==> forall k | 0 <= k < |d| :: !d[k]
  {
    if d != [] { CleanHasNone(d[..|d| - 1]); }
  }

  lemma {:induction false} DirtyOne(d: seq<bool>, k: nat)
    requires k < |d|
    ensures DirtyWords(d[k := true]) == DirtyWords(d) + (if d[k] then 0 else 1)
  {
    var m := |d| - 1;
    if k < m {
      DirtyOne(d[..m], k);
      assert d[k := true][..m] == d[..m][k := true];
    } else {
      assert d[k := true][..m] == d[..m];
    }
  }

  function TotalDirty(bs: seq<Buffer>): nat {
    if bs == [] then 0 else DirtyWords(bs[0].dirty) + TotalDirty(bs[1..])
  }

  lemma {:induction false} TotalAppend(a: seq<Buffer>, b: seq<Buffer>)
    ensures TotalDirty(a + b) == TotalDirty(a) + TotalDirty(b)
  {
    if a == [] {
      assert a + b == b;
    } else {
      TotalAppend(a[1..], b);
      assert (a + b)[1..] == a[1..] + b;
    }
  }

  lemma TotalSplit(bs: seq<Buffer>, i: nat)
    requires i < |bs|
    ensures TotalDirty(bs) == TotalDirty(bs[..i]) + DirtyWords(bs[i].dirty) + TotalDirty(bs[i + 1..])
  {
    assert bs == bs[..i] + bs[i..];
    TotalAppend(bs[..i], bs[i..]);
    assert bs[i..][1..] == bs[i + 1..];
  }

  lemma TotalUpdate(bs: seq<Buffer>, i: nat, b: Buffer)
    requires i < |bs|
    ensures TotalDirty(bs[i := b]) == TotalDirty(bs) - DirtyWords(bs[i].dirty) + DirtyWords(b.dirty)
  {
    TotalSplit(bs, i);
    TotalSplit(bs[i := b], i);
    assert bs[i := b][..i] == bs[..i] && bs[i := b][i + 1..] == bs[i + 1..];
  }

  // ------------------------------------------------------------------ moving to the front

  function MovedToFront(bs: seq<Buffer>, i: nat): (r: seq<Buffer>)
    requires i < |bs|
    ensures |r| == |bs|
  {
    [bs[i]] + bs[..i] + bs[i + 1..]
  }

  lemma MovedAt(bs: seq<Buffer>, i: nat)
    requires i < |bs|
    ensures forall k {:trigger MovedToFront(bs, i)[k]} | 0 <= k < |bs| ::
      MovedToFront(bs, i)[k] == if k == 0 then bs[i] else if k <= i then bs[k - 1] else bs[k]
  {
    forall k {:trigger MovedToFront(bs, i)[k]} | 0 <= k < |bs|
      ensures MovedToFront(bs, i)[k] == if k == 0 then bs[i] else if k <= i then bs[k - 1] else bs[k]
    {
      MovedOne(bs[i], bs[..i], bs[i + 1..], k);
    }
  }

  lemma MovedOne(b: Buffer, x: seq<Buffer>, y: seq<Buffer>, k: nat)
    requires k < |x| + 1 + |y|
    ensures ([b] + x + y)[k] == if k == 0 then b else if k <= |x| then x[k - 1] else y[k - 1 - |x|]
  {
    assert k <= |x| ==> ([b] + x + y)[k] == ([b] + x)[k];
  }

  /** Moving to the front is a permutation that keeps the order of the other buffers. */
  lemma MoveFacts(bs: seq<Buffer>, i: nat)
    requires i < |bs|
    ensures multiset(MovedToFront(bs, i)) == multiset(bs) && MovedToFront(bs, i)[0] == bs[i]
    ensures forall k {:trigger MovedToFront(bs, i)[k]} | 0 <= k < |bs| ::
      MovedToFront(bs, i)[k] == if k == 0 then bs[i] else if k <= i then bs[k - 1] else bs[k]
    ensures TotalDirty(MovedToFront(bs, i)) == TotalDirty(bs)
  {
    MovedAt(bs, i);
    MovedTotal(bs, i);
    Joined(bs, bs[i], bs[..i], bs[i + 1..]);
  }

  lemma MovedTotal(bs: seq<Buffer>, i: nat)
    requires i < |bs|
    ensures TotalDirty(MovedToFront(bs, i)) == TotalDirty(bs)
  {
    TotalSplit(bs, i);
    TotalFront(bs[i], bs[..i], bs[i + 1..]);
  }

  lemma TotalFront(b: Buffer, x: seq<Buffer>, y: seq<Buffer>)
    ensures TotalDirty([b] + x + y) == TotalDirty(x) + DirtyWords(b.dirty) + TotalDirty(y)
  {
    TotalAppend([b] + x, y);
    assert ([b] + x)[1..] == x;
  }

  lemma Joined(bs: seq<Buffer>, b: Buffer, x: seq<Buffer>, y: seq<Buffer>)
    requires |x| < |bs| && bs[|x|] == b && bs[..|x|] == x && bs[|x| + 1..] == y
    ensures multiset([b] + x + y) == multiset(bs)
  {
    assert bs == x + [b] + y;
  }

  // ------------------------------------------------------------------ the commands

  /** The first buffer that holds a word, or the number of buffers. */
  function Hit(bs: seq<Buffer>, row: nat, col: nat): (i: nat)
    ensures i <= |bs| && (i < |bs| ==> bs[i].Holds(row, col))
    ensures forall k | 0 <= k < i :: !bs[k].Holds(row, col)
  {
    if bs == [] then 0 else if bs[0].Holds(row, col) then 0
    else
      var i := Hit(bs[1..], row, col);
      assert forall k | 1 <= k < |bs| :: bs[k] == bs[1..][k - 1];
      1 + i
  }

  /** The first buffer that is bound to a row or unused, or the number of buffers. */
  function Slot(bs: seq<Buffer>, row: nat): (i: nat)
    ensures i <= |bs| && (i < |bs| ==> !bs[i].used || bs[i].row == row)
    ensures forall k | 0 <= k < i :: bs[k].used && bs[k].row != row
  {
    if bs == [] then 0 else if !bs[0].used || bs[0].row == row then 0
    else
      var i := Slot(bs[1..], row);
      assert forall k | 1 <= k < |bs| :: bs[k] == bs[1..][k - 1];
      1 + i
  }

  function Bound(b: Buffer, row: nat, col: nat, size: nat): Buffer
    requires 0 < size
  {
    var start := col - col % size;
    Buffer(true, row, b.dirty, start, start + size, 0, 0)
  }

  /** `Activate`: a row that has a buffer keeps it; otherwise the first unused buffer is bound to
      it, or the last buffer after its dirty words are written back. */
  function Activated(c: Cache, row: nat, col: nat, size: nat): Cache
    requires 0 < size && c.buffers != []
  {
    var bs := c.buffers;
    var i := Slot(bs, row);
    if i < |bs| && bs[i].used then c
    else if i < |bs| then
      c.(buffers := bs[i := Bound(bs[i], row, col, size)], allocations := c.allocations + 1)
    else
      var last := |bs| - 1;
      var victim := Bound(bs[last], row, col, size).(dirty := Clean(size));
      c.(buffers := bs[last := victim], allocations := c.allocations + 1,
         writebacks := c.writebacks + DirtyWords(bs[last].dirty))
  }

  /** `Read`: a hit moves its buffer to the front; a miss goes to the bank. */
  function WithRead(c: Cache, row: nat, col: nat): Cache {
    var i := Hit(c.buffers, row, col);
    if i < |c.buffers| then
      var bs := c.buffers[i := c.buffers[i].(readHits := c.buffers[i].readHits + 1)];
      c.(buffers := MovedToFront(bs, i), readHits := c.readHits + 1)
    else c
  }

  /** `Write`: with writable buffers, a hit marks its word dirty and moves its buffer to the front. */
  function WithWrite(c: Cache, readOnly: bool, row: nat, col: nat): Cache {
    var i := Hit(c.buffers, row, col);
    if !readOnly && i < |c.buffers| && col < |c.buffers[i].dirty| then
      var b := c.buffers[i];
      var bs := c.buffers[i := b.(dirty := b.dirty[col := true], writeHits := b.writeHits + 1)];
      c.(buffers := MovedToFront(bs, i), writeHits := c.writeHits + 1)
    else c
  }

  // ------------------------------------------------------------------ the invariant

  ghost predicate UsedPrefix(bs: seq<Buffer>) {
    forall i, j | 0 <= i < j < |bs| && bs[j].used :: bs[i].used
  }

  ghost predicate DistinctRows(bs: seq<Buffer>) {
    forall i, j | 0 <= i < j < |bs| && bs[i].used && bs[j].used :: bs[i].row != bs[j].row
  }

  /** An unused buffer is empty and clean, and every buffer has a flag for each of its words. */
  ghost predicate Shaped(b: Buffer, size: nat) {
    |b.dirty| == size && (!b.used ==> b.colStart == b.colEnd == 0 && DirtyWords(b.dirty) == 0)
  }

  ghost predicate Inv(c: Cache, readOnly: bool, size: nat) {
    && 0 < size && c.buffers != []
    && AllShaped(c.buffers, size)
    && c.writebacks + TotalDirty(c.buffers) <= c.writeHits
    && (readOnly ==> c.writeHits == 0)
  }

  function Initial(count: nat, size: nat): Cache {
    Cache(seq(count, _ => Buffer(false, 0, Clean(size), 0, 0, 0, 0)), 0, 0, 0, 0)
  }

  lemma InitialInv(count: nat, size: nat, readOnly: bool)
    requires 0 < count && 0 < size
    ensures Inv(Initial(count, size), readOnly, size)
  {
    var bs := Initial(count, size).buffers;
    CleanHasNone(Clean(size));
    NoneDirty(bs);
  }

  lemma {:induction false} NoneDirty(bs: seq<Buffer>)
    requires forall i | 0 <= i < |bs| :: DirtyWords(bs[i].dirty) == 0
    ensures TotalDirty(bs) == 0
  {
    if bs != [] { NoneDirty(bs[1..]); }
  }

  lemma ActivateKeeps(c: Cache, readOnly: bool, size: nat, row: nat, col: nat)
    requires Inv(c, readOnly, size)
    ensures Inv(Activated(c, row, col, size), readOnly, size)
  {
    var bs := c.buffers;
    var i := Slot(bs, row);
    if i == |bs| {
      var last := |bs| - 1;
      var victim := Bound(bs[last], row, col, size).(dirty := Clean(size));
      CleanHasNone(Clean(size));
      TotalUpdate(bs, last, victim);
    } else if !bs[i].used {
      TotalUpdate(bs, i, Bound(bs[i], row, col, size));
    }
  }

  ghost predicate AllShaped(bs: seq<Buffer>, size: nat) {
    UsedPrefix(bs) && DistinctRows(bs) && forall i | 0 <= i < |bs| :: Shaped(bs[i], size)
  }

  /** A hit changes a bound buffer, but not its row, and moves it to the front. */
  lemma HitKeeps(bs: seq<Buffer>, i: nat, b: Buffer, size: nat)
    requires i < |bs| && bs[i].used && b.used && b.row == bs[i].row && |b.dirty| == size && AllShaped(bs, size)
    ensures AllShaped(MovedToFront(bs[i := b], i), size)
    ensures TotalDirty(MovedToFront(bs[i := b], i)) == TotalDirty(bs) - DirtyWords(bs[i].dirty) + DirtyWords(b.dirty)
  {
    TotalUpdate(bs, i, b);
    MoveKeeps(bs[i := b], i, size);
  }

  lemma MoveKeeps(bs: seq<Buffer>, i: nat, size: nat)
    requires i < |bs| && bs[i].used && AllShaped(bs, size)
    ensures AllShaped(MovedToFront(bs, i), size) && TotalDirty(MovedToFront(bs, i)) == TotalDirty(bs)
  {
    MoveFacts(bs, i);
  }

  lemma ReadKeeps(c: Cache, readOnly: bool, size: nat, row: nat, col: nat)
    requires Inv(c, readOnly, size)
    ensures Inv(WithRead(c, row, col), readOnly, size)
  {
    var i := Hit(c.buffers, row, col);
    if i < |c.buffers| {
      HitKeeps(c.buffers, i, c.buffers[i].(readHits := c.buffers[i].readHits + 1), size);
    }
  }

  lemma WriteKeeps(c: Cache, readOnly: bool, size: nat, row: nat, col: nat)
    requires Inv(c, readOnly, size)
    ensures Inv(WithWrite(c, readOnly, row, col), readOnly, size)
  {
    var i := Hit(c.buffers, row, col);
    if !readOnly && i < |c.buffers| && col < size {
      var b := c.buffers[i];
      WriteHitKeeps(c, size, i, b.(dirty := b.dirty[col := true], writeHits := b.writeHits + 1), col);
    }
  }

  lemma WriteHitKeeps(c: Cache, size: nat, i: nat, b: Buffer, col: nat)
    requires Inv(c, false, size) && col < size
    requires i < |c.buffers| && c.buffers[i].used && b.used && b.row == c.buffers[i].row
    requires b.dirty == c.buffers[i].dirty[col := true]
    ensures Inv(c.(buffers := MovedToFront(c.buffers[i := b], i), writeHits := c.writeHits + 1), false, size)
  {
    DirtyOne(c.buffers[i].dirty, col);
    HitKeeps(c.buffers, i, b, size);
  }

  // ------------------------------------------------------------------ recency

  datatype Op = DoActivate(row: nat, col: nat) | DoRead(row: nat, col: nat) | DoWrite(row: nat, col: nat)

  datatype Event = Allocated(row: nat) | Used(row: nat)

  /** When a row was last used since it was allocated; 0 when it has not been. */
  ghost function LastUse(h: seq<Event>, row: nat): (t: nat)
    ensures t <= |h|
  {
    if h == [] then 0
    else if h[|h| - 1] == Used(row) then |h|
    else if h[|h| - 1] == Allocated(row) then 0
    else LastUse(h[..|h| - 1], row)
  }

  function Stepped(c: Cache, readOnly: bool, size: nat, op: Op): Cache
    requires 0 < size && c.buffers != []
  {
    match op
    case DoActivate(row, col) => Activated(c, row, col, size)
    case DoRead(row, col) => WithRead(c, row, col)
    case DoWrite(row, col) => WithWrite(c, readOnly, row, col)
  }

  /** What a command adds to the history: an allocation, a use or nothing. */
  ghost function Recorded(c: Cache, readOnly: bool, h: seq<Event>, op: Op): seq<Event> {
    var bs := c.buffers;
    match op
    case DoActivate(row, _) => if Slot(bs, row) < |bs| && bs[Slot(bs, row)].used then h else h + [Allocated(row)]
    case DoRead(row, col) => if Hit(bs, row, col) < |bs| then h + [Used(row)] else h
    case DoWrite(row, col) =>
      if !readOnly && Hit(bs, row, col) < |bs| && col < |bs[Hit(bs, row, col)].dirty| then h + [Used(row)] else h
  }

  /** The bound buffers are in the order of their last use, latest first. */
  ghost predicate Ordered(bs: seq<Buffer>, h: seq<Event>) {
    forall i, j | 0 <= i < j < |bs| && bs[j].used :: LastUse(h, bs[i].row) >= LastUse(h, bs[j].row)
  }

  lemma LastUseAfter(h: seq<Event>, e: Event, row: nat)
    ensures LastUse(h + [e], row) ==
      if e == Used(row) then |h| + 1 else if e == Allocated(row) then 0 else LastUse(h, row)
  {
    assert (h + [e])[..|h|] == h;
  }

  lemma ActivateOrders(c: Cache, readOnly: bool, size: nat, h: seq<Event>, row: nat, col: nat)
    requires Inv(c, readOnly, size) && Ordered(c.buffers, h)
    ensures Ordered(Activated(c, row, col, size).buffers, Recorded(c, readOnly, h, DoActivate(row, col)))
  {
    var bs := c.buffers;
    var i := Slot(bs, row);
    if i == |bs| || !bs[i].used {
      var at := if i == |bs| then i - 1 else i;
      var r := Activated(c, row, col, size).buffers;
      var h' := h + [Allocated(row)];
      forall j, k | 0 <= j < k < |r| && r[k].used ensures LastUse(h', r[j].row) >= LastUse(h', r[k].row) {
        assert k <= at;
        LastUseAfter(h, Allocated(row), r[j].row);
        LastUseAfter(h, Allocated(row), r[k].row);
      }
    }
  }

  lemma UseOrders(bs: seq<Buffer>, i: nat, b: Buffer, h: seq<Event>)
    requires i < |bs| && bs[i].used && b.used && b.row == bs[i].row && UsedPrefix(bs) && DistinctRows(bs)
    requires Ordered(bs, h)
    ensures Ordered(MovedToFront(bs[i := b], i), h + [Used(b.row)])
  {
    MoveFacts(bs[i := b], i);
    var r, h' := MovedToFront(bs[i := b], i), h + [Used(b.row)];
    forall j, k | 0 <= j < k < |r| && r[k].used ensures LastUse(h', r[j].row) >= LastUse(h', r[k].row) {
      LastUseAfter(h, Used(b.row), r[j].row);
      LastUseAfter(h, Used(b.row), r[k].row);
    }
  }

  lemma StepKeeps(c: Cache, readOnly: bool, size: nat, h: seq<Event>, op: Op)
    requires Inv(c, readOnly, size) && Ordered(c.buffers, h)
    ensures Inv(Stepped(c, readOnly, size, op), readOnly, size)
    ensures Ordered(Stepped(c, readOnly, size, op).buffers, Recorded(c, readOnly, h, op))
  {
    var bs := c.buffers;
    match op
    case DoActivate(row, col) =>
      ActivateKeeps(c, readOnly, size, row, col);
      ActivateOrders(c, readOnly, size, h, row, col);
    case DoRead(row, col) =>
      ReadKeeps(c, readOnly, size, row, col);
      var i := Hit(bs, row, col);
      if i < |bs| { UseOrders(bs, i, bs[i].(readHits := bs[i].readHits + 1), h); }
    case DoWrite(row, col) =>
      WriteKeeps(c, readOnly, size, row, col);
      var i := Hit(bs, row, col);
      if !readOnly && i < |bs| && col < size {
        UseOrders(bs, i, bs[i].(dirty := bs[i].dirty[col := true], writeHits := bs[i].writeHits + 1), h);
      }
  }

  /** A run of commands, with its history. */
  ghost function Run(c: Cache, readOnly: bool, size: nat, h: seq<Event>, ops: seq<Op>): (r: (Cache, seq<Event>))
    requires Inv(c, readOnly, size) && Ordered(c.buffers, h)
    ensures Inv(r.0, readOnly, size) && Ordered(r.0.buffers, r.1)
    decreases |ops|
  {
    if ops == [] then (c, h)
    else
      StepKeeps(c, readOnly, size, h, ops[0]);
      Run(Stepped(c, readOnly, size, ops[0]), readOnly, size, Recorded(c, readOnly, h, ops[0]), ops[1..])
  }

  /** In every run: the bound buffers are a prefix with distinct rows in the order of their last
      use; the words written back and the dirty words are never more than the write hits, and there
      are none of either while the buffers are read-only. A command that evicts finds all buffers
      bound to other rows and takes one that no other was used before. */
  lemma RunInvariants(count: nat, size: nat, readOnly: bool, ops: seq<Op>, row: nat, col: nat)
    requires 0 < count && 0 < size
    ensures InitialOk(count, size, readOnly)
    ensures var (c, h) := Run(Initial(count, size), readOnly, size, [], ops);
      && UsedPrefix(c.buffers) && DistinctRows(c.buffers) && Ordered(c.buffers, h)
      && c.writebacks + TotalDirty(c.buffers) <= c.writeHits
      && (readOnly ==> c.writebacks == TotalDirty(c.buffers) == 0)
      && Evicts(c, h, Activated(c, row, col, size), row)
  {
    var c0 := Initial(count, size);
    InitialInv(count, size, readOnly);
    assert Ordered(c0.buffers, []);
    var (c, h) := Run(c0, readOnly, size, [], ops);
    EvictionFacts(c, h, readOnly, size, row, col);
  }

  ghost predicate InitialOk(count: nat, size: nat, readOnly: bool) {
    Inv(Initial(count, size), readOnly, size) && Ordered(Initial(count, size).buffers, [])
  }

  /** What an activation may do to the rows that are cached. */
  ghost predicate Evicts(c: Cache, h: seq<Event>, c': Cache, row: nat) {
    && |c'.buffers| == |c.buffers|
    && (forall k | 0 <= k < |c.buffers| - 1 :: c.buffers[k].used ==> c'.buffers[k] == c.buffers[k])
    && (forall k | 0 <= k < |c.buffers| && c.buffers[k].used && c'.buffers[k] != c.buffers[k] ::
      && (forall j | 0 <= j < |c.buffers| ::
        c.buffers[j].used && c.buffers[j].row != row && LastUse(h, c.buffers[k].row) <= LastUse(h, c.buffers[j].row))
      && c'.writebacks == c.writebacks + DirtyWords(c.buffers[k].dirty))
    && exists k | 0 <= k < |c'.buffers| :: c'.buffers[k].used && c'.buffers[k].row == row
  }

  lemma EvictionFacts(c: Cache, h: seq<Event>, readOnly: bool, size: nat, row: nat, col: nat)
    requires Inv(c, readOnly, size) && Ordered(c.buffers, h)
    ensures Evicts(c, h, Activated(c, row, col, size), row)
  {
    var bs := c.buffers;
    var c' := Activated(c, row, col, size);
    var i := Slot(bs, row);
    var at := if i == |bs| then i - 1 else i;
    assert c'.buffers[at].used && c'.buffers[at].row == row;
  }

  // ------------------------------------------------------------------ what hits

  /** Every bound buffer holds a whole row. */
  ghost predicate WholeRows(bs: seq<Buffer>, size: nat) {
    forall k | 0 <= k < |bs| && bs[k].used :: bs[k].colStart == 0 && bs[k].colEnd == size
  }

  ghost predicate Cached(bs: seq<Buffer>, row: nat) {
    exists k | 0 <= k < |bs| :: bs[k].used && bs[k].row == row
  }

  lemma HitKeepsRows(bs: seq<Buffer>, i: nat, b: Buffer, size: nat)
    requires i < |bs| && WholeRows(bs, size) && b.colStart == bs[i].colStart && b.colEnd == bs[i].colEnd
    requires b.used == bs[i].used
    ensures WholeRows(MovedToFront(bs[i := b], i), size)
  {
    MovedAt(bs[i := b], i);
  }

  lemma ActivateKeepsRows(c: Cache, size: nat, row: nat, col: nat)
    requires c.buffers != [] && WholeRows(c.buffers, size) && col < size
    ensures WholeRows(Activated(c, row, col, size).buffers, size)
  {
    var bs := c.buffers;
    var i := Slot(bs, row);
    var at := if i == |bs| then i - 1 else i;
    BoundWhole(bs[at], row, col, size);
  }

  lemma BoundWhole(b: Buffer, row: nat, col: nat, size: nat)
    requires col < size
    ensures Bound(b, row, col, size).colStart == 0 && Bound(b, row, col, size).colEnd == size
  {
    QuotientUnique(col, size, 0, col);
  }

  lemma StepKeepsRows(c: Cache, readOnly: bool, size: nat, op: Op)
    requires Inv(c, readOnly, size) && WholeRows(c.buffers, size) && op.col < size
    ensures WholeRows(Stepped(c, readOnly, size, op).buffers, size)
  {
    var bs := c.buffers;
    match op
    case DoActivate(row, col) => ActivateKeepsRows(c, size, row, col);
    case DoRead(row, col) =>
      var i := Hit(bs, row, col);
      if i < |bs| { HitKeepsRows(bs, i, bs[i].(readHits := bs[i].readHits + 1), size); }
    case DoWrite(row, col) =>
      var i := Hit(bs, row, col);
      if !readOnly && i < |bs| {
        HitKeepsRows(bs, i, bs[i].(dirty := bs[i].dirty[col := true], writeHits := bs[i].writeHits + 1), size);
      }
  }

  lemma {:induction false} RunKeepsRows(c: Cache, readOnly: bool, size: nat, h: seq<Event>, ops: seq<Op>)
    requires Inv(c, readOnly, size) && Ordered(c.buffers, h) && WholeRows(c.buffers, size)
    requires forall i | 0 <= i < |ops| :: ops[i].col < size
    ensures WholeRows(Run(c, readOnly, size, h, ops).0.buffers, size)
    decreases |ops|
  {
    if ops != [] {
      StepKeepsRows(c, readOnly, size, ops[0]);
      StepKeeps(c, readOnly, size, h, ops[0]);
      RunKeepsRows(Stepped(c, readOnly, size, ops[0]), readOnly, size, Recorded(c, readOnly, h, ops[0]), ops[1..]);
    }
  }

  /** With buffers as long as a row, in every run a word hits exactly when its row is cached, and a
      row that was just activated is. */
  lemma HitsCachedRows(count: nat, size: nat, readOnly: bool, ops: seq<Op>, row: nat, col: nat, row': nat, col': nat)
    requires 0 < count && 0 < size && col < size && forall i | 0 <= i < |ops| :: ops[i].col < size
    ensures InitialOk(count, size, readOnly)
    ensures var c := Run(Initial(count, size), readOnly, size, [], ops).0;
      && (Hit(c.buffers, row, col) < |c.buffers| <==> Cached(c.buffers, row))
      && c.buffers != [] && Cached(Activated(c, row', col', size).buffers, row')
  {
    InitialInv(count, size, readOnly);
    var c0 := Initial(count, size);
    assert Ordered(c0.buffers, []);
    RunKeepsRows(c0, readOnly, size, [], ops);
    var (c, h) := Run(c0, readOnly, size, [], ops);
    HitIff(c, readOnly, size, row, col);
    EvictionFacts(c, h, readOnly, size, row', col');
  }

  lemma HitIff(c: Cache, readOnly: bool, size: nat, row: nat, col: nat)
    requires Inv(c, readOnly, size) && WholeRows(c.buffers, size) && col < size
    ensures Hit(c.buffers, row, col) < |c.buffers| <==> Cached(c.buffers, row)
  {
    var i := Hit(c.buffers, row, col);
    if i < |c.buffers| {
      assert Shaped(c.buffers[i], size);
    }
  }

  /** An activation that allocates binds a buffer to the aligned block of columns around `col`, so that
      exactly the words of the block hit. */
  lemma AllocationHolds(c: Cache, readOnly: bool, size: nat, row: nat, col: nat, col': nat)
    requires Inv(c, readOnly, size) && !Cached(c.buffers, row)
    ensures
      var bs := Activated(c, row, col, size).buffers;
      Hit(bs, row, col') < |bs| <==> col' / size == col / size
  {
    var bs := Activated(c, row, col, size).buffers;
    var i := Slot(c.buffers, row);
    var at := if i == |c.buffers| then i - 1 else i;
    SameBlock(col, col', size);
    forall k | 0 <= k < |bs| && k != at ensures !bs[k].Holds(row, col') {
      assert Shaped(c.buffers[k], size);
    }
    assert bs[at].Holds(row, col') <==> col' / size == col / size;
  }

  lemma SameBlock(col: nat, col': nat, size: nat)
    requires 0 < size
    ensures var start := col - col % size; start >= 0 && (start <= col' < start + size <==> col' / size == col / size)
  {
    var q, q' := col / size, col' / size;
    Division(col, size);
    Division(col', size);
    if q < q' { MulLe(q + 1, q', size); } else if q' < q { MulLe(q' + 1, q, size); }
  }

  // ------------------------------------------------------------------ which words are dirty

  /** The buffer of a row has the word at `col` marked dirty. */
  ghost predicate Dirty(bs: seq<Buffer>, row: nat, col: nat) {
    exists k | 0 <= k < |bs| :: bs[k].used && bs[k].row == row && col < |bs[k].dirty| && bs[k].dirty[col]
  }

  /** Buffer by buffer, a hit keeps rows and flags but for those of buffer `i`. */
  lemma HitDirty(bs: seq<Buffer>, i: nat, b: Buffer, row: nat, col: nat)
    requires i < |bs| && bs[i].used && b.used && b.row == bs[i].row && DistinctRows(bs)
    ensures
      var r := MovedToFront(bs[i := b], i);
      && (Cached(r, row) <==> Cached(bs, row))
      && (Dirty(r, row, col) <==> if row == b.row then col < |b.dirty| && b.dirty[col] else Dirty(bs, row, col))
  {
    var m := bs[i := b];
    var r := MovedToFront(m, i);
    MovedAt(m, i);
    forall k | 0 <= k < |m| ensures m[k] == r[if k == i then 0 else if k < i then k + 1 else k] {
      var x := if k == i then 0 else if k < i then k + 1 else k;
      assert r[x] == if x == 0 then m[i] else if x <= i then m[x - 1] else m[x];
    }
    SameBuffers(m, r, i, row, col);
    UpdatedDirty(bs, i, b, row, col);
  }

  lemma SameBuffers(m: seq<Buffer>, r: seq<Buffer>, i: nat, row: nat, col: nat)
    requires |r| == |m| && i < |m|
    requires forall k {:trigger m[k]} | 0 <= k < |m| :: m[k] == r[if k == i then 0 else if k < i then k + 1 else k]
    requires forall k {:trigger r[k]} | 0 <= k < |r| ::
      r[k] == if k == 0 then m[i] else if k <= i then m[k - 1] else m[k]
    ensures (Cached(r, row) <==> Cached(m, row)) && (Dirty(r, row, col) <==> Dirty(m, row, col))
  {
  }

  lemma UpdatedDirty(bs: seq<Buffer>, i: nat, b: Buffer, row: nat, col: nat)
    requires i < |bs| && bs[i].used && b.used && b.row == bs[i].row && DistinctRows(bs)
    ensures Cached(bs[i := b], row) <==> Cached(bs, row)
    ensures Dirty(bs[i := b], row, col) <==>
      if row == b.row then col < |b.dirty| && b.dirty[col] else Dirty(bs, row, col)
  {
    var m := bs[i := b];
    assert m[i].used && m[i].row == b.row;
    assert forall k | 0 <= k < |bs| && k != i :: m[k] == bs[k];
  }

  lemma DirtyAt(bs: seq<Buffer>, i: nat, col: nat)
    requires i < |bs| && bs[i].used && DistinctRows(bs)
    ensures Dirty(bs, bs[i].row, col) <==> col < |bs[i].dirty| && bs[i].dirty[col]
    ensures Cached(bs, bs[i].row)
  {
  }

  lemma NotDirty(bs: seq<Buffer>, row: nat, col: nat)
    requires !Cached(bs, row)
    ensures !Dirty(bs, row, col)
  {
  }

  lemma ReadDirty(c: Cache, readOnly: bool, size: nat, row': nat, col': nat, row: nat, col: nat)
    requires Inv(c, readOnly, size)
    ensures
      var bs := WithRead(c, row', col').buffers;
      (Cached(bs, row) <==> Cached(c.buffers, row)) && (Dirty(bs, row, col) <==> Dirty(c.buffers, row, col))
  {
    var bs := c.buffers;
    var i := Hit(bs, row', col');
    if i < |bs| {
      assert Shaped(bs[i], size);
      HitDirty(bs, i, bs[i].(readHits := bs[i].readHits + 1), row, col);
      DirtyAt(bs, i, col);
    }
  }

  lemma WriteDirty(c: Cache, readOnly: bool, size: nat, row': nat, col': nat, row: nat, col: nat)
    requires Inv(c, readOnly, size)
    ensures
      var bs := WithWrite(c, readOnly, row', col').buffers;
      && (Cached(bs, row) <==> Cached(c.buffers, row))
      && (Dirty(bs, row, col) <==>
        || Dirty(c.buffers, row, col)
        || ((row', col') == (row, col) && !readOnly && col < size && Hit(c.buffers, row, col) < |c.buffers|))
  {
    var bs := c.buffers;
    var i := Hit(bs, row', col');
    if !readOnly && i < |bs| && col' < size {
      assert Shaped(bs[i], size);
      var b := bs[i];
      HitDirty(bs, i, b.(dirty := b.dirty[col' := true], writeHits := b.writeHits + 1), row, col);
      DirtyAt(bs, i, col);
    }
  }

  lemma ActivateDirty(c: Cache, readOnly: bool, size: nat, row': nat, col': nat, row: nat, col: nat)
    requires Inv(c, readOnly, size)
    ensures
      var bs := Activated(c, row', col', size).buffers;
      Dirty(bs, row, col) <==> Cached(bs, row) && Dirty(c.buffers, row, col)
  {
    var bs := c.buffers;
    var i := Slot(bs, row');
    if i == |bs| || !bs[i].used {
      var at := if i == |bs| then i - 1 else i;
      var r := Activated(c, row', col', size).buffers;
      assert Shaped(bs[at], size);
      CleanHasNone(bs[at].dirty);
      assert forall k | 0 <= k < |bs| && k != at :: r[k] == bs[k];
      assert r[at].used && r[at].row == row' && forall k | 0 <= k < |r[at].dirty| :: !r[at].dirty[k];
      Rebound(bs, r, at, row, col);
    } else {
      if Dirty(bs, row, col) { assert Cached(bs, row); }
    }
  }

  /** Buffer `at` was bound anew, with all words clean, to a row that had no buffer. */
  lemma Rebound(bs: seq<Buffer>, r: seq<Buffer>, at: nat, row: nat, col: nat)
    requires |r| == |bs| && at < |bs| && DistinctRows(bs) && r[at].used
    requires forall k | 0 <= k < |bs| && k != at :: r[k] == bs[k]
    requires forall k | 0 <= k < |r[at].dirty| :: !r[at].dirty[k]
    requires forall k | 0 <= k < |bs| && bs[k].used :: bs[k].row != r[at].row
    ensures Dirty(r, row, col) <==> Cached(r, row) && Dirty(bs, row, col)
  {
    if Dirty(r, row, col) {
      var k :| 0 <= k < |r| && r[k].used && r[k].row == row && col < |r[k].dirty| && r[k].dirty[col];
      assert k != at && bs[k] == r[k];
    }
    if Cached(r, row) && Dirty(bs, row, col) {
      var j :| 0 <= j < |r| && r[j].used && r[j].row == row;
      var k :| 0 <= k < |bs| && bs[k].used && bs[k].row == row && col < |bs[k].dirty| && bs[k].dirty[col];
      assert j != at && bs[j] == r[j] && j == k;
    }
  }

  /** A word is dirty exactly from the write that hits it until its row loses its buffer. */
  lemma DirtyStep(c: Cache, readOnly: bool, size: nat, op: Op, row: nat, col: nat)
    requires Inv(c, readOnly, size)
    ensures
      var bs := Stepped(c, readOnly, size, op).buffers;
      Dirty(bs, row, col) <==>
        && Cached(bs, row)
        && (Dirty(c.buffers, row, col)
            || (op == DoWrite(row, col) && !readOnly && col < size && Hit(c.buffers, row, col) < |c.buffers|))
  {
    if !Cached(c.buffers, row) { NotDirty(c.buffers, row, col); }
    match op
    case DoActivate(r, k) => ActivateDirty(c, readOnly, size, r, k, row, col);
    case DoRead(r, k) => ReadDirty(c, readOnly, size, r, k, row, col);
    case DoWrite(r, k) =>
      WriteDirty(c, readOnly, size, r, k, row, col);
      var i := Hit(c.buffers, row, col);
      if i < |c.buffers| { assert Shaped(c.buffers[i], size); }
  }

  // ------------------------------------------------------------------ counters

  ghost function Allocations(h: seq<Event>): nat {
    if h == [] then 0 else Allocations(h[..|h| - 1]) + if h[|h| - 1].Allocated? then 1 else 0
  }

  lemma AllocationsAfter(h: seq<Event>, e: Event)
    ensures Allocations(h + [e]) == Allocations(h) + if e.Allocated? then 1 else 0
  {
    assert (h + [e])[..|h|] == h;
  }

  /** The counters stand for the events of the history. */
  ghost predicate Counted(c: Cache, h: seq<Event>) {
    c.allocations == Allocations(h) && c.allocations + c.readHits + c.writeHits == |h|
  }

  lemma StepCounts(c: Cache, readOnly: bool, size: nat, h: seq<Event>, op: Op)
    requires Inv(c, readOnly, size) && Counted(c, h)
    ensures Counted(Stepped(c, readOnly, size, op), Recorded(c, readOnly, h, op))
    ensures !op.DoRead? ==> Stepped(c, readOnly, size, op).readHits == c.readHits
    ensures !op.DoWrite? ==> Stepped(c, readOnly, size, op).writeHits == c.writeHits
  {
    match op
    case DoActivate(row, _) => AllocationsAfter(h, Allocated(row));
    case DoRead(row, _) => AllocationsAfter(h, Used(row));
    case DoWrite(row, _) => AllocationsAfter(h, Used(row));
  }

  /** In every run the counters are exact: one allocation for every activation of a row that has no
      buffer, one hit for every word served. */
  lemma {:induction false} RunCounts(c: Cache, readOnly: bool, size: nat, h: seq<Event>, ops: seq<Op>)
    requires Inv(c, readOnly, size) && Ordered(c.buffers, h) && Counted(c, h)
    ensures var (r, h') := Run(c, readOnly, size, h, ops); Counted(r, h')
    decreases |ops|
  {
    if ops != [] {
      StepKeeps(c, readOnly, size, h, ops[0]);
      StepCounts(c, readOnly, size, h, ops[0]);
      RunCounts(Stepped(c, readOnly, size, ops[0]), readOnly, size, Recorded(c, readOnly, h, ops[0]), ops[1..]);
    }
  }

  // ------------------------------------------------------------------ least recently used?

  /** When a row was last allocated; 0 when never. */
  ghost function LastAllocation(h: seq<Event>, row: nat): (t: nat)
    ensures t <= |h| && (t > 0 ==> h[t - 1] == Allocated(row))
  {
    if h == [] then 0
    else if h[|h| - 1] == Allocated(row) then |h|
    else LastAllocation(h[..|h| - 1], row)
  }

  /** When a row was last allocated or used. */
  ghost function LastTouch(h: seq<Event>, row: nat): nat {
    if h == [] then 0 else if h[|h| - 1].row == row then |h| else LastTouch(h[..|h| - 1], row)
  }

  lemma {:induction false} TouchIs(h: seq<Event>, row: nat)
    ensures LastTouch(h, row) == if LastUse(h, row) > 0 then LastUse(h, row) else LastAllocation(h, row)
    ensures LastUse(h, row) > 0 ==> h[LastUse(h, row) - 1] == Used(row)
  {
    if h != [] { TouchIs(h[..|h| - 1], row); }
  }

  lemma AllocationAfter(h: seq<Event>, e: Event, row: nat)
    ensures LastAllocation(h + [e], row) == if e == Allocated(row) then |h| + 1 else LastAllocation(h, row)
  {
    assert (h + [e])[..|h|] == h;
  }

  /** The bound buffers not used since they were bound are in the order of their allocation. */
  ghost predicate Aged(bs: seq<Buffer>, h: seq<Event>) {
    forall i, j | 0 <= i < j < |bs| && bs[j].used && LastUse(h, bs[i].row) == 0 && LastUse(h, bs[j].row) == 0 ::
      LastAllocation(h, bs[i].row) < LastAllocation(h, bs[j].row)
  }

  lemma ActivateAges(c: Cache, readOnly: bool, size: nat, h: seq<Event>, row: nat, col: nat)
    requires Inv(c, readOnly, size) && Aged(c.buffers, h)
    ensures Aged(Activated(c, row, col, size).buffers, Recorded(c, readOnly, h, DoActivate(row, col)))
  {
    var bs := c.buffers;
    var i := Slot(bs, row);
    if i == |bs| || !bs[i].used {
      var at := if i == |bs| then i - 1 else i;
      var r := Activated(c, row, col, size).buffers;
      var h' := h + [Allocated(row)];
      forall j, k | 0 <= j < k < |r| && r[k].used && LastUse(h', r[j].row) == 0 && LastUse(h', r[k].row) == 0
        ensures LastAllocation(h', r[j].row) < LastAllocation(h', r[k].row)
      {
        assert k <= at;
        LastUseAfter(h, Allocated(row), r[j].row);
        LastUseAfter(h, Allocated(row), r[k].row);
        AllocationAfter(h, Allocated(row), r[j].row);
        AllocationAfter(h, Allocated(row), r[k].row);
      }
    }
  }

  lemma UseAges(bs: seq<Buffer>, i: nat, b: Buffer, h: seq<Event>)
    requires i < |bs| && bs[i].used && b.used && b.row == bs[i].row && UsedPrefix(bs) && DistinctRows(bs) && Aged(bs, h)
    ensures Aged(MovedToFront(bs[i := b], i), h + [Used(b.row)])
  {
    MovedAt(bs[i := b], i);
    var r, h' := MovedToFront(bs[i := b], i), h + [Used(b.row)];
    forall j, k | 0 <= j < k < |r| && r[k].used && LastUse(h', r[j].row) == 0 && LastUse(h', r[k].row) == 0
      ensures LastAllocation(h', r[j].row) < LastAllocation(h', r[k].row)
    {
      LastUseAfter(h, Used(b.row), r[j].row);
      LastUseAfter(h, Used(b.row), r[k].row);
      AllocationAfter(h, Used(b.row), r[j].row);
      AllocationAfter(h, Used(b.row), r[k].row);
    }
  }

  lemma StepAges(c: Cache, readOnly: bool, size: nat, h: seq<Event>, op: Op)
    requires Inv(c, readOnly, size) && Aged(c.buffers, h)
    ensures Aged(Stepped(c, readOnly, size, op).buffers, Recorded(c, readOnly, h, op))
  {
    match op
    case DoActivate(row, col) => ActivateAges(c, readOnly, size, h, row, col);
    case DoRead(row, col) => ReadAges(c, readOnly, size, h, row, col);
    case DoWrite(row, col) => WriteAges(c, readOnly, size, h, row, col);
  }

  lemma ReadAges(c: Cache, readOnly: bool, size: nat, h: seq<Event>, row: nat, col: nat)
    requires Inv(c, readOnly, size) && Aged(c.buffers, h)
    ensures Aged(WithRead(c, row, col).buffers, Recorded(c, readOnly, h, DoRead(row, col)))
  {
    var i := Hit(c.buffers, row, col);
    if i < |c.buffers| { UseAges(c.buffers, i, c.buffers[i].(readHits := c.buffers[i].readHits + 1), h); }
  }

  lemma WriteAges(c: Cache, readOnly: bool, size: nat, h: seq<Event>, row: nat, col: nat)
    requires Inv(c, readOnly, size) && Aged(c.buffers, h)
    ensures Aged(WithWrite(c, readOnly, row, col).buffers, Recorded(c, readOnly, h, DoWrite(row, col)))
  {
    var i := Hit(c.buffers, row, col);
    if !readOnly && i < |c.buffers| && col < size {
      var b := c.buffers[i];
      HitAges(c, readOnly, size, i, b.(dirty := b.dirty[col := true], writeHits := b.writeHits + 1), h);
    }
  }

  lemma HitAges(c: Cache, readOnly: bool, size: nat, i: nat, b: Buffer, h: seq<Event>)
    requires Inv(c, readOnly, size) && Aged(c.buffers, h)
    requires i < |c.buffers| && c.buffers[i].used && b.used && b.row == c.buffers[i].row
    ensures Aged(MovedToFront(c.buffers[i := b], i), h + [Used(b.row)])
  {
    UseAges(c.buffers, i, b, h);
  }

  lemma {:induction false} RunAges(c: Cache, readOnly: bool, size: nat, h: seq<Event>, ops: seq<Op>)
    requires Inv(c, readOnly, size) && Ordered(c.buffers, h) && Aged(c.buffers, h)
    ensures var (r, h') := Run(c, readOnly, size, h, ops); Aged(r.buffers, h')
    decreases |ops|
  {
    if ops != [] {
      StepKeeps(c, readOnly, size, h, ops[0]);
      StepAges(c, readOnly, size, h, ops[0]);
      RunAges(Stepped(c, readOnly, size, ops[0]), readOnly, size, Recorded(c, readOnly, h, ops[0]), ops[1..]);
    }
  }

  /** The buffer that would be evicted is one that no other was allocated or used before. */
  ghost predicate EvictsLeastRecent(bs: seq<Buffer>, h: seq<Event>)
    requires bs != []
  {
    forall j | 0 <= j < |bs| :: LastTouch(h, bs[|bs| - 1].row) <= LastTouch(h, bs[j].row)
  }

  /** The last buffer was used since it was bound, or every other one was used since then. */
  ghost predicate UsedSinceBound(bs: seq<Buffer>, h: seq<Event>)
    requires bs != []
  {
    var v := bs[|bs| - 1].row;
    LastUse(h, v) > 0 || forall j | 0 <= j < |bs| - 1 :: LastUse(h, bs[j].row) > LastAllocation(h, v)
  }

  lemma LeastRecentIff(bs: seq<Buffer>, h: seq<Event>)
    requires bs != [] && bs[|bs| - 1].used && Ordered(bs, h) && Aged(bs, h)
    ensures EvictsLeastRecent(bs, h) <==> UsedSinceBound(bs, h)
  {
    var n := |bs| - 1;
    var v := bs[n].row;
    TouchIs(h, v);
    forall j | 0 <= j < n
      ensures LastTouch(h, v) <= LastTouch(h, bs[j].row) <==>
        LastUse(h, v) > 0 || LastUse(h, bs[j].row) > LastAllocation(h, v)
    {
      TouchIs(h, bs[j].row);
      assert LastUse(h, bs[j].row) >= LastUse(h, v);
    }
  }

  /** In every run, an activation that evicts takes the row least recently allocated or used exactly
      when the last buffer was used since it was bound, or every other one was used since then. */
  lemma EvictionIsLeastRecentIff(count: nat, size: nat, readOnly: bool, ops: seq<Op>)
    requires 0 < count && 0 < size
    ensures InitialOk(count, size, readOnly)
    ensures var (c, h) := Run(Initial(count, size), readOnly, size, [], ops);
      c.buffers != [] && (c.buffers[|c.buffers| - 1].used ==>
        (EvictsLeastRecent(c.buffers, h) <==> UsedSinceBound(c.buffers, h)))
  {
    InitialInv(count, size, readOnly);
    var c0 := Initial(count, size);
    assert Ordered(c0.buffers, []) && Aged(c0.buffers, []);
    RunAges(c0, readOnly, size, [], ops);
    var (c, h) := Run(c0, readOnly, size, [], ops);
    if c.buffers[|c.buffers| - 1].used { LeastRecentIff(c.buffers, h); }
  }

  function Row(r: nat, hits: nat): Buffer { Buffer(true, r, [false], 0, 1, hits, 0) }

  /** It is not always so. With two buffers, rows 1 and 2 are activated and read, then row 3 is
      activated: activating row 4 now evicts row 3, although row 2 was touched before it. */
  lemma EvictsTheNewest() returns (ops: seq<Op>)
    ensures ops == FourThen([DoActivate(3, 0)]) && InitialOk(2, 1, true)
    ensures var (c, h) := Run(Initial(2, 1), true, 1, [], ops);
      && Rows(c.buffers, 2, 3) && Rows(Activated(c, 4, 0, 1).buffers, 2, 4)
      && LastTouch(h, 2) < LastTouch(h, 3) && !EvictsLeastRecent(c.buffers, h)
  {
    var o := DoActivate(3, 0);
    var c4, h4 := FirstFour([o]);
    ThirdRow(c4, h4, o, [o]);
    ops := FourThen([o]);
  }

  /** Two buffers bound to two rows. */
  ghost predicate Rows(bs: seq<Buffer>, r: nat, r': nat) {
    |bs| == 2 && bs[0].used && bs[1].used && bs[0].row == r && bs[1].row == r'
  }

  lemma ThirdRow(c: Cache, h: seq<Event>, o: Op, last: seq<Op>)
    requires Inv(c, true, 1) && Ordered(c.buffers, h) && Rows(c.buffers, 2, 1)
    requires h != [] && h[|h| - 1] == Used(2) && o == DoActivate(3, 0) && last == [o]
    ensures var (c5, h5) := Run(c, true, 1, h, last);
      && Rows(c5.buffers, 2, 3) && Rows(Activated(c5, 4, 0, 1).buffers, 2, 4)
      && LastTouch(h5, 2) < LastTouch(h5, 3) && !EvictsLeastRecent(c5.buffers, h5)
  {
    var c5, h5 := Activated(c, 3, 0, 1), h + [Allocated(3)];
    ActivateFull(c, 2, 1, 3);
    RunLast(c, h, o, last);
    ActivateFull(c5, 2, 3, 4);
    Touches(h);
    NotLeast(c5.buffers, h5);
  }

  lemma RunLast(c: Cache, h: seq<Event>, o: Op, last: seq<Op>)
    requires Inv(c, true, 1) && Ordered(c.buffers, h) && last == [o]
    ensures Run(c, true, 1, h, last) == (Stepped(c, true, 1, o), Recorded(c, true, h, o))
  {
    RunStep(c, h, o, []);
    assert [o] + [] == last;
  }

  function FourThen(rest: seq<Op>): seq<Op> {
    [DoActivate(1, 0)] + ([DoRead(1, 0)] + ([DoActivate(2, 0)] + ([DoRead(2, 0)] + rest)))
  }

  lemma NotLeast(bs: seq<Buffer>, h: seq<Event>)
    requires |bs| == 2 && LastTouch(h, bs[0].row) < LastTouch(h, bs[1].row)
    ensures !EvictsLeastRecent(bs, h)
  {
  }

  lemma Touches(h: seq<Event>)
    requires h != [] && h[|h| - 1] == Used(2)
    ensures LastTouch(h + [Allocated(3)], 2) < LastTouch(h + [Allocated(3)], 3)
  {
    assert (h + [Allocated(3)])[..|h|] == h;
  }

  lemma FirstFour(rest: seq<Op>) returns (c: Cache, h: seq<Event>)
    ensures InitialOk(2, 1, true)
    ensures Inv(c, true, 1) && Ordered(c.buffers, h) && Rows(c.buffers, 2, 1)
    ensures h != [] && h[|h| - 1] == Used(2)
    ensures Run(Initial(2, 1), true, 1, [], FourThen(rest)) == Run(c, true, 1, h, rest)
  {
    InitialInv(2, 1, true);
    var c0 := Initial(2, 1);
    assert Ordered(c0.buffers, []);
    var free := c0.buffers[0];
    assert Clean(1) == [false] && c0.buffers == [free, free];
    var c2, h2 := ActivateAndRead(c0, [], 1, [DoActivate(2, 0)] + ([DoRead(2, 0)] + rest));
    c, h := ActivateAndRead(c2, h2, 2, rest);
  }

  /** Activating a row into a free buffer of two, and reading it. */
  lemma ActivateAndRead(c: Cache, h: seq<Event>, row: nat, rest: seq<Op>) returns (c': Cache, h': seq<Event>)
    requires Inv(c, true, 1) && Ordered(c.buffers, h) && |c.buffers| == 2 && !c.buffers[1].used
    requires c.buffers[1].dirty == c.buffers[0].dirty == [false] && (c.buffers[0].used ==> c.buffers[0].row != row)
    ensures Inv(c', true, 1) && Ordered(c'.buffers, h') && h' != [] && h'[|h'| - 1] == Used(row)
    ensures c'.buffers == [Row(row, 1), if c.buffers[0].used then c.buffers[0] else c.buffers[1]]
    ensures Run(c, true, 1, h, [DoActivate(row, 0)] + ([DoRead(row, 0)] + rest)) == Run(c', true, 1, h', rest)
  {
    var i := if c.buffers[0].used then 1 else 0;
    var r := if i == 1 then [c.buffers[0], Row(row, 0)] else [Row(row, 0), c.buffers[1]];
    ActivateFree(c, row, r);
    RunStep(c, h, DoActivate(row, 0), [DoRead(row, 0)] + rest);
    var c1, h1 := Stepped(c, true, 1, DoActivate(row, 0)), h + [Allocated(row)];
    ReadAt(c1, row, i, [Row(row, 1), r[1 - i]]);
    RunStep(c1, h1, DoRead(row, 0), rest);
    c', h' := Stepped(c1, true, 1, DoRead(row, 0)), h1 + [Used(row)];
  }

  lemma RunStep(c: Cache, h: seq<Event>, op: Op, ops: seq<Op>)
    requires Inv(c, true, 1) && Ordered(c.buffers, h)
    ensures Inv(Stepped(c, true, 1, op), true, 1)
    ensures Ordered(Stepped(c, true, 1, op).buffers, Recorded(c, true, h, op))
    ensures Run(c, true, 1, h, [op] + ops) == Run(Stepped(c, true, 1, op), true, 1, Recorded(c, true, h, op), ops)
  {
    StepKeeps(c, true, 1, h, op);
    assert ([op] + ops)[1..] == ops;
  }

  /** Activating a row with the second buffer free, or the first if that is. */
  lemma ActivateFree(c: Cache, row: nat, r: seq<Buffer>)
    requires |c.buffers| == |r| == 2 && !c.buffers[1].used && c.buffers[1].dirty == c.buffers[0].dirty == [false]
    requires c.buffers[0].used ==> c.buffers[0].row != row
    requires r == if c.buffers[0].used then [c.buffers[0], Row(row, 0)] else [Row(row, 0), c.buffers[1]]
    ensures Activated(c, row, 0, 1).buffers == r && Recorded(c, true, [], DoActivate(row, 0)) == [Allocated(row)]
    ensures forall h :: Recorded(c, true, h, DoActivate(row, 0)) == h + [Allocated(row)]
  {
    var i := Slot(c.buffers, row);
    assert i == if c.buffers[0].used then 1 else 0;
  }

  lemma ReadAt(c: Cache, row: nat, i: nat, r: seq<Buffer>)
    requires |c.buffers| == |r| == 2 && i < 2 && c.buffers[i] == Row(row, 0) && (i == 1 ==> c.buffers[0].row != row)
    requires r == [Row(row, 1), c.buffers[1 - i]]
    ensures WithRead(c, row, 0).buffers == r
    ensures forall h :: Recorded(c, true, h, DoRead(row, 0)) == h + [Used(row)]
  {
    assert Hit(c.buffers, row, 0) == i;
  }

  lemma ActivateFull(c: Cache, r: nat, r': nat, row: nat)
    requires Rows(c.buffers, r, r') && row != r && row != r'
    ensures Rows(Activated(c, row, 0, 1).buffers, r, row)
    ensures forall h :: Recorded(c, true, h, DoActivate(row, 0)) == h + [Allocated(row)]
  {
    assert Slot(c.buffers, row) == 2;
  }
}
