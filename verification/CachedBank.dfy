/**
 The bank object that owns the row-buffer cache and updates it in place.
 */
module CachedBanks {
  import opened RowCache

  class CachedDDR3Bank {
    const cachedRowBuffer: array<Buffer>
    const readOnlyBuffers: bool
    const rowBufferSize: nat
    var RDBAllocations: nat
    var writebackCount: nat
    var RDBReads: nat
    var RDBWrites: nat

    ghost function Contents(): Cache
      reads this, cachedRowBuffer
    {
      Cache(cachedRowBuffer[..], RDBAllocations, writebackCount, RDBReads, RDBWrites)
    }

    ghost predicate Valid()
      reads this, cachedRowBuffer
    {
      Inv(Contents(), readOnlyBuffers, rowBufferSize)
    }

    constructor (count: nat, size: nat, readOnly: bool)
      requires 0 < count && 0 < size
      ensures Valid() && fresh(cachedRowBuffer) && Contents() == Initial(count, size)
      ensures readOnlyBuffers == readOnly && rowBufferSize == size
    {
      cachedRowBuffer := new Buffer[count](_ => Buffer(false, 0, Clean(size), 0, 0, 0, 0));
      readOnlyBuffers, rowBufferSize := readOnly, size;
      RDBAllocations, writebackCount, RDBReads, RDBWrites := 0, 0, 0, 0;
      new;
      assert cachedRowBuffer[..] == Initial(count, size).buffers;
      InitialInv(count, size, readOnly);
    }

    /** `Activate`, on the row buffers; returns the number of words written back. */
    method Activate(row: nat, col: nat) returns (dirtyCount: nat)
      requires Valid()
      modifies this, cachedRowBuffer
      ensures Valid() && Contents() == Activated(old(Contents()), row, col, rowBufferSize)
      ensures dirtyCount == writebackCount - old(writebackCount) && (readOnlyBuffers ==> dirtyCount == 0)
    {
      ActivateKeeps(Contents(), readOnlyBuffers, rowBufferSize, row, col);
      var slot := FindSlot(row);
      dirtyCount := 0;
      if slot == cachedRowBuffer.Length {
        dirtyCount := Evict(row, col);
      } else if !cachedRowBuffer[slot].used {
        cachedRowBuffer[slot] := Bound(cachedRowBuffer[slot], row, col, rowBufferSize);
        RDBAllocations := RDBAllocations + 1;
      }
    }

    /** The scan for the row's buffer or an unused one. */
    method FindSlot(row: nat) returns (i: nat)
      ensures i == Slot(cachedRowBuffer[..], row)
    {
      i := 0;
      ghost var bs := cachedRowBuffer[..];
      while i < cachedRowBuffer.Length && cachedRowBuffer[i].used && cachedRowBuffer[i].row != row
        invariant i <= cachedRowBuffer.Length
        invariant forall k | 0 <= k < i :: bs[k].used && bs[k].row != row
      {
        i := i + 1;
      }
      var j := Slot(cachedRowBuffer[..], row);
      assert i < |bs| ==> !bs[i].used || bs[i].row == row;
    }

    /** Binds the last buffer to a row, after counting and clearing its dirty words. */
    method Evict(row: nat, col: nat) returns (dirtyCount: nat)
      requires 0 < rowBufferSize && cachedRowBuffer.Length > 0
      requires |cachedRowBuffer[cachedRowBuffer.Length - 1].dirty| == rowBufferSize
      modifies this, cachedRowBuffer
      ensures dirtyCount == old(DirtyWords(cachedRowBuffer[cachedRowBuffer.Length - 1].dirty))
      ensures var last := cachedRowBuffer.Length - 1;
        var b := Bound(old(cachedRowBuffer[..])[last], row, col, rowBufferSize).(dirty := Clean(rowBufferSize));
        cachedRowBuffer[..] == old(cachedRowBuffer[..])[last := b]
      ensures RDBAllocations == old(RDBAllocations) + 1 && writebackCount == old(writebackCount) + dirtyCount
      ensures RDBReads == old(RDBReads) && RDBWrites == old(RDBWrites)
    {
      var last := cachedRowBuffer.Length - 1;
      var b := Bound(cachedRowBuffer[last], row, col, rowBufferSize);
      var cleared;
      dirtyCount, cleared := Clear(b.dirty);
      cachedRowBuffer[last] := b.(dirty := cleared);
      RDBAllocations := RDBAllocations + 1;
      writebackCount := writebackCount + dirtyCount;
    }

    /** Counts the dirty words of a buffer and marks them clean. */
    static method Clear(dirty: seq<bool>) returns (dirtyCount: nat, cleared: seq<bool>)
      ensures dirtyCount == DirtyWords(dirty) && cleared == Clean(|dirty|)
    {
      dirtyCount, cleared := 0, dirty;
      var k := 0;
      while k < |dirty|
        invariant k <= |dirty| == |cleared| && dirtyCount == DirtyWords(dirty[..k])
        invariant cleared == Clean(k) + dirty[k..]
      {
        assert dirty[..k + 1][..k] == dirty[..k];
        if cleared[k] { dirtyCount := dirtyCount + 1; }
        cleared := cleared[k := false];
        k := k + 1;
      }
      assert dirty[..k] == dirty;
    }

    /** `Read`; returns whether a row buffer served it. */
    method Read(row: nat, col: nat) returns (hit: bool)
      requires Valid()
      modifies this, cachedRowBuffer
      ensures Valid() && Contents() == WithRead(old(Contents()), row, col)
      ensures hit <==> Hit(old(cachedRowBuffer[..]), row, col) < cachedRowBuffer.Length
    {
      ReadKeeps(Contents(), readOnlyBuffers, rowBufferSize, row, col);
      var i := FindHit(row, col);
      hit := i < cachedRowBuffer.Length;
      if hit {
        var b := cachedRowBuffer[i];
        RDBReads := RDBReads + 1;
        cachedRowBuffer[i] := b.(readHits := b.readHits + 1);
        ToFront(i);
      }
    }

    /** `Write`; returns whether a row buffer served it. On a hit the flags of the buffer are indexed
        with the column of the row, which must be one of them. */
    method Write(row: nat, col: nat) returns (hit: bool)
      requires Valid()
      requires readOnlyBuffers || Hit(cachedRowBuffer[..], row, col) == cachedRowBuffer.Length || col < rowBufferSize
      modifies this, cachedRowBuffer
      ensures Valid() && Contents() == WithWrite(old(Contents()), readOnlyBuffers, row, col)
      ensures hit <==> !readOnlyBuffers && Hit(old(cachedRowBuffer[..]), row, col) < cachedRowBuffer.Length
    {
      WriteKeeps(Contents(), readOnlyBuffers, rowBufferSize, row, col);
      if readOnlyBuffers { return false; }
      var i := FindHit(row, col);
      hit := i < cachedRowBuffer.Length;
      if hit {
        var b := cachedRowBuffer[i];
        assert Shaped(Contents().buffers[i], rowBufferSize);
        RDBWrites := RDBWrites + 1;
        cachedRowBuffer[i] := b.(dirty := b.dirty[col := true], writeHits := b.writeHits + 1);
        ToFront(i);
      }
    }

    method FindHit(row: nat, col: nat) returns (i: nat)
      ensures i == Hit(cachedRowBuffer[..], row, col)
    {
      i := 0;
      ghost var bs := cachedRowBuffer[..];
      while i < cachedRowBuffer.Length && !cachedRowBuffer[i].Holds(row, col)
        invariant i <= cachedRowBuffer.Length
        invariant forall k | 0 <= k < i :: !bs[k].Holds(row, col)
      {
        i := i + 1;
      }
      var j := Hit(cachedRowBuffer[..], row, col);
      assert i < |bs| ==> bs[i].Holds(row, col);
    }

    /** Moves a buffer to the front, shifting those before it. */
    method ToFront(i: nat)
      requires i < cachedRowBuffer.Length
      modifies cachedRowBuffer
      ensures cachedRowBuffer[..] == MovedToFront(old(cachedRowBuffer[..]), i)
    {
      ghost var was := cachedRowBuffer[..];
      var moved := cachedRowBuffer[i];
      var j := i;
      while j > 0
        invariant 0 <= j <= i
        invariant forall k | 0 <= k <= j :: cachedRowBuffer[k] == was[k]
        invariant forall k {:trigger cachedRowBuffer[k]} | j < k <= i :: cachedRowBuffer[k] == was[k - 1]
        invariant forall k | i < k < cachedRowBuffer.Length :: cachedRowBuffer[k] == was[k]
      {
        cachedRowBuffer[j] := cachedRowBuffer[j - 1];
        j := j - 1;
      }
      cachedRowBuffer[0] := moved;
      MovedAt(was, i);
      assert cachedRowBuffer[..] == MovedToFront(was, i);
    }
  }
}
