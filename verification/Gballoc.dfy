/** Memory accounting (gballoc.c): a linked list of records, one for each live block. */
module Gballoc {
  import opened Sequences

  /** A live block: its address, never 0, and its size. */
  datatype Block = Block(ptr: nat, size: nat)

  function Total(blocks: seq<Block>): nat {
    if blocks == [] then 0 else blocks[0].size + Total(blocks[1..])
  }

  predicate Distinct(blocks: seq<Block>) {
    && (forall i :: 0 <= i < |blocks| ==> blocks[i].ptr != 0)
    && forall i, j :: 0 <= i < j < |blocks| ==> blocks[i].ptr != blocks[j].ptr
  }

  predicate Has(blocks: seq<Block>, ptr: nat) {
    exists i :: 0 <= i < |blocks| && blocks[i].ptr == ptr
  }

  lemma {:induction false} TotalWithout(blocks: seq<Block>, i: nat)
    requires i < |blocks|
    ensures Total(Without(blocks, i)) == Total(blocks) - blocks[i].size
  {
    if i == 0 {
      assert Without(blocks, 0) == blocks[1..];
    } else {
      TotalWithout(blocks[1..], i - 1);
      assert Without(blocks, i)[1..] == Without(blocks[1..], i - 1);
    }
  }

  lemma {:induction false} TotalUpdate(blocks: seq<Block>, i: nat, b: Block)
    requires i < |blocks|
    ensures Total(blocks[i := b]) == Total(blocks) - blocks[i].size + b.size
  {
    if i > 0 {
      TotalUpdate(blocks[1..], i - 1, b);
      assert blocks[i := b][1..] == blocks[1..][i - 1 := b];
    } else {
      assert blocks[0 := b][1..] == blocks[1..];
    }
  }

  /** The highest of the totals reached. */
  predicate IsPeak(peak: nat, reached: seq<nat>) {
    (peak == 0 || peak in reached) && forall t :: t in reached ==> t <= peak
  }

  class Allocation {
    var size: nat
    var ptr: nat
    var next: Allocation?

    constructor (size: nat, ptr: nat, next: Allocation?)
      ensures this.size == size && this.ptr == ptr && this.next == next
    {
      this.size, this.ptr, this.next := size, ptr, next;
    }
  }

  function RecordAt(records: seq<Allocation>, i: int): Allocation? {
    if 0 <= i < |records| then records[i] else null
  }

  /** The records form a list from the head, without repetition, one for each live block. */
  ghost predicate Chain(head: Allocation?, records: seq<Allocation>, live: seq<Block>)
    reads records
  {
    && head == RecordAt(records, 0)
    && (forall i :: 0 <= i < |records| ==> records[i].next == RecordAt(records, i + 1))
    && (forall i, j :: 0 <= i < j < |records| ==> records[i] != records[j])
    && |live| == |records| && forall i :: 0 <= i < |records| ==> live[i] == Block(records[i].ptr, records[i].size)
  }

  class Accounts {
    var initialised: bool
    var head: Allocation?
    var totalSize: int
    var maxSize: nat

    ghost var records: seq<Allocation>
    ghost var live: seq<Block>    // the block of each record
    ghost var reached: seq<nat>   // the totals since the last initialisation

    ghost predicate Valid()
      reads this, records
    {
      && initialised && Chain(head, records, live) && Distinct(live)
      && totalSize == Total(live) && IsPeak(maxSize, reached)
    }

    constructor ()
      ensures !initialised && Chain(head, records, live) && live == []
    {
      initialised, head, totalSize, maxSize, records, live, reached := false, null, 0, 0, [], [], [];
    }

    /** gballoc_init resets the totals, but not the list: the accounts are right afterwards exactly
        when no recorded block of an earlier session holds memory. */
    method Init(locked: bool) returns (ok: bool)
      requires Chain(head, records, live) && Distinct(live)
      modifies this`initialised, this`totalSize, this`maxSize, this`reached
      ensures ok == (!old(initialised) && locked)
      ensures ok ==> initialised && totalSize == 0 && (Valid() <==> Total(live) == 0)
      ensures !ok ==> unchanged(this)
    {
      if initialised || !locked {
        return false;
      }
      initialised, totalSize, maxSize, reached := true, 0, 0, [];
      ok := true;
    }

    /** gballoc_deinit. */
    method Deinit()
      modifies this`initialised
      ensures !initialised
    {
      initialised := false;
    }

    /** The total has changed. */
    method Count(change: int)
      requires totalSize + change >= 0 && IsPeak(maxSize, reached)
      modifies this`totalSize, this`maxSize, this`reached
      ensures totalSize == old(totalSize) + change && IsPeak(maxSize, reached) && reached == old(reached) + [totalSize]
    {
      totalSize := totalSize + change;
      reached := reached + [totalSize];
      if maxSize < totalSize {
        maxSize := totalSize;
      }
    }

    /** A new record before the others. */
    method Push(block: nat, size: nat)
      requires Chain(head, records, live)
      modifies this`head, this`records, this`live
      ensures Chain(head, records, live) && live == [Block(block, size)] + old(live)
      ensures exists r: Allocation :: fresh(r) && records == [r] + old(records)
    {
      ghost var before := records;
      var allocation := new Allocation(size, block, head);
      head := allocation;
      records := [allocation] + records;
      live := [Block(block, size)] + live;
      assert forall i :: 0 <= i <= |before| ==> RecordAt(records, i + 1) == RecordAt(before, i);
    }

    /** gballoc_malloc and gballoc_calloc; the outcomes are those of the lock, of the allocation of
        the record, and of the block (0 for NULL). */
    method Malloc(size: nat, locked: bool, record: bool, block: nat) returns (result: nat)
      requires Valid() && !Has(live, block)
      modifies this
      ensures Valid()
      ensures result == if locked && record then block else 0
      ensures result != 0 ==> live == [Block(result, size)] + old(live) && reached == old(reached) + [totalSize]
      ensures result == 0 ==> unchanged(this)
    {
      if !locked || !record || block == 0 {
        return 0;
      }
      Record(block, size);
      result := block;
    }

    /** A new block is recorded and counted. */
    method Record(block: nat, size: nat)
      requires Valid() && block != 0 && !Has(live, block)
      modifies this
      ensures Valid() && live == [Block(block, size)] + old(live) && reached == old(reached) + [totalSize]
    {
      DistinctPush(live, Block(block, size));
      hide Chain, Distinct, Total, IsPeak;
      Push(block, size);
      Count(size);
    }

    /** The search of gballoc_realloc and gballoc_free: the record of an address and the one before. */
    method Find(ptr: nat) returns (prev: Allocation?, curr: Allocation?, ghost i: nat)
      requires Chain(head, records, live)
      ensures i <= |records| && curr == RecordAt(records, i)
      ensures prev == RecordAt(records, i - 1)
      ensures curr != null ==> curr.ptr == ptr && i < |live| && live[i] == Block(ptr, curr.size)
      ensures curr == null <==> !Has(live, ptr)
    {
      hide Has;
      prev, curr, i := null, head, 0;
      while curr != null && curr.ptr != ptr
        invariant i <= |records| && forall k :: 0 <= k < i ==> live[k].ptr != ptr
        invariant curr == RecordAt(records, i)
        invariant prev == RecordAt(records, i - 1)
        decreases |records| - i
      {
        prev := curr;
        curr := curr.next;
        i := i + 1;
      }
      Searched(live, ptr, i);
    }

    /** The record leaves the list. */
    method Unlink(prev: Allocation?, curr: Allocation, ghost i: nat)
      requires Chain(head, records, live) && i < |records| && curr == records[i]
      requires prev == RecordAt(records, i - 1)
      modifies this`head, this`records, this`live, records
      ensures Chain(head, records, live) && live == Without(old(live), i)
      ensures forall r :: r in records ==> r in old(records)
    {
      if prev != null {
        prev.next := curr.next;
      } else {
        head := curr.next;
      }
      Unlinked(head, records, live, i);
      records := records[..i] + records[i + 1..];
      live := Without(live, i);
    }

    /** The record takes over another block. */
    method Resize(curr: Allocation, ghost i: nat, block: nat, size: nat)
      requires Chain(head, records, live) && i < |records| && curr == records[i]
      modifies curr, this`live
      ensures Chain(head, records, live) && live == old(live)[i := Block(block, size)]
    {
      curr.ptr := block;
      curr.size := size;
      live := live[i := Block(block, size)];
    }

    /** gballoc_free. */
    method Free(ptr: nat, locked: bool)
      requires Valid()
      modifies this, records
      ensures Valid()
      ensures !locked || !Has(old(live), ptr) ==> unchanged(this)
      ensures locked && Has(old(live), ptr) ==>
        && reached == old(reached) + [totalSize]
        && exists i :: 0 <= i < |old(live)| && old(live)[i].ptr == ptr && live == Without(old(live), i)
    {
      if !locked {
        return;
      }
      var prev, curr, i := Find(ptr);
      if curr == null {
        return;
      }
      Release(prev, curr, i);
      assert old(live)[i].ptr == ptr;
    }

    /** The record found leaves the list, and its size the total. */
    method Release(prev: Allocation?, curr: Allocation, ghost i: nat)
      requires Valid() && i < |records| && curr == records[i] && prev == RecordAt(records, i - 1)
      requires i < |live| && live[i].size == curr.size
      modifies this, records
      ensures Valid() && i < |old(live)| && live == Without(old(live), i) && reached == old(reached) + [totalSize]
    {
      hide Chain, Distinct, Total, IsPeak, Without;
      TotalWithout(live, i);
      DistinctWithout(live, i);
      var size: int := curr.size;
      Unlink(prev, curr, i);
      Count(-size);
    }

    /** gballoc_realloc; `released` says that the C library, asked for size 0, has freed the block and
        returned NULL.  The record then stays, and the accounts are wrong; otherwise they are right. */
    method Realloc(ptr: nat, size: nat, locked: bool, record: bool, block: nat, released: bool) returns (result: nat)
      requires Valid() && (Has(live, block) ==> block == ptr) && (released ==> size == 0 && block == 0)
      modifies this, records
      ensures result == if locked && (if ptr == 0 then record else Has(old(live), ptr)) then block else 0
      ensures var lost := locked && released && Has(old(live), ptr);
        && (Valid() <==> !lost)
        && (lost ==> unchanged(`head, `records, `totalSize, `maxSize, `reached) && unchanged(old(records))
                     && exists i :: 0 <= i < |old(live)| && old(live)[i].ptr == ptr && live == Without(old(live), i))
        && (result == 0 && !lost ==> unchanged(this))
      ensures result != 0 ==> reached == old(reached) + [totalSize]
      ensures result != 0 && ptr == 0 ==> live == [Block(result, size)] + old(live)
      ensures result != 0 && ptr != 0 ==>
        exists i :: 0 <= i < |old(live)| && old(live)[i].ptr == ptr && live == old(live)[i := Block(result, size)]
    {
      if !locked {
        return 0;
      }
      if ptr == 0 {
        if !record || block == 0 {
          return 0;
        }
        Record(block, size);
        return block;
      }
      var _, allocation, i := Find(ptr);
      if allocation == null {
        return 0;
      }
      if block == 0 {
        if released {
          live := Without(live, i);
          assert old(live)[i].ptr == ptr;
        }
        return 0;
      }
      Replace(allocation, i, block, size);
      assert old(live)[i].ptr == ptr;
      result := block;
    }

    /** The record found takes over the block, and the total the difference of the sizes. */
    method Replace(curr: Allocation, ghost i: nat, block: nat, size: nat)
      requires Valid() && i < |records| && curr == records[i] && block != 0 && (Has(live, block) ==> block == curr.ptr)
      requires i < |live| && live[i] == Block(curr.ptr, curr.size)
      modifies this, records
      ensures Valid() && i < |old(live)| && live == old(live)[i := Block(block, size)] && reached == old(reached) + [totalSize]
    {
      hide Chain, Distinct, Total, IsPeak, Has;
      var oldSize: int := curr.size;
      TotalUpdate(live, i, Block(block, size));
      DistinctUpdate(live, i, Block(block, size));
      Resize(curr, i, block, size);
      Count(size - oldSize);
    }
  }

  /** A block that is still held when its session ends spoils the accounts of the next one, unless
      it has no size. */
  method SecondSession(size: nat, block: nat) returns (accounts: Accounts)
    requires block != 0
    ensures accounts.initialised && accounts.live == [Block(block, size)]
    ensures accounts.totalSize == 0 && (accounts.Valid() <==> size == 0)
  {
    accounts := new Accounts();
    var first := accounts.Init(true);
    var result := accounts.Malloc(size, true, true, block);
    assert accounts.live == [Block(block, size)];
    accounts.Deinit();
    var second := accounts.Init(true);
    assert accounts.live[1..] == [];
  }

  /** Taking one record out, once the links around it and the head have been set. */
  lemma Unlinked(head: Allocation?, records: seq<Allocation>, live: seq<Block>, i: nat)
    requires i < |records| == |live| && head == RecordAt(records, if i == 0 then 1 else 0)
    requires forall k :: 0 <= k < |records| ==> records[k].next == RecordAt(records, if k + 1 == i then i + 1 else k + 1)
    requires forall j, k :: 0 <= j < k < |records| ==> records[j] != records[k]
    requires forall k :: 0 <= k < |records| ==> live[k] == Block(records[k].ptr, records[k].size)
    ensures Chain(head, records[..i] + records[i + 1..], Without(live, i))
  {
    UnlinkedNexts(records, i);
    UnlinkedRest(records, live, i);
  }

  lemma UnlinkedNexts(records: seq<Allocation>, i: nat)
    requires i < |records|
    requires forall k :: 0 <= k < |records| ==> records[k].next == RecordAt(records, if k + 1 == i then i + 1 else k + 1)
    ensures var rest := records[..i] + records[i + 1..];
      RecordAt(rest, 0) == RecordAt(records, if i == 0 then 1 else 0) && forall k :: 0 <= k < |rest| ==> rest[k].next == RecordAt(rest, k + 1)
  {
    var rest := records[..i] + records[i + 1..];
    forall k | 0 <= k < |rest|
      ensures rest[k].next == RecordAt(rest, k + 1)
    {
      var m := if k < i then k else k + 1;
      assert rest[k] == records[m];
      assert records[m].next == RecordAt(records, if m + 1 == i then i + 1 else m + 1);
    }
  }

  lemma UnlinkedRest(records: seq<Allocation>, live: seq<Block>, i: nat)
    requires i < |records| == |live|
    requires forall j, k :: 0 <= j < k < |records| ==> records[j] != records[k]
    requires forall k :: 0 <= k < |records| ==> live[k] == Block(records[k].ptr, records[k].size)
    ensures var rest, blocks := records[..i] + records[i + 1..], Without(live, i);
      && (forall j, k :: 0 <= j < k < |rest| ==> rest[j] != rest[k])
      && forall k :: 0 <= k < |rest| ==> blocks[k] == Block(rest[k].ptr, rest[k].size)
  {
    var rest := records[..i] + records[i + 1..];
    assert forall k :: 0 <= k < |rest| ==> rest[k] == records[if k < i then k else k + 1];
  }

  lemma Searched(blocks: seq<Block>, ptr: nat, i: nat)
    requires i <= |blocks| && (forall k :: 0 <= k < i ==> blocks[k].ptr != ptr) && (i < |blocks| ==> blocks[i].ptr == ptr)
    ensures Has(blocks, ptr) <==> i < |blocks|
  {
  }

  lemma DistinctPush(blocks: seq<Block>, b: Block)
    requires Distinct(blocks) && b.ptr != 0 && !Has(blocks, b.ptr)
    ensures Distinct([b] + blocks) && Total([b] + blocks) == b.size + Total(blocks)
  {
    assert ([b] + blocks)[1..] == blocks;
  }

  lemma DistinctWithout(blocks: seq<Block>, i: nat)
    requires Distinct(blocks) && i < |blocks|
    ensures Distinct(Without(blocks, i))
  {
  }

  lemma DistinctUpdate(blocks: seq<Block>, i: nat, b: Block)
    requires Distinct(blocks) && i < |blocks| && b.ptr != 0 && (Has(blocks, b.ptr) ==> b.ptr == blocks[i].ptr)
    ensures Distinct(blocks[i := b])
  {
  }
}
