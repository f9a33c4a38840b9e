/** Circular doubly linked lists (doublylinkedlist.c).  A ring is a non-empty sequence of distinct
    entries, each linked in both directions with the next and the last one with the first; a list
    is a ring that starts with its head.  The frames say that nothing but the touched neighbours
    changes. */
module DoublyLinkedList {

  class DListEntry {
    var Flink: DListEntry
    var Blink: DListEntry

    constructor ()
      ensures Flink == this && Blink == this
    {
      Flink, Blink := this, this;
    }
  }

  predicate Distinct(nodes: seq<DListEntry>) {
    forall i, j :: 0 <= i < j < |nodes| ==> nodes[i] != nodes[j]
  }

  ghost predicate Linked(a: DListEntry, b: DListEntry)
    reads a, b
  {
    a.Flink == b && b.Blink == a
  }

  ghost predicate Chain(nodes: seq<DListEntry>)
    reads nodes
  {
    forall i :: 0 <= i < |nodes| - 1 ==> Linked(nodes[i], nodes[i + 1])
  }

  ghost predicate Ring(nodes: seq<DListEntry>)
    reads nodes
  {
    nodes != [] && Distinct(nodes) && Chain(nodes) && Linked(nodes[|nodes| - 1], nodes[0])
  }

  ghost predicate List(head: DListEntry, entries: seq<DListEntry>)
    reads [head] + entries
  {
    Ring([head] + entries)
  }

  // ---- rings ----

  lemma SplitChain(a: seq<DListEntry>, b: seq<DListEntry>)
    requires a != [] && b != []
    ensures Chain(a + b) <==> Chain(a) && Chain(b) && Linked(a[|a| - 1], b[0])
  {
    var ab, n := a + b, |a|;
    if Chain(ab) {
      forall i | 0 <= i < |a| - 1
        ensures Linked(a[i], a[i + 1])
      {
        assert Linked(ab[i], ab[i + 1]);
      }
      forall i | 0 <= i < |b| - 1
        ensures Linked(b[i], b[i + 1])
      {
        var k := n + i;
        assert Linked(ab[k], ab[k + 1]);
      }
      assert Linked(ab[n - 1], ab[n - 1 + 1]);
    }
  }

  lemma SplitDistinct(a: seq<DListEntry>, b: seq<DListEntry>)
    ensures Distinct(a + b) <==> Distinct(a) && Distinct(b) && forall x :: x in a ==> x !in b
  {
    var ab := a + b;
    if Distinct(ab) {
      forall i, j | 0 <= i < j < |b|
        ensures b[i] != b[j]
      {
        assert ab[|a| + i] != ab[|a| + j];
      }
      forall i, j | 0 <= i < |a| && 0 <= j < |b|
        ensures a[i] != b[j]
      {
        assert ab[i] != ab[|a| + j];
      }
      assert forall i, j :: 0 <= i < j < |a| ==> ab[i] == a[i] && ab[j] == a[j];
    }
    if Distinct(a) && Distinct(b) && forall x :: x in a ==> x !in b {
      forall i, j | 0 <= i < j < |ab|
        ensures ab[i] != ab[j]
      {
        assert i < |a| ==> ab[i] in a;
        assert j >= |a| ==> ab[j] in b;
      }
    }
  }

  /** A ring can be read from any of its entries. */
  lemma Rotate(a: seq<DListEntry>, b: seq<DListEntry>)
    requires Ring(a + b)
    ensures Ring(b + a)
  {
    hide Chain, Distinct;
    if a == [] || b == [] {
      assert a + b == b + a;
    } else {
      SplitChain(a, b);
      SplitChain(b, a);
      SplitDistinct(a, b);
      SplitDistinct(b, a);
    }
  }

  /** Two chains closed into one ring. */
  lemma Join(a: seq<DListEntry>, b: seq<DListEntry>)
    requires a != [] && b != [] && Distinct(a) && Distinct(b) && forall x :: x in a ==> x !in b
    requires Chain(a) && Chain(b) && Linked(a[|a| - 1], b[0]) && Linked(b[|b| - 1], a[0])
    ensures Ring(a + b)
  {
    hide Chain, Distinct;
    SplitChain(a, b);
    SplitDistinct(a, b);
  }

  /** The forward and backward links are inverse to each other. */
  lemma Inverse(nodes: seq<DListEntry>, entry: DListEntry)
    requires Ring(nodes) && entry in nodes
    ensures entry.Flink in nodes && entry.Flink.Blink == entry
    ensures entry.Blink in nodes && entry.Blink.Flink == entry
  {
    var i :| 0 <= i < |nodes| && nodes[i] == entry;
    assert i < |nodes| - 1 ==> Linked(nodes[i], nodes[i + 1]);
    assert i > 0 ==> Linked(nodes[i - 1], nodes[i - 1 + 1]);
  }

  lemma {:induction false} SamePrefix(head: DListEntry, xs: seq<DListEntry>, ys: seq<DListEntry>, k: nat)
    requires List(head, xs) && List(head, ys) && k <= |xs|
    ensures k <= |ys| && ([head] + xs)[..k + 1] == ([head] + ys)[..k + 1]
  {
    var a, b := [head] + xs, [head] + ys;
    if k > 0 {
      SamePrefix(head, xs, ys, k - 1);
      assert a[k - 1] == a[..k][k - 1] == b[..k][k - 1] == b[k - 1];
      assert Linked(a[k - 1], a[k - 1 + 1]);
      assert a[k] != a[0];
      assert k - 1 < |b| - 1 ==> Linked(b[k - 1], b[k - 1 + 1]);
      assert a[..k + 1] == a[..k] + [a[k]] && b[..k + 1] == b[..k] + [b[k]];
    }
  }

  /** A head has one list only: the links decide what is in it and in which order. */
  lemma OneList(head: DListEntry, xs: seq<DListEntry>, ys: seq<DListEntry>)
    requires List(head, xs) && List(head, ys)
    ensures xs == ys
  {
    hide List;
    SamePrefix(head, xs, ys, |xs|);
    SamePrefix(head, ys, xs, |ys|);
    assert ([head] + xs)[1..] == xs && ([head] + ys)[1..] == ys;
    assert ([head] + xs)[..|xs| + 1] == [head] + xs && ([head] + ys)[..|xs| + 1] == [head] + ys;
  }

  // ---- the operations ----

  method InitializeListHead(listHead: DListEntry)
    modifies listHead
    ensures List(listHead, [])
  {
    listHead.Blink := listHead;
    listHead.Flink := listHead.Blink;
  }

  method IsListEmpty(listHead: DListEntry, ghost entries: seq<DListEntry>) returns (empty: bool)
    requires List(listHead, entries)
    ensures empty <==> entries == []
  {
    assert entries != [] ==> Linked(([listHead] + entries)[0], ([listHead] + entries)[0 + 1]);
    empty := listHead.Flink == listHead;
  }

  /** DList_RemoveEntryList on a ring read from the entry. */
  method RemoveFirst(entry: DListEntry, ghost rest: seq<DListEntry>) returns (alone: bool)
    requires Ring([entry] + rest)
    modifies entry.Flink, entry.Blink
    ensures rest != [] ==> Ring(rest) && entry.Flink == old(entry.Flink) && entry.Blink == old(entry.Blink)
    ensures alone <==> |rest| <= 1
  {
    ghost var nodes := [entry] + rest;
    SplitDistinct([entry], rest);
    if rest != [] {
      SplitChain([entry], rest);
      assert nodes[|nodes| - 1] == rest[|rest| - 1];
    }
    var flink := entry.Flink;
    var blink := entry.Blink;
    blink.Flink := flink;
    flink.Blink := blink;
    alone := flink == blink;
  }

  /** DList_RemoveEntryList: the result is non-zero exactly when at most one other entry was left. */
  method RemoveEntryList(entry: DListEntry, ghost front: seq<DListEntry>, ghost back: seq<DListEntry>) returns (alone: bool)
    requires Ring(front + [entry] + back)
    modifies entry.Flink, entry.Blink
    ensures front + back != [] ==> Ring(front + back) && entry.Flink == old(entry.Flink) && entry.Blink == old(entry.Blink)
    ensures alone <==> |front + back| <= 1
  {
    hide Ring;
    assert front + [entry] + back == front + ([entry] + back);
    Rotate(front, [entry] + back);
    assert [entry] + back + front == [entry] + (back + front);
    alone := RemoveFirst(entry, back + front);
    if front + back != [] {
      Rotate(back, front);
    }
  }

  method RemoveHeadList(listHead: DListEntry, ghost entries: seq<DListEntry>) returns (entry: DListEntry)
    requires List(listHead, entries)
    modifies listHead, listHead.Flink.Flink
    ensures entries == [] ==> entry == listHead && List(listHead, [])
    ensures entries != [] ==> entry == entries[0] && List(listHead, entries[1..])
  {
    if entries != [] {
      assert [listHead] + entries == [listHead] + [entries[0]] + entries[1..];
      assert Linked(([listHead] + entries)[0], ([listHead] + entries)[0 + 1]);
      SplitDistinct([listHead] + [entries[0]], entries[1..]);
      if |entries| > 1 {
        SplitChain([listHead] + [entries[0]], entries[1..]);
      }
    }
    ghost var rest := if entries == [] then [] else entries[1..];
    entry := listHead.Flink;
    var flink := entry.Flink;
    listHead.Flink := flink;
    flink.Blink := listHead;
    if rest != [] {
      Join([listHead], rest);
    }
  }

  method InsertTailList(listHead: DListEntry, entry: DListEntry, ghost entries: seq<DListEntry>)
    requires List(listHead, entries) && entry !in [listHead] + entries
    modifies listHead, listHead.Blink, entry
    ensures List(listHead, entries + [entry])
  {
    ghost var nodes := [listHead] + entries;
    var blink := listHead.Blink;
    entry.Flink := listHead;
    entry.Blink := blink;
    blink.Flink := entry;
    listHead.Blink := entry;
    Join(nodes, [entry]);
    assert [listHead] + (entries + [entry]) == nodes + [entry];
  }

  method InsertHeadList(listHead: DListEntry, entry: DListEntry, ghost entries: seq<DListEntry>)
    requires List(listHead, entries) && entry !in [listHead] + entries
    modifies listHead, listHead.Flink, entry
    ensures List(listHead, [entry] + entries)
  {
    Rotate([listHead], entries);
    ghost var nodes := entries + [listHead];
    entry.Blink := listHead;
    entry.Flink := listHead.Flink;
    listHead.Flink.Blink := entry;
    listHead.Flink := entry;
    Join(nodes, [entry]);
    assert entries + [listHead] + [entry] == entries + [listHead, entry];
    Rotate(entries, [listHead, entry]);
    assert [listHead] + ([entry] + entries) == [listHead, entry] + entries;
  }

  /** The appended ring has no head of its own: it starts with the entry given. */
  method AppendTailList(listHead: DListEntry, listToAppend: DListEntry, ghost entries: seq<DListEntry>, ghost others: seq<DListEntry>)
    requires List(listHead, entries) && List(listToAppend, others)
    requires forall x :: x in [listHead] + entries ==> x !in [listToAppend] + others
    modifies listHead, listHead.Blink, listToAppend, listToAppend.Blink
    ensures List(listHead, entries + [listToAppend] + others)
  {
    ghost var nodes, more := [listHead] + entries, [listToAppend] + others;
    var listEnd := listHead.Blink;
    assert listEnd in nodes && listToAppend.Blink in more;
    listHead.Blink.Flink := listToAppend;
    listHead.Blink := listToAppend.Blink;
    listToAppend.Blink.Flink := listHead;
    listToAppend.Blink := listEnd;
    Join(nodes, more);
    assert [listHead] + (entries + [listToAppend] + others) == nodes + more;
  }
}
