/** The connection table of a worker, on its arrays, against the plain sequence it stands for. */
module LruCache {
  import opened LruLinks

  // ---- the specification: a bounded sequence of distinct keys, most recent first -------

  /** The position of `key`; the length when it is absent. */
  function Find<T>(es: seq<Entry<T>>, key: int): (k: nat)
    ensures k <= |es|
    ensures k < |es| ==> es[k].key == key
    ensures forall i :: 0 <= i < k ==> es[i].key != key
  {
    if es == [] || es[0].key == key then 0 else 1 + Find(es[1..], key)
  }

  /** `key` seen at `now`, staying where it is. */
  function Refreshed<T>(es: seq<Entry<T>>, key: int, now: int): seq<Entry<T>> {
    var k := Find(es, key);
    if k < |es| then es[k := es[k].(lastActive := now)] else es
  }

  /** `key` seen at `now` and moved to the front. */
  function Recent<T>(es: seq<Entry<T>>, key: int, now: int): seq<Entry<T>> {
    var k := Find(es, key);
    if k < |es| then [es[k].(lastActive := now)] + Drop(es, k) else es
  }

  function Without<T>(es: seq<Entry<T>>, key: int): seq<Entry<T>> {
    var k := Find(es, key);
    if k < |es| then Drop(es, k) else es
  }

  /** `key` at the front; when it is new and the table is full, the last entry makes room. */
  function Inserting<T>(es: seq<Entry<T>>, capacity: nat, key: int, now: int, blank: T): seq<Entry<T>> {
    if Find(es, key) < |es| then Recent(es, key, now)
    else [Entry(key, now, blank)] + (if |es| < capacity || es == [] then es else es[..|es| - 1])
  }

  /** The slot of a key stands at the position of its entry. */
  lemma SlotStands<T>(t: Table<T>, blank: T, key: int) returns (k: nat)
    requires Good(t, blank) && key in t.dp
    ensures k < |t.order| && t.order[k] == t.dp[key] && Find(EntriesOf(t.ns, t.order), key) == k
  {
    k :| 0 <= k < |t.order| && t.order[k] == t.dp[key];
    var es := EntriesOf(t.ns, t.order);
    assert es[k].key == key;
    var f := Find(es, key);
    assert es[f] == EntryAt(t.ns[t.order[f]]);
    assert t.dp[t.ns[t.order[f]].key] == t.order[f];
  }

  lemma KeyAbsent<T>(t: Table<T>, blank: T, key: int)
    requires Good(t, blank) && key !in t.dp
    ensures Find(EntriesOf(t.ns, t.order), key) == |t.order|
  {
    var es := EntriesOf(t.ns, t.order);
    forall i | 0 <= i < |es| ensures es[i].key != key {
      assert es[i] == EntryAt(t.ns[t.order[i]]);
      assert t.ns[t.order[i]].key in t.dp;
    }
  }

  // ---- the implementation ----------------------------------------------------------------

  class LRU<T(!new)> {
    const nodes: array<Node<T>>
    const next: array<int>
    const blank: T
    var dp: map<int, int>
    var head: int
    var tail: int
    var freeNodeIdx: int

    /** The used slots from most to least recent, and the free slots in list order. */
    ghost var order: seq<int>
    ghost var free: seq<int>

    ghost function Tbl(): Table<T>
      reads nodes, next, `dp, `order, `free
    {
      Table(nodes[..], next[..], dp, order, free)
    }

    ghost predicate Valid()
      reads this, nodes, next
    {
      && nodes as object != next as object
      && Good(Tbl(), blank)
      && head == First(order) && tail == Last(order) && freeNodeIdx == First(free)
    }

    /** The table as its user sees it. */
    ghost function Entries(): seq<Entry<T>>
      reads this, nodes, next
      requires Valid()
    {
      EntriesOf(nodes[..], order)
    }

    /** Live keys that stay live keep their slots. */
    twostate predicate SlotsKept()
      reads this
    {
      forall k :: k in dp && k in old(dp) ==> dp[k] == old(dp[k])
    }

    constructor (capacity: nat, blank: T)
      requires capacity > 0
      ensures Valid() && Entries() == [] && dp == map[] && fresh(nodes) && fresh(next)
      ensures nodes.Length == capacity && this.blank == blank
    {
      nodes := new Node<T>[capacity](_ => BlankNode(blank));
      next := new int[capacity](_ => -1);
      this.blank := blank;
      dp, head, tail, freeNodeIdx := map[], -1, -1, 0;
      order, free := [], seq(capacity, i => i);
      new;
      for i := 1 to capacity
        invariant forall j :: 0 <= j < i - 1 ==> next[j] == j + 1
        invariant forall j :: i - 1 <= j < capacity ==> next[j] == -1
        invariant forall j :: 0 <= j < capacity ==> nodes[j] == BlankNode(blank)
        modifies next
      {
        next[i - 1] := i;
      }
      InitiallyGood(nodes[..], next[..], free, blank);
    }

    static lemma InitiallyGood(ns: seq<Node<T>>, next: seq<int>, free: seq<int>, blank: T)
      requires ns != [] && |next| == |free| == |ns|
      requires forall i :: 0 <= i < |ns| ==> ns[i] == BlankNode(blank) && free[i] == i
      requires forall i :: 0 <= i < |ns| ==> next[i] == if i == |ns| - 1 then -1 else i + 1
      ensures Good(Table(ns, next, map[], [], free), blank)
    {
      forall s | 0 <= s < |ns| ensures s in free {
        assert free[s] == s;
      }
    }

    /** Slot `idx` stands at position `k` of the list, between the neighbours it names. */
    ghost predicate Standing(idx: int, k: nat)
      reads nodes, `order, `head, `tail
    {
      && k < |order| && order[k] == idx && InRange(order, nodes.Length)
      && head == First(order) && tail == Last(order) && Unlinkable(nodes[..], idx)
      && nodes[idx].pre == Before(order, k) && nodes[idx].next == After(order, k)
    }

    lemma UsedStands(k: nat)
      requires Valid() && k < |order|
      ensures Standing(order[k], k)
    {
      UsedIsUnlinkable(nodes[..], order, k);
      assert nodes[..][order[k]].pre == Before(order, k) && nodes[..][order[k]].next == After(order, k);
    }

    /** Unlink slot `idx`, which stands at position `k` of the list. */
    method Detach(idx: int, ghost k: nat)
      requires Standing(idx, k)
      modifies nodes, `head, `tail, `order
      ensures nodes[..] == Unlink(old(nodes[..]), idx)
      ensures order == Drop(old(order), k) && head == First(order) && tail == Last(order)
    {
      if nodes[idx].pre != -1 {
        nodes[nodes[idx].pre] := nodes[nodes[idx].pre].(next := nodes[idx].next);
      } else {
        head := nodes[idx].next;
      }
      if nodes[idx].next != -1 {
        nodes[nodes[idx].next] := nodes[nodes[idx].next].(pre := nodes[idx].pre);
      } else {
        tail := nodes[idx].pre;
      }
      nodes[idx] := nodes[idx].(pre := -1);
      nodes[idx] := nodes[idx].(next := -1);
      order := Drop(order, k);
    }

    /** Link an unlinked slot in at the front. */
    method AttachHead(idx: int)
      requires head == First(order) && tail == Last(order) && InRange(order, nodes.Length)
      requires 0 <= idx < nodes.Length && idx != head
      modifies nodes, `head, `tail, `order
      ensures -1 <= old(head) < nodes.Length
      ensures nodes[..] == LinkFirst(old(nodes[..]), idx, old(head))
      ensures order == [idx] + old(order) && head == First(order) && tail == Last(order)
    {
      nodes[idx] := nodes[idx].(next := head);
      nodes[idx] := nodes[idx].(pre := -1);
      if head != -1 {
        nodes[head] := nodes[head].(pre := idx);
      }
      head := idx;
      if tail == -1 {
        tail := idx;
      }
      order := [idx] + order;
    }

    /** The slot at position `k` goes to the front. */
    method Relink(idx: int, ghost k: nat)
      requires Standing(idx, k) && First(Drop(order, k)) != idx
      modifies nodes, `head, `tail, `order
      ensures order == MovedOrder(old(order), k) && head == First(order) && tail == Last(order)
      ensures -1 <= First(Drop(old(order), k)) < nodes.Length
      ensures nodes[..] == LinkFirst(Unlink(old(nodes[..]), idx), idx, First(Drop(old(order), k)))
    {
      Detach(idx, k);
      AttachHead(idx);
    }

    /** Slot `idx`, at position `k`, seen at `now`. */
    method Stamp(idx: int, now: int, ghost k: nat)
      requires Valid() && k < |order| && order[k] == idx
      modifies nodes
      ensures Valid() && Entries() == old(Entries())[k := old(Entries())[k].(lastActive := now)]
    {
      ghost var t := Tbl();
      ghost var n := nodes[idx].(lastActive := now);
      UpdateKeeps(t, blank, k, n);
      UpdateEntries(t.ns, order, k, n);
      nodes[idx] := nodes[idx].(lastActive := now);
      assert nodes[..] == t.ns[idx := n];
    }

    /** The slot at position `k` goes to the front, in a table that stays good. */
    method Promote(idx: int, ghost k: nat)
      requires Valid() && k < |order| && order[k] == idx
      modifies nodes, `head, `tail, `order
      ensures Valid() && Entries() == [old(Entries())[k]] + Drop(old(Entries()), k)
    {
      hide Good, Unlink, LinkFirst, EntriesOf, MovedOrder, Drop, LRU.Standing;
      PromotedTable(Tbl(), blank, k);
      UsedStands(k);
      Relink(idx, k);
    }

    lemma HeadIsFirst(k: nat)
      requires Valid() && k < |order| && order[k] == head
      ensures k == 0
    {
    }

    /** Slot `idx`, at position `k`, seen at `now` and moved to the front unless it is there. */
    method MoveToFront(idx: int, now: int, ghost k: nat)
      requires Valid() && k < |order| && order[k] == idx
      modifies nodes, `head, `tail, `order
      ensures Valid()
      ensures Entries() == [old(Entries())[k].(lastActive := now)] + Drop(old(Entries()), k)
    {
      hide Good;
      ghost var es := Entries();
      Stamp(idx, now, k);
      assert Drop(Entries(), k) == Drop(es, k);
      if idx != head {
        Promote(idx, k);
      } else {
        HeadIsFirst(k);
        assert Entries() == [Entries()[0]] + Drop(Entries(), 0);
      }
    }

    /** The slot of `key`, seen at `now` and moved to the front; -1 when there is none. */
    method Get(key: int, now: int) returns (slot: int)
      requires Valid()
      modifies nodes, `head, `tail, `order
      ensures Valid() && Entries() == Recent(old(Entries()), key, now)
      ensures slot == if key in dp then dp[key] else -1
    {
      if key !in dp {
        KeyAbsent(Tbl(), blank, key);
        return -1;
      }
      ghost var k := SlotStands(Tbl(), blank, key);
      slot := dp[key];
      MoveToFront(slot, now, k);
    }

    /** `slot` is where the value of `key` is kept; -1 when it has none. */
    ghost predicate Finds(key: int, slot: int)
      reads this, nodes, next
      requires Valid()
    {
      var k := Find(Entries(), key);
      if k == |Entries()| then slot == -1
      else 0 <= slot < nodes.Length && key in dp && nodes[slot].value == Entries()[k].value
    }

    lemma Located(key: int)
      requires Valid() && key in dp
      ensures Finds(key, dp[key])
    {
      var k := SlotStands(Tbl(), blank, key);
      assert Entries()[k] == EntryAt(nodes[order[k]]);
    }

    /** As `Get`, but the entry stays where it is in the list. */
    method GetWithoutMove(key: int, now: int) returns (slot: int)
      requires Valid()
      modifies nodes
      ensures Valid() && Entries() == Refreshed(old(Entries()), key, now)
      ensures slot == if key in dp then dp[key] else -1
      ensures Finds(key, slot)
    {
      if key !in dp {
        KeyAbsent(Tbl(), blank, key);
        return -1;
      }
      ghost var k := SlotStands(Tbl(), blank, key);
      slot := dp[key];
      Stamp(slot, now, k);
      Located(key);
    }

    /** As `Get`, without an answer. */
    method MakeRecent(key: int, now: int)
      requires Valid()
      modifies nodes, `head, `tail, `order
      ensures Valid() && Entries() == Recent(old(Entries()), key, now)
    {
      var _ := Get(key, now);
    }

    /** Write through the pointer that `Get` returned. */
    method Assign(key: int, v: T)
      requires Valid() && key in dp
      modifies nodes
      ensures Valid()
      ensures var k := Find(old(Entries()), key);
              k < |old(Entries())| && Entries() == old(Entries())[k := old(Entries())[k].(value := v)]
    {
      ghost var t := Tbl();
      ghost var k := SlotStands(t, blank, key);
      var slot := dp[key];
      ghost var n := nodes[slot].(value := v);
      UpdateKeeps(t, blank, k, n);
      UpdateEntries(t.ns, order, k, n);
      nodes[slot] := nodes[slot].(value := v);
      assert nodes[..] == t.ns[slot := n];
    }

    /** Unlink, blank and push slot `idx` on the free list; forget its key. */
    method Recycle(idx: int, ghost k: nat)
      requires Standing(idx, k) && next.Length == nodes.Length && nodes as object != next as object
      modifies this, nodes, next
      ensures nodes[..] == Unlink(old(nodes[..]), idx)[idx := BlankNode(blank)]
      ensures next[..] == old(next[..])[idx := old(freeNodeIdx)]
      ensures dp == old(dp) - {old(nodes[idx].key)} && freeNodeIdx == idx && free == [idx] + old(free)
      ensures order == Drop(old(order), k) && head == First(order) && tail == Last(order)
    {
      var oldKey := nodes[idx].key;
      Detach(idx, k);
      dp := dp - {oldKey};
      nodes[idx] := BlankNode(blank);
      next[idx] := freeNodeIdx;
      freeNodeIdx := idx;
      free := [idx] + free;
    }

    /** Take slot `idx`, at position `k`, out of use: the end of both removal paths. */
    method Release(idx: int, ghost k: nat)
      requires Valid() && k < |order| && order[k] == idx
      modifies this, nodes, next
      ensures Valid() && Entries() == Drop(old(Entries()), k)
      ensures dp == old(dp) - {old(nodes[idx].key)} && freeNodeIdx == idx
    {
      ghost var t := Tbl();
      RemovedKeeps(t, blank, k);
      RemovedEntries(t, blank, k);
      UsedStands(k);
      Recycle(idx, k);
      assert Tbl() == Removed(t, blank, k);
    }

    /** Put the first free slot to use for `key`. */
    method Occupy(key: int, now: int)
      requires Valid() && free != [] && key !in dp
      modifies this, nodes, next
      ensures Valid() && Entries() == [Entry(key, now, blank)] + old(Entries())
      ensures dp == old(dp)[key := old(freeNodeIdx)]
    {
      ghost var t := Tbl();
      InsertedKeeps(t, blank, key, now);
      InsertedEntries(t, blank, key, now);
      FreshSlot(t, blank, key, now);
      var currIdx := freeNodeIdx;
      assert next[free[0]] == After(free, 0);
      freeNodeIdx := next[freeNodeIdx];
      free := free[1..];
      nodes[currIdx] := nodes[currIdx].(key := key);
      nodes[currIdx] := nodes[currIdx].(lastActive := now);
      assert nodes[..] == Filled(t.ns, currIdx, key, now);
      dp := dp[key := currIdx];
      AttachHead(currIdx);
      assert Tbl() == Inserted(t, blank, key, now);
    }

    /** The table is full when there is no free slot. */
    lemma FullExactly()
      requires Valid()
      ensures |Entries()| + |free| == nodes.Length > 0 && (freeNodeIdx == -1 <==> free == [])
    {
      PartitionSizes(order, free, nodes.Length);
      FirstInRange(free, nodes.Length);
    }

    /** The least recent entry makes room. */
    method EvictOldest()
      requires Valid() && freeNodeIdx == -1
      modifies this, nodes, next
      ensures Valid() && free != [] && SlotsKept() && dp.Keys <= old(dp.Keys)
      ensures |old(Entries())| == nodes.Length && Entries() == old(Entries())[..nodes.Length - 1]
    {
      FullExactly();
      ghost var es := Entries();
      assert Drop(es, |es| - 1) == es[..|es| - 1];
      Release(tail, |order| - 1);
    }

    /** `key` at the front, in its old slot if it has one, else in a free slot, evicting the
        least recent entry when there is none. */
    method Put(key: int, now: int)
      requires Valid()
      modifies this, nodes, next
      ensures Valid() && Entries() == Inserting(old(Entries()), nodes.Length, key, now, blank)
      ensures SlotsKept() && key in dp
    {
      hide Good;
      ghost var es := Entries();
      if key in dp {
        ghost var k := SlotStands(Tbl(), blank, key);
        MoveToFront(dp[key], now, k);
        return;
      }
      KeyAbsent(Tbl(), blank, key);
      FullExactly();
      if freeNodeIdx == -1 {
        EvictOldest();
      }
      Occupy(key, now);
    }

    method Remove(key: int) returns (found: bool)
      requires Valid()
      modifies this, nodes, next
      ensures Valid() && Entries() == Without(old(Entries()), key)
      ensures found == (key in old(dp)) && dp == old(dp) - {key}
    {
      hide Linked, FreeLinked;
      if key !in dp {
        KeyAbsent(Tbl(), blank, key);
        return false;
      }
      ghost var k := SlotStands(Tbl(), blank, key);
      Release(dp[key], k);
      return true;
    }

    method GetLastActiveTime(key: int) returns (t: int)
      requires Valid()
      ensures var k := Find(Entries(), key); t == if k < |Entries()| then Entries()[k].lastActive else 0
    {
      if key !in dp {
        KeyAbsent(Tbl(), blank, key);
        return 0;
      }
      ghost var k := SlotStands(Tbl(), blank, key);
      return nodes[dp[key]].lastActive;
    }

    method Full() returns (full: bool)
      requires Valid()
      ensures full <==> |Entries()| == nodes.Length
    {
      FullExactly();
      return freeNodeIdx == -1;
    }

    method OldestKey() returns (key: int)
      requires Valid()
      ensures key == if Entries() == [] then -1 else Entries()[|Entries()| - 1].key
    {
      if tail == -1 {
        return -1;
      }
      return nodes[tail].key;
    }
  }
}
