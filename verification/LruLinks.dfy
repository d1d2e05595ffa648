/** The connection table on values: what its arrays mean, and what relinking one slot does to
    that meaning. */
module LruLinks {
  import opened Sequences

  /** One slot. -1 stands for no neighbour and no key, as in the source. */
  datatype Node<T> = Node(value: T, pre: int, next: int, key: int, lastActive: int)

  /** What a used slot holds for its user. */
  datatype Entry<T> = Entry(key: int, lastActive: int, value: T)

  ghost predicate InRange(s: seq<int>, n: nat) {
    forall i :: 0 <= i < |s| ==> 0 <= s[i] < n
  }

  function Drop<X>(s: seq<X>, k: nat): (r: seq<X>)
    requires k < |s|
    ensures |r| == |s| - 1
    ensures forall i {:trigger r[i]} :: 0 <= i < |r| ==> r[i] == if i < k then s[i] else s[i + 1]
  {
    s[..k] + s[k + 1..]
  }

  function First(s: seq<int>): int { if s == [] then -1 else s[0] }
  function Last(s: seq<int>): int { if s == [] then -1 else s[|s| - 1] }
  function Before(s: seq<int>, i: nat): int requires i < |s| { if i == 0 then -1 else s[i - 1] }
  function After(s: seq<int>, i: nat): int requires i < |s| { if i == |s| - 1 then -1 else s[i + 1] }

  /** The doubly linked list through `order`. */
  ghost predicate Linked<T>(ns: seq<Node<T>>, order: seq<int>) {
    && InRange(order, |ns|) && Distinct(order)
    && (forall i {:trigger ns[order[i]]} :: 0 <= i < |order| ==> ns[order[i]].pre == Before(order, i))
    && (forall i {:trigger ns[order[i]]} :: 0 <= i < |order| ==> ns[order[i]].next == After(order, i))
  }

  /** The free list through `free`, over blank slots. */
  ghost predicate FreeLinked<T>(ns: seq<Node<T>>, next: seq<int>, free: seq<int>, blank: T) {
    && |next| == |ns| && InRange(free, |ns|) && Distinct(free)
    && (forall i {:trigger next[free[i]]} :: 0 <= i < |free| ==> next[free[i]] == After(free, i))
    && (forall i {:trigger ns[free[i]]} :: 0 <= i < |free| ==> ns[free[i]].value == blank)
  }

  /** Used and free slots partition the table. */
  ghost predicate Partition(order: seq<int>, free: seq<int>, n: nat) {
    && (forall i, j :: 0 <= i < |order| && 0 <= j < |free| ==> order[i] != free[j])
    && (forall s :: 0 <= s < n ==> s in order || s in free)
  }

  /** The map is exactly key-to-slot on the used slots. */
  ghost predicate Mapped<T>(ns: seq<Node<T>>, dp: map<int, int>, order: seq<int>) {
    && InRange(order, |ns|)
    && (forall i {:trigger ns[order[i]]} :: 0 <= i < |order| ==>
         ns[order[i]].key in dp && dp[ns[order[i]].key] == order[i])
    && (forall k :: k in dp ==> dp[k] in order && ns[dp[k]].key == k)
  }

  function EntryAt<T>(n: Node<T>): Entry<T> {
    Entry(n.key, n.lastActive, n.value)
  }

  /** The table as its user sees it: the entries from most to least recent. */
  ghost function EntriesOf<T>(ns: seq<Node<T>>, order: seq<int>): (es: seq<Entry<T>>)
    requires InRange(order, |ns|)
    ensures |es| == |order| && forall i {:trigger es[i]} :: 0 <= i < |es| ==> es[i] == EntryAt(ns[order[i]])
  {
    seq(|order|, i requires 0 <= i < |order| => EntryAt(ns[order[i]]))
  }

  /** Only links differ. */
  ghost predicate SameButLinks<T>(a: seq<Node<T>>, b: seq<Node<T>>) {
    |a| == |b| && forall s :: 0 <= s < |a| ==> b[s] == a[s].(pre := b[s].pre, next := b[s].next)
  }

  // ---- relinking -----------------------------------------------------------------------

  /** The slots after `idx` has been unlinked, in the order the assignments are made. */
  function Unlink<T>(ns: seq<Node<T>>, idx: int): seq<Node<T>>
    requires Unlinkable(ns, idx)
  {
    var p, q := ns[idx].pre, ns[idx].next;
    var a := if p != -1 then ns[p := ns[p].(next := q)] else ns;
    var b := if q != -1 then a[q := a[q].(pre := p)] else a;
    b[idx := b[idx].(pre := -1, next := -1)]
  }

  /** The neighbours of a used slot are other slots, or none. */
  ghost predicate Unlinkable<T>(ns: seq<Node<T>>, idx: int) {
    && 0 <= idx < |ns| && -1 <= ns[idx].pre < |ns| && -1 <= ns[idx].next < |ns|
    && ns[idx].pre != idx && ns[idx].next != idx
  }

  lemma UsedIsUnlinkable<T>(ns: seq<Node<T>>, order: seq<int>, k: nat)
    requires Linked(ns, order) && k < |order|
    ensures Unlinkable(ns, order[k])
  {
    assert ns[order[k]].pre == Before(order, k) && ns[order[k]].next == After(order, k);
  }

  /** What unlinking does to the slot at position `i`: its neighbours close the gap. */
  lemma UnlinkAt<T>(ns: seq<Node<T>>, order: seq<int>, k: nat, i: nat)
    requires Linked(ns, order) && k < |order| && i < |order| && i != k && Unlinkable(ns, order[k])
    ensures var n := Unlink(ns, order[k])[order[i]];
            && n.pre == (if i == k + 1 then Before(order, k) else Before(order, i))
            && n.next == (if i + 1 == k then After(order, k) else After(order, i))
  {
    assert ns[order[k]].pre == Before(order, k) && ns[order[k]].next == After(order, k);
    assert ns[order[i]].pre == Before(order, i) && ns[order[i]].next == After(order, i);
    assert order[i] == Before(order, k) <==> i + 1 == k;
    assert order[i] == After(order, k) <==> i == k + 1;
  }

  lemma UnlinkKeepsList<T>(ns: seq<Node<T>>, order: seq<int>, k: nat)
    requires Linked(ns, order) && k < |order| && Unlinkable(ns, order[k])
    ensures Linked(Unlink(ns, order[k]), Drop(order, k))
  {
    var r := Drop(order, k);
    var ms := Unlink(ns, order[k]);
    forall i | 0 <= i < |r| ensures ms[r[i]].pre == Before(r, i) && ms[r[i]].next == After(r, i) {
      UnlinkAt(ns, order, k, if i < k then i else i + 1);
    }
  }

  lemma UnlinkKeepsRest<T>(ns: seq<Node<T>>, order: seq<int>, k: nat)
    requires Linked(ns, order) && k < |order| && Unlinkable(ns, order[k])
    ensures SameButLinks(ns, Unlink(ns, order[k]))
    ensures forall s :: 0 <= s < |ns| && s !in order ==> Unlink(ns, order[k])[s] == ns[s]
  {
    assert ns[order[k]].pre == Before(order, k) && ns[order[k]].next == After(order, k);
  }

  /** The slots after `idx` has been linked in before the old head. */
  function LinkFirst<T>(ns: seq<Node<T>>, idx: int, head: int): seq<Node<T>>
    requires 0 <= idx < |ns| && -1 <= head < |ns| && head != idx
  {
    var a := ns[idx := ns[idx].(pre := -1, next := head)];
    if head != -1 then a[head := a[head].(pre := idx)] else a
  }

  lemma LinkFirstKeeps<T>(ns: seq<Node<T>>, order: seq<int>, idx: int)
    requires Linked(ns, order) && 0 <= idx < |ns| && idx !in order
    ensures First(order) != idx && -1 <= First(order) < |ns|
    ensures Linked(LinkFirst(ns, idx, First(order)), [idx] + order)
    ensures SameButLinks(ns, LinkFirst(ns, idx, First(order)))
    ensures forall s :: 0 <= s < |ns| && s != idx && s !in order ==> LinkFirst(ns, idx, First(order))[s] == ns[s]
  {
  }

  // ---- the whole table -----------------------------------------------------------------

  datatype Table<T> = Table(ns: seq<Node<T>>, next: seq<int>, dp: map<int, int>, order: seq<int>, free: seq<int>)

  ghost predicate Good<T>(t: Table<T>, blank: T) {
    && t.ns != [] && Linked(t.ns, t.order) && FreeLinked(t.ns, t.next, t.free, blank)
    && Partition(t.order, t.free, |t.ns|) && Mapped(t.ns, t.dp, t.order)
  }

  /** Used and free slots together are all slots, so a table without free slots is full. */
  lemma {:induction false} Counted(s: seq<int>, n: nat)
    requires InRange(s, n) && Distinct(s)
    ensures |s| <= n
    ensures |s| == n ==> forall x :: 0 <= x < n ==> x in s
    ensures (forall x :: 0 <= x < n ==> x in s) ==> |s| == n
    decreases n
  {
    if n > 0 {
      if i :| 0 <= i < |s| && s[i] == n - 1 {
        Counted(Drop(s, i), n - 1);
        forall x | 0 <= x < n && (x in Drop(s, i) || x == n - 1) ensures x in s {
        }
        forall x | 0 <= x < n - 1 && x in s ensures x in Drop(s, i) {
          var j :| 0 <= j < |s| && s[j] == x;
          assert Drop(s, i)[if j < i then j else j - 1] == x;
        }
      } else {
        assert n - 1 !in s;
        Counted(s, n - 1);
      }
    } else if s != [] {
      FirstInRange(s, n);
    }
  }

  lemma FirstInRange(s: seq<int>, n: nat)
    requires InRange(s, n)
    ensures s != [] ==> 0 <= First(s) < n
  {
  }

  lemma PartitionSizes(order: seq<int>, free: seq<int>, n: nat)
    requires InRange(order, n) && InRange(free, n) && Distinct(order) && Distinct(free) && Partition(order, free, n)
    ensures |order| + |free| == n
  {
    var s := order + free;
    forall i, j | 0 <= i < j < |s| ensures s[i] != s[j] {
    }
    forall x | 0 <= x < n ensures x in s {
    }
    Counted(s, n);
  }

  /** A change that leaves links, keys and free slots alone leaves the table good. */
  lemma UpdateKeeps<T>(t: Table<T>, blank: T, k: nat, n: Node<T>)
    requires Good(t, blank) && k < |t.order|
    requires var m := t.ns[t.order[k]]; n.pre == m.pre && n.next == m.next && n.key == m.key
    ensures Good(t.(ns := t.ns[t.order[k] := n]), blank)
  {
    var ms := t.ns[t.order[k] := n];
    assert forall s :: 0 <= s < |ms| ==>
      ms[s].pre == t.ns[s].pre && ms[s].next == t.ns[s].next && ms[s].key == t.ns[s].key;
    assert forall i {:trigger ms[t.free[i]]} :: 0 <= i < |t.free| ==> ms[t.free[i]] == t.ns[t.free[i]];
  }

  lemma UpdateEntries<T>(ns: seq<Node<T>>, order: seq<int>, k: nat, n: Node<T>)
    requires InRange(order, |ns|) && Distinct(order) && k < |order|
    ensures EntriesOf(ns[order[k] := n], order) == EntriesOf(ns, order)[k := EntryAt(n)]
  {
  }

  /** Relinking changes neither keys nor values, so only the order of the list matters. */
  lemma RelinkKeeps<T>(t: Table<T>, blank: T, ms: seq<Node<T>>, order: seq<int>)
    requires Good(t, blank) && SameButLinks(t.ns, ms) && Linked(ms, order)
    requires forall s :: s in order <==> s in t.order
    ensures Good(t.(ns := ms, order := order), blank)
  {
    assert forall i :: 0 <= i < |t.free| ==> ms[t.free[i]].value == blank;
    forall i | 0 <= i < |order| ensures ms[order[i]].key in t.dp && t.dp[ms[order[i]].key] == order[i] {
      assert order[i] in order;
      var j :| 0 <= j < |t.order| && t.order[j] == order[i];
    }
    forall i, j | 0 <= i < |order| && 0 <= j < |t.free| ensures order[i] != t.free[j] {
      assert order[i] in order;
      var q :| 0 <= q < |t.order| && t.order[q] == order[i];
    }
  }

  /** The list after the entry at position `k` has been moved to the front. */
  ghost function MovedOrder(order: seq<int>, k: nat): seq<int>
    requires k < |order|
  {
    [order[k]] + Drop(order, k)
  }

  lemma DropIsIn(order: seq<int>, k: nat)
    requires k < |order| && Distinct(order)
    ensures Distinct(Drop(order, k)) && order[k] !in Drop(order, k)
    ensures forall x :: x in Drop(order, k) <==> x in order && x != order[k]
  {
    forall x | x in order && x != order[k] ensures x in Drop(order, k) {
      var i :| 0 <= i < |order| && order[i] == x;
      assert Drop(order, k)[if i < k then i else i - 1] == x;
    }
  }

  /** The slots after the entry at position `k` has been moved to the front. */
  ghost function Moved<T>(ns: seq<Node<T>>, order: seq<int>, k: nat): seq<Node<T>>
    requires Linked(ns, order) && k < |order|
  {
    UsedIsUnlinkable(ns, order, k);
    UnlinkKeepsList(ns, order, k);
    DropIsIn(order, k);
    LinkFirstAllowed(Unlink(ns, order[k]), Drop(order, k), order[k]);
    LinkFirst(Unlink(ns, order[k]), order[k], First(Drop(order, k)))
  }

  lemma LinkFirstAllowed<T>(ns: seq<Node<T>>, order: seq<int>, idx: int)
    requires Linked(ns, order) && idx !in order
    ensures 0 <= idx ==> First(order) != idx
    ensures -1 <= First(order) < |ns|
  {
  }

  lemma MoveLinks<T>(ns: seq<Node<T>>, order: seq<int>, k: nat)
    requires Linked(ns, order) && k < |order|
    ensures Linked(Moved(ns, order, k), MovedOrder(order, k)) && SameButLinks(ns, Moved(ns, order, k))
  {
    UsedIsUnlinkable(ns, order, k);
    UnlinkKeepsList(ns, order, k);
    UnlinkKeepsRest(ns, order, k);
    DropIsIn(order, k);
    LinkFirstKeeps(Unlink(ns, order[k]), Drop(order, k), order[k]);
  }

  lemma MoveKeeps<T>(t: Table<T>, blank: T, k: nat)
    requires Good(t, blank) && k < |t.order|
    ensures Good(t.(ns := Moved(t.ns, t.order, k), order := MovedOrder(t.order, k)), blank)
  {
    MoveLinks(t.ns, t.order, k);
    DropIsIn(t.order, k);
    RelinkKeeps(t, blank, Moved(t.ns, t.order, k), MovedOrder(t.order, k));
  }

  lemma MoveEntries<T>(ns: seq<Node<T>>, order: seq<int>, k: nat)
    requires Linked(ns, order) && k < |order|
    ensures InRange(MovedOrder(order, k), |Moved(ns, order, k)|)
    ensures EntriesOf(Moved(ns, order, k), MovedOrder(order, k)) ==
            [EntriesOf(ns, order)[k]] + Drop(EntriesOf(ns, order), k)
  {
    MoveLinks(ns, order, k);
  }

  /** All of it together, in the terms of the two assignments' results. */
  lemma PromotedTable<T>(t: Table<T>, blank: T, k: nat)
    requires Good(t, blank) && k < |t.order|
    ensures var idx, rest := t.order[k], Drop(t.order, k);
            && Unlinkable(t.ns, idx) && First(rest) != idx && -1 <= First(rest) < |t.ns|
            && var u := t.(ns := LinkFirst(Unlink(t.ns, idx), idx, First(rest)), order := MovedOrder(t.order, k));
               Good(u, blank) && EntriesOf(u.ns, u.order) ==
                   [EntriesOf(t.ns, t.order)[k]] + Drop(EntriesOf(t.ns, t.order), k)
  {
    MoveKeeps(t, blank, k);
    MoveEntries(t.ns, t.order, k);
    UsedIsUnlinkable(t.ns, t.order, k);
    UnlinkKeepsList(t.ns, t.order, k);
    DropIsIn(t.order, k);
    LinkFirstAllowed(Unlink(t.ns, t.order[k]), Drop(t.order, k), t.order[k]);
  }

  // ---- giving a slot back, taking one ---------------------------------------------------

  function BlankNode<T>(blank: T): Node<T> {
    Node(blank, -1, -1, -1, 0)
  }

  /** The table after the entry at position `k` has been removed. */
  ghost function Removed<T>(t: Table<T>, blank: T, k: nat): Table<T>
    requires Good(t, blank) && k < |t.order|
  {
    UsedIsUnlinkable(t.ns, t.order, k);
    var idx := t.order[k];
    Table(Unlink(t.ns, idx)[idx := BlankNode(blank)], t.next[idx := First(t.free)], t.dp - {t.ns[idx].key},
          Drop(t.order, k), [idx] + t.free)
  }

  lemma RemovedLinked<T>(t: Table<T>, blank: T, k: nat)
    requires Good(t, blank) && k < |t.order|
    ensures var u := Removed(t, blank, k);
            && Linked(u.ns, u.order) && |u.ns| == |t.ns|
            && (forall s :: s in u.order <==> s in t.order && s != t.order[k])
            && (forall s :: s in u.order ==> EntryAt(u.ns[s]) == EntryAt(t.ns[s]))
            && (forall s :: 0 <= s < |t.ns| && s !in t.order ==> u.ns[s] == t.ns[s])
  {
    UsedIsUnlinkable(t.ns, t.order, k);
    UnlinkKeepsList(t.ns, t.order, k);
    UnlinkKeepsRest(t.ns, t.order, k);
    DropIsIn(t.order, k);
    var a, r := Unlink(t.ns, t.order[k]), Drop(t.order, k);
    var b := a[t.order[k] := BlankNode(blank)];
    assert forall i {:trigger b[r[i]]} :: 0 <= i < |r| ==> r[i] in r && b[r[i]] == a[r[i]];
  }

  lemma PushFreeAt<T>(ns: seq<Node<T>>, next: seq<int>, free: seq<int>, blank: T, idx: int, i: nat)
    requires FreeLinked(ns, next, free, blank) && idx !in free && 0 <= idx < |ns| && i <= |free|
    ensures var f := [idx] + free; next[idx := First(free)][f[i]] == After(f, i)
  {
    if i > 0 {
      assert next[free[i - 1]] == After(free, i - 1);
      assert free[i - 1] != idx;
    }
  }

  /** A blank slot pushed on the free list. */
  lemma PushFree<T>(ns: seq<Node<T>>, ms: seq<Node<T>>, next: seq<int>, free: seq<int>, blank: T, idx: int)
    requires FreeLinked(ns, next, free, blank) && idx !in free && 0 <= idx < |ns| == |ms| && ms[idx].value == blank
    requires forall i {:trigger ms[free[i]]} :: 0 <= i < |free| ==> ms[free[i]] == ns[free[i]]
    ensures FreeLinked(ms, next[idx := First(free)], [idx] + free, blank)
  {
    var f, next' := [idx] + free, next[idx := First(free)];
    DistinctCons(idx, free);
    forall i {:trigger next'[f[i]]} | 0 <= i < |f| ensures next'[f[i]] == After(f, i) {
      PushFreeAt(ns, next, free, blank, idx, i);
    }
    forall i {:trigger ms[f[i]]} | 0 <= i < |f| ensures ms[f[i]].value == blank {
      if i > 0 {
        assert f[i] == free[i - 1] && ms[free[i - 1]] == ns[free[i - 1]];
      }
    }
  }

  lemma RemovedFree<T>(t: Table<T>, blank: T, k: nat)
    requires Good(t, blank) && k < |t.order|
    ensures var u := Removed(t, blank, k); FreeLinked(u.ns, u.next, u.free, blank)
  {
    RemovedLinked(t, blank, k);
    PushFree(t.ns, Removed(t, blank, k).ns, t.next, t.free, blank, t.order[k]);
  }

  lemma RemovedPartition<T>(t: Table<T>, blank: T, k: nat)
    requires Good(t, blank) && k < |t.order|
    ensures var u := Removed(t, blank, k); Partition(u.order, u.free, |u.ns|)
  {
    var idx := t.order[k];
    RemovedLinked(t, blank, k);
    PartitionMoves(t.order, t.free, |t.ns|, k);
  }

  lemma PartitionMoves(order: seq<int>, free: seq<int>, n: nat, k: nat)
    requires Partition(order, free, n) && Distinct(order) && k < |order|
    ensures Partition(Drop(order, k), [order[k]] + free, n)
  {
    DropIsIn(order, k);
    var r, f := Drop(order, k), [order[k]] + free;
    forall i, j | 0 <= i < |r| && 0 <= j < |f| ensures r[i] != f[j] {
      assert r[i] in r;
    }
    forall s | 0 <= s < n ensures s in r || s in f {
      if s in free {
        var j :| 0 <= j < |free| && free[j] == s;
        assert f[j + 1] == s;
      } else if s == order[k] {
        assert f[0] == s;
      }
    }
  }

  lemma RemovedMap<T>(t: Table<T>, blank: T, k: nat)
    requires Good(t, blank) && k < |t.order|
    ensures var u := Removed(t, blank, k); Mapped(u.ns, u.dp, u.order)
  {
    var idx, u := t.order[k], Removed(t, blank, k);
    UsedIsUnlinkable(t.ns, t.order, k);
    UnlinkKeepsRest(t.ns, t.order, k);
    DropIsIn(t.order, k);
    forall i | 0 <= i < |u.order| ensures u.ns[u.order[i]].key in u.dp && u.dp[u.ns[u.order[i]].key] == u.order[i] {
      var s := u.order[i];
      assert s in u.order;
      var j :| 0 <= j < |t.order| && t.order[j] == s;
      assert t.dp[t.ns[t.order[j]].key] == s;
    }
    forall key | key in u.dp ensures u.dp[key] in u.order && u.ns[u.dp[key]].key == key {
      assert t.dp[t.ns[t.order[k]].key] == idx;
    }
  }

  lemma RemovedKeeps<T>(t: Table<T>, blank: T, k: nat)
    requires Good(t, blank) && k < |t.order|
    ensures Good(Removed(t, blank, k), blank)
  {
    RemovedLinked(t, blank, k);
    RemovedFree(t, blank, k);
    RemovedPartition(t, blank, k);
    RemovedMap(t, blank, k);
  }

  lemma RemovedEntries<T>(t: Table<T>, blank: T, k: nat)
    requires Good(t, blank) && k < |t.order|
    ensures var u := Removed(t, blank, k);
            InRange(u.order, |u.ns|) && EntriesOf(u.ns, u.order) == Drop(EntriesOf(t.ns, t.order), k)
  {
    RemovedLinked(t, blank, k);
    var u := Removed(t, blank, k);
    SameEntries(u.ns, t.ns, u.order);
    DropEntries(t.ns, t.order, k);
  }

  lemma DropEntries<T>(ns: seq<Node<T>>, order: seq<int>, k: nat)
    requires InRange(order, |ns|) && k < |order|
    ensures InRange(Drop(order, k), |ns|) && EntriesOf(ns, Drop(order, k)) == Drop(EntriesOf(ns, order), k)
  {
  }

  lemma SameEntries<T>(a: seq<Node<T>>, b: seq<Node<T>>, order: seq<int>)
    requires |a| == |b| && InRange(order, |a|)
    requires forall s :: s in order ==> EntryAt(a[s]) == EntryAt(b[s])
    ensures EntriesOf(a, order) == EntriesOf(b, order)
  {
    forall i | 0 <= i < |order| ensures EntriesOf(a, order)[i] == EntriesOf(b, order)[i] {
      assert order[i] in order;
    }
  }

  /** The table after `key` has been given the first free slot. */
  ghost function Inserted<T>(t: Table<T>, blank: T, key: int, now: int): Table<T>
    requires Good(t, blank) && t.free != []
  {
    var idx := t.free[0];
    FreshSlot(t, blank, key, now);
    Table(LinkFirst(Filled(t.ns, idx, key, now), idx, First(t.order)), t.next, t.dp[key := idx], [idx] + t.order,
        t.free[1..])
  }

  function Filled<T>(ns: seq<Node<T>>, idx: int, key: int, now: int): seq<Node<T>>
    requires 0 <= idx < |ns|
  {
    ns[idx := ns[idx].(key := key, lastActive := now)]
  }

  lemma FreshSlot<T>(t: Table<T>, blank: T, key: int, now: int)
    requires Good(t, blank) && t.free != []
    ensures var idx := t.free[0];
            && 0 <= idx < |t.ns| && idx !in t.order && t.ns[idx].value == blank
            && Linked(Filled(t.ns, idx, key, now), t.order)
            && First(t.order) != idx && -1 <= First(t.order) < |t.ns|
  {
    var idx := t.free[0];
    var a := Filled(t.ns, idx, key, now);
    assert t.ns[t.free[0]].value == blank;
    assert forall i {:trigger a[t.order[i]]} :: 0 <= i < |t.order| ==> a[t.order[i]] == t.ns[t.order[i]];
    LinkFirstAllowed(a, t.order, idx);
  }

  lemma InsertedLists<T>(t: Table<T>, blank: T, key: int, now: int)
    requires Good(t, blank) && t.free != []
    ensures var u := Inserted(t, blank, key, now);
            && Linked(u.ns, u.order) && FreeLinked(u.ns, u.next, u.free, blank) && Partition(u.order, u.free, |u.ns|)
  {
    hide Mapped, LinkFirst;
    var idx, u := t.free[0], Inserted(t, blank, key, now);
    FreshSlot(t, blank, key, now);
    LinkFirstKeeps(Filled(t.ns, idx, key, now), t.order, idx);
    forall i | 0 <= i < |u.free| ensures u.next[u.free[i]] == After(u.free, i) && u.ns[u.free[i]].value == blank {
      assert u.free[i] == t.free[i + 1];
      assert t.next[t.free[i + 1]] == After(t.free, i + 1);
      assert t.ns[t.free[i + 1]].value == blank;
    }
    forall s | 0 <= s < |u.ns| ensures s in u.order || s in u.free {
      if s in t.free {
        var j :| 0 <= j < |t.free| && t.free[j] == s;
        assert j > 0 ==> u.free[j - 1] == s;
      }
    }
  }

  lemma InsertedMap<T>(t: Table<T>, blank: T, key: int, now: int)
    requires Good(t, blank) && t.free != [] && key !in t.dp
    ensures var u := Inserted(t, blank, key, now); Mapped(u.ns, u.dp, u.order)
  {
    var idx, u := t.free[0], Inserted(t, blank, key, now);
    FreshSlot(t, blank, key, now);
    LinkFirstKeeps(Filled(t.ns, idx, key, now), t.order, idx);
    forall i | 0 <= i < |u.order| ensures u.ns[u.order[i]].key in u.dp && u.dp[u.ns[u.order[i]].key] == u.order[i] {
      if i > 0 {
        assert u.order[i] == t.order[i - 1];
        assert t.ns[t.order[i - 1]].key in t.dp;
      }
    }
    forall j | j in u.dp ensures u.dp[j] in u.order && u.ns[u.dp[j]].key == j {
    }
  }

  lemma InsertedKeeps<T>(t: Table<T>, blank: T, key: int, now: int)
    requires Good(t, blank) && t.free != [] && key !in t.dp
    ensures Good(Inserted(t, blank, key, now), blank)
  {
    InsertedLists(t, blank, key, now);
    InsertedMap(t, blank, key, now);
  }

  lemma InsertedEntries<T>(t: Table<T>, blank: T, key: int, now: int)
    requires Good(t, blank) && t.free != []
    ensures var u := Inserted(t, blank, key, now);
            InRange(u.order, |u.ns|) && EntriesOf(u.ns, u.order) == [Entry(key, now, blank)] + EntriesOf(t.ns, t.order)
  {
    var idx, u := t.free[0], Inserted(t, blank, key, now);
    FreshSlot(t, blank, key, now);
    LinkFirstKeeps(Filled(t.ns, idx, key, now), t.order, idx);
    SameEntries(u.ns, t.ns, t.order);
    ConsEntries(u.ns, t.order, idx);
  }

  lemma ConsEntries<T>(ns: seq<Node<T>>, order: seq<int>, idx: int)
    requires InRange(order, |ns|) && 0 <= idx < |ns|
    ensures InRange([idx] + order, |ns|) && EntriesOf(ns, [idx] + order) == [EntryAt(ns[idx])] + EntriesOf(ns, order)
  {
  }
}
