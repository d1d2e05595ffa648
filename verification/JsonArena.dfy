/** The lifetime of documents in one pool: as long as the last one made is the first one gone, no
    living document loses a node, and releasing never fails. */
module JsonArena {
  import opened HttpText
  import opened JsonText
  import opened JsonTree
  import opened JsonParserObject

  /** A living document: where it stands, and what it is. */
  datatype Held = Held(start: nat, nodes: seq<Node>)

  /** What a program does with a parser and the documents it owns: parse, let go of the last one,
      move or copy the i-th one into a new object, move- or copy-assign it to the last one. */
  datatype Use =
    | Opening(body: string)
    | Closing
    | Moving(i: nat)
    | Copying(i: nat)
    | MovingOver(i: nat)
    | CopyingOver(i: nat)

  function Used(docs: seq<Held>): nat {
    if docs == [] then 0 else docs[|docs| - 1].start + |docs[|docs| - 1].nodes|
  }

  /** The living documents after one more use of a pool of `size` nodes. */
  function Next(size: nat, docs: seq<Held>, use: Use): seq<Held> {
    match use
    case Opening(body) =>
      if Used(docs) + |Build(body).nodes| <= size then docs + [Held(Used(docs), Build(body).nodes)] else docs
    case Closing => if docs == [] then [] else docs[..|docs| - 1]
    case Moving(_) => docs
    case Copying(_) => docs
    case MovingOver(i) => if i + 1 < |docs| then docs[..|docs| - 1] else docs
    case CopyingOver(i) => if i + 1 < |docs| then docs[..|docs| - 1] else docs
  }

  function Living(size: nat, uses: seq<Use>): seq<Held> {
    if uses == [] then [] else Next(size, Living(size, uses[..|uses| - 1]), uses[|uses| - 1])
  }

  /** Documents stand one behind another, from the start of the pool on. */
  ghost predicate Packed(docs: seq<Held>) {
    && (docs != [] ==> docs[0].start == 0)
    && (forall i :: 0 <= i < |docs| ==> docs[i].nodes != [])
    && forall i, j :: 0 <= i < j < |docs| ==>
         docs[i].start + |docs[i].nodes| <= docs[j].start &&
             (j == i + 1 ==> docs[i].start + |docs[i].nodes| == docs[j].start)
  }

  /** Every document is intact. */
  ghost predicate Holds(pool: seq<Node>, docs: seq<Held>) {
    && Packed(docs) && Used(docs) <= |pool|
    && forall i :: 0 <= i < |docs| ==> Stored(pool, docs[i].start, docs[i].nodes)
  }

  lemma StoredBelow(pool: seq<Node>, after: seq<Node>, used: nat, d: Held)
    requires Stored(pool, d.start, d.nodes) && d.start + |d.nodes| <= used <= |pool| == |after|
    requires after[..used] == pool[..used]
    ensures Stored(after, d.start, d.nodes)
  {
    forall i {:trigger d.nodes[i]} | 0 <= i < |d.nodes| ensures after[d.start + i] == Shifted(d.nodes[i], d.start) {
      assert after[..used][d.start + i] == pool[..used][d.start + i];
    }
  }

  lemma EndsBelow(docs: seq<Held>, i: nat)
    requires Packed(docs) && i < |docs|
    ensures docs[i].start + |docs[i].nodes| <= Used(docs)
  {
  }

  /** A parse that leaves the nodes in use alone disturbs no document. */
  lemma HoldsAbove(pool: seq<Node>, after: seq<Node>, docs: seq<Held>)
    requires Holds(pool, docs) && |after| == |pool| && after[..Used(docs)] == pool[..Used(docs)]
    ensures Holds(after, docs)
  {
    forall i | 0 <= i < |docs| ensures Stored(after, docs[i].start, docs[i].nodes) {
      EndsBelow(docs, i);
      StoredBelow(pool, after, Used(docs), docs[i]);
    }
  }

  lemma HoldsMore(pool: seq<Node>, docs: seq<Held>, nodes: seq<Node>)
    requires Holds(pool, docs) && Stored(pool, Used(docs), nodes) && nodes != []
    ensures Holds(pool, docs + [Held(Used(docs), nodes)])
  {
    var more := docs + [Held(Used(docs), nodes)];
    forall i, j | 0 <= i < j < |more|
      ensures more[i].start + |more[i].nodes| <= more[j].start
      ensures j == i + 1 ==> more[i].start + |more[i].nodes| == more[j].start
    {
      if j == |docs| { EndsBelow(docs, i); }
    }
  }

  lemma HoldsFewer(pool: seq<Node>, docs: seq<Held>)
    requires Holds(pool, docs) && docs != []
    ensures Holds(pool, docs[..|docs| - 1]) && Used(docs[..|docs| - 1]) == docs[|docs| - 1].start
  {
    var fewer := docs[..|docs| - 1];
    if |docs| > 1 {
      assert fewer[|fewer| - 1] == docs[|docs| - 2];
    }
  }

  // ---- a program that lets go of documents in the reverse order of their making ------------------

  /** The objects `owned` are the owners of the documents `docs`. */
  ghost predicate Owners(owned: seq<JsonDocument>, docs: seq<Held>, parser: JsonParser)
    reads owned
  {
    && |owned| == |docs|
    && (forall i :: 0 <= i < |docs| ==> owned[i].parser == parser && owned[i].startIdx == docs[i].start)
    && forall i, j :: 0 <= i < j < |owned| ==> owned[i] != owned[j]
  }

  /** The pool holds the documents intact, they are all there is in use, and `owned` own them. */
  ghost predicate Runs(parser: JsonParser, owned: seq<JsonDocument>, docs: seq<Held>)
    reads parser, parser.nodePool, owned
  {
    && parser.Valid() && Holds(parser.nodePool[..], docs) && parser.currentNodeIdx == Used(docs)
    && Owners(owned, docs, parser)
  }

  /** Any such program: after every use the living documents are intact, they are the ones that
      fitted when they were parsed, and neither letting go nor assigning has ever failed. */
  method LastInFirstOut(parser: JsonParser, uses: seq<Use>) returns (owned: seq<JsonDocument>, neverFailed: bool)
    requires parser.Valid() && parser.currentNodeIdx == 0
    modifies parser, parser.nodePool
    ensures neverFailed && Runs(parser, owned, Living(parser.nodePool.Length, uses))
  {
    hide Living, Next, Holds, Used, Packed, Runs;
    owned, neverFailed := [], true;
    var size := parser.nodePool.Length;
    NothingOwned(parser);
    for i := 0 to |uses|
      invariant neverFailed && Runs(parser, owned, Living(size, uses[..i]))
      invariant forall d :: d in owned ==> fresh(d)
    {
      LivingOneMore(size, uses, i);
      owned, neverFailed := UseOnce(parser, uses[i], owned, Living(size, uses[..i]));
    }
    assert uses[..|uses|] == uses;
  }

  /** One use; an index that names no document does nothing. */
  method UseOnce(parser: JsonParser, use: Use, owned: seq<JsonDocument>, ghost docs: seq<Held>)
    returns (now: seq<JsonDocument>, ok: bool)
    requires Runs(parser, owned, docs)
    modifies parser, parser.nodePool, set d | d in owned
    ensures ok && Runs(parser, now, Next(parser.nodePool.Length, docs, use))
    ensures forall d :: d in now ==> d in owned || fresh(d)
  {
    hide Holds, Used;
    now, ok := owned, true;
    match use {
      case Opening(body) => now := OpenOne(parser, body, owned, docs);
      case Closing => now, ok := CloseOne(parser, owned, docs);
      case Moving(k) =>
        if k < |owned| {
          var doc;
          doc, ok := MoveOne(parser, k, owned, docs);
          now := owned[k := doc];
        }
      case Copying(k) =>
        if k < |owned| {
          ok := CopyOne(parser, k, owned, docs);
        }
      case MovingOver(k) =>
        if k < |owned| {
          now, ok := MoveOver(parser, k, owned, docs);
        }
      case CopyingOver(k) =>
        if k < |owned| {
          now, ok := CopyOver(parser, k, owned, docs);
        }
    }
  }

  lemma NothingOwned(parser: JsonParser)
    requires parser.Valid() && parser.currentNodeIdx == 0
    ensures Runs(parser, [], Living(parser.nodePool.Length, []))
  {
  }

  lemma LivingOneMore(size: nat, uses: seq<Use>, i: nat)
    requires i < |uses|
    ensures Living(size, uses[..i + 1]) == Next(size, Living(size, uses[..i]), uses[i])
  {
    assert uses[..i + 1][..i] == uses[..i];
  }

  /** Let go of the last document, if there is one. */
  method CloseOne(parser: JsonParser, owned: seq<JsonDocument>, ghost docs: seq<Held>)
    returns (rest: seq<JsonDocument>, ok: bool)
    requires Runs(parser, owned, docs)
    modifies parser
    ensures ok && Runs(parser, rest, Next(parser.nodePool.Length, docs, Closing))
    ensures forall d :: d in rest ==> d in owned
  {
    hide Stored;
    rest, ok := owned, true;
    if owned != [] {
      HoldsFewer(parser.nodePool[..], docs);
      ok := owned[|owned| - 1].Destroy();
      rest := owned[..|owned| - 1];
    }
  }

  /** Parse, and keep the document if there is one. */
  method OpenOne(parser: JsonParser, body: string, owned: seq<JsonDocument>, ghost docs: seq<Held>)
    returns (more: seq<JsonDocument>)
    requires Runs(parser, owned, docs)
    modifies parser, parser.nodePool
    ensures Runs(parser, more, Next(parser.nodePool.Length, docs, Opening(body)))
    ensures forall d :: d in more ==> d in owned || fresh(d)
  {
    hide Stored, Build, Packed;
    ghost var pool := parser.nodePool[..];
    SomeNodes(body);
    more := owned;
    var doc := parser.Parse(body);
    HoldsAbove(pool, parser.nodePool[..], docs);
    if doc != null {
      HoldsMore(parser.nodePool[..], docs, Build(body).nodes);
      more := owned + [doc];
    }
  }

  /** The k-th document moves into a new object; the old one, destroyed, gives nothing back. */
  method MoveOne(parser: JsonParser, k: nat, owned: seq<JsonDocument>, ghost docs: seq<Held>)
    returns (doc: JsonDocument, ok: bool)
    requires Runs(parser, owned, docs) && k < |owned|
    modifies owned[k]
    ensures ok && fresh(doc) && Runs(parser, owned[k := doc], docs)
  {
    hide Holds, Used;
    doc := new JsonDocument.MoveFrom(owned[k]);
    ok := owned[k].Destroy();
  }

  /** A copy comes and goes without effect. */
  method CopyOne(parser: JsonParser, k: nat, owned: seq<JsonDocument>, ghost docs: seq<Held>) returns (ok: bool)
    requires Runs(parser, owned, docs) && k < |owned|
    ensures ok && Runs(parser, owned, docs)
  {
    hide Holds, Used;
    var doc := new JsonDocument.CopyFrom(owned[k]);
    ok := doc.Destroy();
  }

  /** The last owner gives its document back and takes over the k-th one; the old object of that
      one, destroyed, gives nothing back. */
  method MoveOver(parser: JsonParser, k: nat, owned: seq<JsonDocument>, ghost docs: seq<Held>)
    returns (rest: seq<JsonDocument>, ok: bool)
    requires Runs(parser, owned, docs) && k < |owned|
    modifies parser, owned[k], owned[|owned| - 1]
    ensures ok && Runs(parser, rest, Next(parser.nodePool.Length, docs, MovingOver(k)))
    ensures forall d :: d in rest ==> d in owned
  {
    hide Stored, Packed;
    rest := owned;
    var last := owned[|owned| - 1];
    HoldsFewer(parser.nodePool[..], docs);
    ok := last.MoveAssign(owned[k]);
    if k + 1 < |owned| {
      var gone := owned[k].Destroy();
      ok := ok && gone;
      rest := owned[..|owned| - 1][k := last];
    }
  }

  /** The last owner gives its document back and becomes a copy, which owns nothing. */
  method CopyOver(parser: JsonParser, k: nat, owned: seq<JsonDocument>, ghost docs: seq<Held>)
    returns (rest: seq<JsonDocument>, ok: bool)
    requires Runs(parser, owned, docs) && k < |owned|
    modifies parser, owned[|owned| - 1]
    ensures ok && Runs(parser, rest, Next(parser.nodePool.Length, docs, CopyingOver(k)))
    ensures forall d :: d in rest ==> d in owned
  {
    hide Stored, Packed;
    rest := owned;
    var last := owned[|owned| - 1];
    HoldsFewer(parser.nodePool[..], docs);
    ok := last.CopyAssign(owned[k]);
    if k + 1 < |owned| {
      var gone := last.Destroy();
      ok := ok && gone;
      rest := owned[..|owned| - 1];
    }
  }

  lemma SomeNodes(body: string)
    ensures Build(body).nodes != []
  {
  }

  // ---- any other order ---------------------------------------------------------------------------

  /** How much of the pool is in use after documents are released in `order`; nothing when one of
      the releases fails. */
  function Released(used: nat, docs: seq<Held>, order: seq<nat>): Option<nat>
    requires forall i :: 0 <= i < |order| ==> order[i] < |docs|
  {
    if order == [] then Some(used)
    else if docs[order[0]].start <= used then Released(docs[order[0]].start, docs, order[1..])
    else None
  }

  ghost predicate Decreasing(order: seq<nat>) {
    forall i, j :: 0 <= i < j < |order| ==> order[i] > order[j]
  }

  lemma DecreasingCons(k: nat, order: seq<nat>)
    ensures Decreasing([k] + order) <==> Decreasing(order) && (order != [] ==> k > order[0])
  {
    var all := [k] + order;
    if Decreasing(all) {
      forall i, j | 0 <= i < j < |order| ensures order[i] > order[j] {
        assert all[i + 1] > all[j + 1];
      }
      assert order != [] ==> all[0] > all[1];
    }
  }

  lemma {:induction false} ReleasedBelow(docs: seq<Held>, k: nat, order: seq<nat>)
    requires Packed(docs) && k < |docs| && k !in order
    requires forall i :: 0 <= i < |order| ==> order[i] < |docs|
    requires forall i, j :: 0 <= i < j < |order| ==> order[i] != order[j]
    ensures Released(docs[k].start, docs, order).Some? <==> Decreasing([k] + order)
    decreases |order|
  {
    if order != [] {
      var l := order[0];
      ReleasedBelow(docs, l, order[1..]);
      assert [l] + order[1..] == order;
      DecreasingCons(k, order);
    }
  }

  /** Releasing living documents one by one, with no parse in between, fails exactly when they are
      not released in the reverse order of their making. */
  lemma {:induction false} ReleaseOrderExactly(docs: seq<Held>, order: seq<nat>)
    requires Packed(docs)
    requires forall i :: 0 <= i < |order| ==> order[i] < |docs|
    requires forall i, j :: 0 <= i < j < |order| ==> order[i] != order[j]
    ensures Released(Used(docs), docs, order).Some? <==> Decreasing(order)
  {
    if order != [] {
      EndsBelow(docs, order[0]);
      ReleasedBelow(docs, order[0], order[1..]);
      assert [order[0]] + order[1..] == order;
    }
  }

  /** Two empty bodies parsed into a pool of two nodes, and the older document released first. */
  lemma OlderFirstFails()
    ensures var docs := Living(2, [Opening(""), Opening("")]);
            |docs| == 2 && Packed(docs) && Released(Used(docs), docs, [0, 1]) == None
  {
    var uses, d := [Opening(""), Opening("")], Held(0, [CLEAN]);
    assert Lex("") == [] && Build("").nodes == [CLEAN];
    assert uses[..1] == [Opening("")] && [Opening("")][..0] == [];
    assert Living(2, [Opening("")]) == [d];
    assert Living(2, uses) == [d, Held(1, [CLEAN])];
    assert [0, 1][1..] == [1];
  }
}
