/** The arena parser and the documents it hands out. Nodes live in one pool and are linked by pool
    index; a document is a mark in the pool, given back when its owner is destroyed. */
module JsonParserObject {
  import opened HttpText
  import opened JsonText
  import opened JsonTree
  import opened JsonLookup

  function Moved(link: int, first: nat): int {
    if link == -1 then -1 else link + first
  }

  /** A node of a document that starts at pool index `first`. */
  function Shifted(n: Node, first: nat): Node {
    n.(child := Moved(n.child, first), next := Moved(n.next, first))
  }

  /** The document `nodes` stands in the pool from `first` on. */
  ghost predicate Stored(pool: seq<Node>, first: nat, nodes: seq<Node>) {
    first + |nodes| <= |pool| &&
    forall i {:trigger nodes[i]} :: 0 <= i < |nodes| ==> pool[first + i] == Shifted(nodes[i], first)
  }

  lemma StoredUpdate(pool: seq<Node>, first: nat, nodes: seq<Node>, k: nat, n: Node)
    requires Stored(pool, first, nodes) && k < |nodes|
    ensures Stored(pool[first + k := Shifted(n, first)], first, nodes[k := n])
  {
  }

  lemma StoredClean(pool: seq<Node>, first: nat, nodes: seq<Node>)
    requires Stored(pool, first, nodes) && first + |nodes| < |pool|
    ensures Stored(pool[first + |nodes| := CLEAN], first, nodes + [CLEAN])
  {
  }

  /** The current node may change in everything but its links. */
  lemma PutSound(b: Building, m: Node)
    requires Sound(b) && m.child == b.nodes[b.cur].child && m.next == b.nodes[b.cur].next
    ensures Sound(Put(b, m)) && Inside(Put(b, m)) == Inside(b)
  {
  }

  lemma PutTwice(b: Building, m: Node, n: Node)
    requires b.cur < |b.nodes|
    ensures Put(Put(b, m), n) == Put(b, n)
  {
    assert Put(Put(b, m), n).nodes == Put(b, n).nodes;
  }

  /** Taking a node and linking it from the current one. */
  lemma PutExtended(b: Building, m: Node, n: Node)
    requires b.cur < |b.nodes|
    ensures b.(nodes := b.nodes[b.cur := m] + [CLEAN]).nodes[b.cur := n] == b.nodes[b.cur := n] + [CLEAN]
  {
  }

  class JsonParser {
    const nodePool: array<Node>
    var currentNodeIdx: nat

    ghost predicate Valid()
      reads this
    {
      currentNodeIdx <= nodePool.Length
    }

    constructor (size: nat)
      ensures Valid() && fresh(nodePool) && nodePool.Length == size && currentNodeIdx == 0
    {
      nodePool := new Node[size](_ => CLEAN);
      currentNodeIdx := 0;
    }

    method CleanNode(i: nat)
      requires i < nodePool.Length
      modifies nodePool
      ensures nodePool[..] == old(nodePool[..])[i := CLEAN]
    {
      nodePool[i] := nodePool[i].(child := -1);
      nodePool[i] := nodePool[i].(next := -1);
      nodePool[i] := nodePool[i].(key := "");
      nodePool[i] := nodePool[i].(value := "");
      nodePool[i] := nodePool[i].(kind := NUL);
    }

    /** The next free node, cleaned; -1 stands for the exception when there is none. */
    method GetNode() returns (node: int)
      requires Valid()
      modifies this, nodePool
      ensures Valid()
      ensures if old(currentNodeIdx) < nodePool.Length
              then node == old(currentNodeIdx) == currentNodeIdx - 1 && nodePool[..] == old(nodePool[..])[node := CLEAN]
              else node == -1 && currentNodeIdx == old(currentNodeIdx) && nodePool[..] == old(nodePool[..])
    {
      if currentNodeIdx < nodePool.Length {
        CleanNode(currentNodeIdx);
        node := currentNodeIdx;
        currentNodeIdx := currentNodeIdx + 1;
        return;
      }
      return -1;
    }

    /** The variables of the loop stand for `b`, in a document that starts at `first`. */
    ghost predicate Mirrors(b: Building, first: nat, curr: nat, st: seq<nat>)
      reads this, nodePool
    {
      && Sound(b) && currentNodeIdx == first + |b.nodes|
      && Stored(nodePool[..], first, b.nodes)
      && curr == first + b.cur
      && |st| == |b.stack| && forall i :: 0 <= i < |st| ==> st[i] == first + b.stack[i]
    }

    lemma MirrorsCurrent(b: Building, first: nat, curr: nat, st: seq<nat>)
      requires Mirrors(b, first, curr, st)
      ensures curr < currentNodeIdx <= nodePool.Length && nodePool[curr] == Shifted(b.nodes[b.cur], first)
      ensures st != [] ==> st[|st| - 1] < curr && nodePool[st[|st| - 1]].kind == Inside(b)
    {
    }

    /** The current node becomes `n`, which stands for `m`. */
    method SetNode(n: Node, curr: nat, st: seq<nat>, ghost b: Building, ghost first: nat, ghost m: Node)
      requires Mirrors(b, first, curr, st) && n == Shifted(m, first) && Sound(Put(b, m))
      modifies nodePool
      ensures Mirrors(Put(b, m), first, curr, st) && nodePool[..first] == old(nodePool[..first])
      ensures curr < nodePool.Length && nodePool[curr] == n
    {
      ghost var pool := nodePool[..];
      nodePool[curr] := n;
      StoredUpdate(pool, first, b.nodes, b.cur, m);
      assert nodePool[..] == pool[first + b.cur := Shifted(m, first)];
    }

    ghost function Extended(b: Building): Building {
      b.(nodes := b.nodes + [CLEAN])
    }

    /** `GetNode` in the middle of a document. */
    method NextNode(curr: nat, st: seq<nat>, ghost b: Building, ghost first: nat) returns (node: int)
      requires Valid() && Mirrors(b, first, curr, st)
      modifies this, nodePool
      ensures Valid() && nodePool[..first] == old(nodePool[..first])
      ensures node == -1 <==> first + |b.nodes| == nodePool.Length
      ensures node == -1 ==> currentNodeIdx == old(currentNodeIdx)
      ensures node != -1 ==> node == first + |b.nodes| && Mirrors(Extended(b), first, curr, st)
      ensures curr < nodePool.Length && nodePool[curr] == old(nodePool[curr])
    {
      StoredCleanIf(b, first);
      node := GetNode();
    }

    lemma StoredCleanIf(b: Building, first: nat)
      requires Stored(nodePool[..], first, b.nodes)
      ensures first + |b.nodes| < nodePool.Length ==>
              Stored(nodePool[..][first + |b.nodes| := CLEAN], first, b.nodes + [CLEAN])
    {
      if first + |b.nodes| < nodePool.Length {
        StoredClean(nodePool[..], first, b.nodes);
      }
    }

    /** A branch of the loop turned `b` into `r`, unless the pool was exhausted on the way. */
    twostate predicate Became(r: Building, first: nat, ok: bool, curr: nat, st: seq<nat>)
      reads this, nodePool
    {
      && Valid() && first <= nodePool.Length && nodePool[..first] == old(nodePool[..first])
      && (ok <==> first + |r.nodes| <= nodePool.Length)
      && (ok ==> Mirrors(r, first, curr, st)) && (!ok ==> first <= currentNodeIdx)
    }

    method OpenObject(curr: nat, st: seq<nat>, ghost b: Building, ghost first: nat)
        returns (ok: bool, now: nat, open: seq<nat>)
      requires Valid() && Mirrors(b, first, curr, st)
      modifies this, nodePool
      ensures Became(Enter(b, OBJECT), first, ok, now, open)
    {
      ApplySound(b, Open(OBJECT));
      MirrorsCurrent(b, first, curr, st);
      ghost var m := b.nodes[b.cur].(kind := OBJECT);
      SetNode(nodePool[curr].(kind := OBJECT), curr, st, b, first, m);
      open, now := st + [curr], curr;
      var child := NextNode(curr, st, Put(b, m), first);
      if child == -1 {
        return false, now, open;
      }
      PutExtended(b, m, m.(child := |b.nodes|));
      SetNode(nodePool[curr].(child := child), curr, st, Extended(Put(b, m)), first, m.(child := |b.nodes|));
      now, ok := child, true;
    }

    method OpenArray(curr: nat, st: seq<nat>, ghost b: Building, ghost first: nat)
        returns (ok: bool, now: nat, open: seq<nat>)
      requires Valid() && Mirrors(b, first, curr, st)
      modifies this, nodePool
      ensures Became(Enter(b, ARRAY), first, ok, now, open)
    {
      ApplySound(b, Open(ARRAY));
      MirrorsCurrent(b, first, curr, st);
      ghost var m := b.nodes[b.cur].(kind := ARRAY);
      SetNode(nodePool[curr].(kind := ARRAY), curr, st, b, first, m);
      open, now := st + [curr], curr;
      if nodePool[curr].child == -1 {
        var child := NextNode(curr, st, Put(b, m), first);
        if child == -1 {
          return false, now, open;
        }
        PutExtended(b, m, m.(child := |b.nodes|));
        SetNode(nodePool[curr].(child := child), curr, st, Extended(Put(b, m)), first, m.(child := |b.nodes|));
      }
      now, ok := nodePool[curr].child, true;
    }

    method NextValue(curr: nat, st: seq<nat>, ghost b: Building, ghost first: nat) returns (ok: bool, now: nat)
      requires Valid() && Mirrors(b, first, curr, st)
      modifies this, nodePool
      ensures Became(Follow(b), first, ok, now, st)
    {
      ApplySound(b, Comma);
      var next := NextNode(curr, st, b, first);
      if next == -1 {
        return false, curr;
      }
      ghost var m := b.nodes[b.cur].(next := |b.nodes|);
      PutExtended(b, b.nodes[b.cur], m);
      assert b.nodes[b.cur := b.nodes[b.cur]] == b.nodes;
      MirrorsCurrent(Extended(b), first, curr, st);
      SetNode(nodePool[curr].(next := next), curr, st, Extended(b), first, m);
      now, ok := next, true;
    }

    method CloseContainer(curr: nat, st: seq<nat>, ghost b: Building, ghost first: nat)
        returns (now: nat, open: seq<nat>)
      requires Valid() && Mirrors(b, first, curr, st)
      ensures Mirrors(Leave(b), first, now, open)
    {
      ApplySound(b, Close(ARRAY));
      now, open := curr, st;
      if st != [] {
        now, open := st[|st| - 1], st[..|st| - 1];
      }
    }

    method StoreText(text: string, curr: nat, st: seq<nat>, ghost b: Building, ghost first: nat)
      requires Valid() && Mirrors(b, first, curr, st)
      modifies nodePool
      ensures Became(TakeText(b, text), first, true, curr, st)
    {
      hide Sound, Stored;
      ApplySound(b, Text(text));
      MirrorsCurrent(b, first, curr, st);
      ghost var m := b.nodes[b.cur].(kind := STRING);
      PutSound(b, m);
      PutSound(b, m.(value := text));
      PutSound(b, m.(key := text));
      PutTwice(b, m, m.(value := text));
      PutTwice(b, m, m.(key := text));
      SetNode(nodePool[curr].(kind := STRING), curr, st, b, first, m);
      MirrorsCurrent(Put(b, m), first, curr, st);
      if st != [] && nodePool[st[|st| - 1]].kind == ARRAY {
        SetNode(nodePool[curr].(value := text), curr, st, Put(b, m), first, m.(value := text));
      } else if st != [] && nodePool[st[|st| - 1]].kind == OBJECT {
        if |nodePool[curr].key| == 0 {
          SetNode(nodePool[curr].(key := text), curr, st, Put(b, m), first, m.(key := text));
        } else {
          SetNode(nodePool[curr].(value := text), curr, st, Put(b, m), first, m.(value := text));
        }
      }
    }

    method StoreNumber(text: string, curr: nat, st: seq<nat>, ghost b: Building, ghost first: nat)
      requires Valid() && Mirrors(b, first, curr, st)
      modifies nodePool
      ensures Became(TakeNumber(b, text), first, true, curr, st)
    {
      hide Sound, Stored;
      ApplySound(b, Number(text));
      MirrorsCurrent(b, first, curr, st);
      ghost var m := b.nodes[b.cur].(kind := NUMBER);
      PutSound(b, m);
      PutSound(b, m.(value := text));
      PutTwice(b, m, m.(value := text));
      SetNode(nodePool[curr].(kind := NUMBER), curr, st, b, first, m);
      MirrorsCurrent(Put(b, m), first, curr, st);
      if st != [] && nodePool[st[|st| - 1]].kind == ARRAY {
        SetNode(nodePool[curr].(value := text), curr, st, Put(b, m), first, m.(value := text));
      } else if st != [] && nodePool[st[|st| - 1]].kind == OBJECT {
        SetNode(nodePool[curr].(value := text), curr, st, Put(b, m), first, m.(value := text));
      }
    }

    method StoreWord(kind: JsonType, text: string, curr: nat, st: seq<nat>, ghost b: Building, ghost first: nat)
      requires Valid() && Mirrors(b, first, curr, st)
      modifies nodePool
      ensures Became(Apply(b, Word(kind, text)), first, true, curr, st)
    {
      ApplySound(b, Word(kind, text));
      MirrorsCurrent(b, first, curr, st);
      ghost var m := b.nodes[b.cur].(kind := kind);
      PutTwice(b, m, m.(value := text));
      SetNode(nodePool[curr].(kind := kind), curr, st, b, first, m);
      SetNode(nodePool[curr].(value := text), curr, st, Put(b, m), first, m.(value := text));
    }

    /** The index where the characters that satisfy `p` end. */
    static method Scan(body: string, start: nat, p: char -> bool) returns (end: nat)
      requires start <= |body|
      ensures end == start + Leading(body[start..], p) <= |body|
    {
      end := start;
      while end < |body| && p(body[end])
        invariant start <= end <= |body|
        invariant end + Leading(body[end..], p) == start + Leading(body[start..], p)
      {
        assert body[end..][1..] == body[end + 1..];
        end := end + 1;
      }
    }

    static method TextAt(body: string, at: nat) returns (text: string, i: nat)
      requires at < |body| && body[at] == '"'
      ensures TokenAt(body[at..]) == Some(Text(text)) && i == at + Width(body[at..])
    {
      var end := Scan(body, at + 1, InText);
      text, i := body[at + 1..end], end + 1;
      assert body[at..][1..] == body[at + 1..];
      assert text == body[at + 1..][..end - (at + 1)];
    }

    static method NumberAt(body: string, at: nat) returns (text: string, i: nat)
      requires at < |body| && InNumber(body[at])
      ensures TokenAt(body[at..]) == Some(Number(text)) && i == at + Width(body[at..])
    {
      i := Scan(body, at, InNumber);
      text := body[at..i];
      assert text == body[at..][..i - at];
    }

    static method WordAt(body: string, at: nat) returns (kind: JsonType, text: string, i: nat)
      requires at < |body| && body[at] in {'t', 'f', 'n'}
      ensures TokenAt(body[at..]) == Some(Word(kind, text)) && i == at + Width(body[at..])
    {
      var n := if body[at] == 'f' then 5 else 4;
      kind := if body[at] == 'n' then NUL else BOOL;
      text, i := Upto(body[at..], n), at + n;
    }

    /** One turn of the loop, at index `at` of the body. */
    method Turn(body: string, at: nat, curr: nat, st: seq<nat>, ghost b: Building, ghost first: nat)
      returns (ok: bool, i: nat, now: nat, open: seq<nat>)
      requires Valid() && Mirrors(b, first, curr, st) && at < |body|
      modifies this, nodePool
      ensures Became(After(b, body[at..]), first, ok, now, open)
      ensures ok ==> i == at + Width(body[at..])
    {
      hide Sound, Enter, TakeText, TakeNumber, Follow, Leave, Leading, Stored;
      ok, i, now, open := true, at + 1, curr, st;
      var c := body[at];
      if c == '{' {
        ok, now, open := OpenObject(curr, st, b, first);
      } else if c == '[' {
        ok, now, open := OpenArray(curr, st, b, first);
      } else if c == '"' {
        var text;
        text, i := TextAt(body, at);
        StoreText(text, curr, st, b, first);
      } else if c == ']' || c == '}' {
        now, open := CloseContainer(curr, st, b, first);
      } else if c == ',' {
        ok, now := NextValue(curr, st, b, first);
      } else if InNumber(c) {
        var text;
        text, i := NumberAt(body, at);
        StoreNumber(text, curr, st, b, first);
      } else if c == 't' || c == 'f' || c == 'n' {
        var kind, text;
        kind, text, i := WordAt(body, at);
        StoreWord(kind, text, curr, st, b, first);
      }
    }

    lemma FirstNode(first: nat)
      requires first < nodePool.Length && nodePool[first] == CLEAN && currentNodeIdx == first + 1
      ensures Mirrors(BEGIN, first, first, [])
    {
    }

    /** What is left to read stands one turn further on. */
    static lemma OneTurn(body: string, i: nat, b: Building)
      requires i < |body| && Sound(b)
      ensures var rest := From(body, i + Width(body[i..]));
              && Containers(Lex(body[i..])) && Containers(Lex(rest))
              && ApplyAll(b, Lex(body[i..])) == ApplyAll(After(b, body[i..]), Lex(rest))
    {
      hide Lex, Sound, After, Width;
      ApplyTurn(b, body[i..]);
      assert From(body, i + Width(body[i..])) == From(body[i..], Width(body[i..]));
    }

    /** What is still to be read at index `i` makes `whole` of `b`. */
    static ghost predicate Remains(body: string, i: nat, b: Building, whole: Building) {
      Sound(b) && Containers(Lex(From(body, i))) && ApplyAll(b, Lex(From(body, i))) == whole
    }

    static lemma RemainsAfter(body: string, i: nat, b: Building, whole: Building)
      requires Remains(body, i, b, whole) && i < |body|
      ensures Remains(body, i + Width(body[i..]), After(b, body[i..]), whole)
      ensures |After(b, body[i..]).nodes| <= |whole.nodes|
    {
      hide Lex, Sound, After, Width;
      assert From(body, i) == body[i..];
      OneTurn(body, i, b);
    }

    static lemma RemainsAtFirst(body: string)
      ensures Remains(body, 0, BEGIN, Build(body))
    {
      hide Lex;
      LexContainers(body);
      assert From(body, 0) == body;
    }

    static lemma NothingRemains(body: string, i: nat, b: Building, whole: Building)
      requires Remains(body, i, b, whole) && i >= |body|
      ensures b == whole
    {
    }

    /** The loop. */
    method ReadBody(body: string, root: nat, ghost first: nat) returns (ok: bool)
      requires Valid() && Mirrors(BEGIN, first, root, [])
      modifies this, nodePool
      ensures Valid() && nodePool[..first] == old(nodePool[..first])
      ensures ok <==> first + |Build(body).nodes| <= nodePool.Length
      ensures ok ==> currentNodeIdx == first + |Build(body).nodes| && Stored(nodePool[..], first, Build(body).nodes)
      ensures !ok ==> first <= currentNodeIdx
    {
      hide Sound, After, Stored, Remains, Build, Width;
      var st: seq<nat> := [];
      var curr: nat, i := root, 0;
      ghost var b := BEGIN;
      RemainsAtFirst(body);
      while i < |body|
        invariant Valid() && Mirrors(b, first, curr, st) && nodePool[..first] == old(nodePool[..first])
        invariant Remains(body, i, b, Build(body))
        decreases |body| - i
      {
        RemainsAfter(body, i, b, Build(body));
        ghost var t := After(b, body[i..]);
        ok, i, curr, st := Turn(body, i, curr, st, b, first);
        b := t;
        if !ok {
          return;
        }
      }
      NothingRemains(body, i, b, Build(body));
      ok := true;
    }

    /** Parse `body` into the free part of the pool. There is no document, and the pool is as full
        as it was, exactly when it has too few nodes left; nodes in use before stay as they were,
        and what the rest of the pool held makes no difference. */
    method Parse(body: string) returns (doc: JsonDocument?)
      requires Valid()
      modifies this, nodePool
      ensures Valid() && nodePool[..old(currentNodeIdx)] == old(nodePool[..currentNodeIdx])
      ensures doc != null <==> |Build(body).nodes| <= nodePool.Length - old(currentNodeIdx)
      ensures doc == null ==> currentNodeIdx == old(currentNodeIdx)
      ensures doc != null ==>
        && fresh(doc) && doc.parser == this && doc.startIdx == old(currentNodeIdx)
        && doc.node == To(nodePool, doc.startIdx)
        && currentNodeIdx == old(currentNodeIdx) + |Build(body).nodes|
        && Stored(nodePool[..], doc.startIdx, Build(body).nodes)
    {
      hide Stored, Build;
      var first := currentNodeIdx;
      var root := GetNode();
      if root == -1 {
        SomeNode(body);
        return null;
      }
      var jsonDocument := new JsonDocument(first, To(nodePool, root), this);
      FirstNode(first);
      var ok := ReadBody(body, root, first);
      if !ok {
        var _ := jsonDocument.Destroy();
        return null;
      }
      return jsonDocument;
    }

    static lemma SomeNode(body: string)
      ensures |Build(body).nodes| > 0
    {
    }

    /** Give back all nodes from `marker` on; fails when that many are not in use. */
    method Release(marker: nat) returns (ok: bool)
      modifies `currentNodeIdx
      ensures ok <==> marker <= old(currentNodeIdx)
      ensures currentNodeIdx == if ok then marker else old(currentNodeIdx)
    {
      if currentNodeIdx < marker {
        return false;
      }
      currentNodeIdx := marker;
      return true;
    }
  }

  datatype Pointer = Null | To(pool: array<Node>, index: nat)

  /** The pointer to node `c` of a document that starts at `first`; -1 is no node. */
  function PointerTo(pool: array<Node>, first: nat, c: int): Pointer
    requires c >= -1
  {
    if c == -1 then Null else To(pool, first + c)
  }

  /** A document owns its nodes while it knows the parser; copies and lookups do not. */
  class JsonDocument {
    var startIdx: nat
    var node: Pointer
    var parser: JsonParser?

    constructor (startIdx: nat, node: Pointer, parser: JsonParser?)
      ensures this.startIdx == startIdx && this.node == node && this.parser == parser
    {
      this.startIdx, this.node, this.parser := startIdx, node, parser;
    }

    /** The destructor: only an owner gives its nodes back. */
    method Destroy() returns (ok: bool)
      modifies if parser == null then {} else {parser}
      ensures ok <==> parser == null || startIdx <= old(parser.currentNodeIdx)
      ensures parser != null ==> parser.currentNodeIdx == if ok then startIdx else old(parser.currentNodeIdx)
    {
      ok := true;
      if parser != null {
        ok := parser.Release(startIdx);
      }
    }

    /** Moving hands the ownership over. */
    constructor MoveFrom(other: JsonDocument)
      modifies other`parser
      ensures startIdx == other.startIdx && node == other.node && parser == old(other.parser)
      ensures other.parser == null
    {
      startIdx, node, parser := other.startIdx, other.node, other.parser;
      new;
      other.parser := null;
    }

    /** Copies own nothing. */
    constructor CopyFrom(other: JsonDocument)
      ensures startIdx == other.startIdx && node == other.node && parser == null
    {
      startIdx, node, parser := other.startIdx, other.node, null;
    }

    /** What was owned before is given back; assigning to itself changes nothing. Not `ok` stands
        for the exception of `release`. */
    method MoveAssign(other: JsonDocument) returns (ok: bool)
      modifies this, other, if parser == null then {} else {parser}
      ensures this == other ==> ok && startIdx == old(startIdx) && node == old(node) && parser == old(parser)
      ensures this == other && parser != null ==> parser.currentNodeIdx == old(parser.currentNodeIdx)
      ensures this != other ==> (ok <==> old(parser) == null || old(startIdx <= parser.currentNodeIdx))
      ensures this != other && ok ==>
        && startIdx == old(other.startIdx) && node == old(other.node) && parser == old(other.parser)
        && other.parser == null
        && (old(parser) != null ==> old(parser).currentNodeIdx == old(startIdx))
    {
      ok := true;
      if this != other {
        if parser != null {
          ok := parser.Release(startIdx);
          if !ok {
            return;
          }
        }
        startIdx := other.startIdx;
        node := other.node;
        parser := other.parser;
        other.parser := null;
      }
    }

    method CopyAssign(other: JsonDocument) returns (ok: bool)
      modifies this, if parser == null then {} else {parser}
      ensures this == other ==> ok && startIdx == old(startIdx) && node == old(node) && parser == old(parser)
      ensures this == other && parser != null ==> parser.currentNodeIdx == old(parser.currentNodeIdx)
      ensures this != other ==> (ok <==> old(parser) == null || old(startIdx <= parser.currentNodeIdx))
      ensures this != other && ok ==>
        && startIdx == other.startIdx && node == other.node && parser == null && other.parser == old(other.parser)
        && (old(parser) != null ==> old(parser).currentNodeIdx == old(startIdx))
    {
      ok := true;
      if this != other {
        if parser != null {
          ok := parser.Release(startIdx);
          if !ok {
            return;
          }
        }
        startIdx := other.startIdx;
        node := other.node;
        parser := null;
      }
    }

    /** The node is one of `ns`, a document that starts at `first`. */
    ghost predicate Within(first: nat, ns: seq<Node>)
      reads `node, if node.To? then {node.pool} else {}
    {
      node.To? ==> Links(ns) && Stored(node.pool[..], first, ns) && first <= node.index < first + |ns|
    }

    /** The member called `key`, or a null document. */
    method ByKey(key: string, ghost first: nat, ghost ns: seq<Node>) returns (doc: JsonDocument)
      requires Within(first, ns)
      ensures fresh(doc) && doc.parser == null
      ensures doc.node ==
        if node.To? && ns[node.index - first].kind == OBJECT
        then PointerTo(node.pool, first, FindKey(ns, ns[node.index - first].child, key)) else Null
    {
      if node.To? && node.pool[node.index].kind == OBJECT {
        var pool := node.pool;
        var curr := pool[node.index].child;
        ghost var from := ns[node.index - first].child;
        ghost var c := from;
        while curr != -1
          invariant -1 <= c < |ns| && curr == Moved(c, first)
          invariant FindKey(ns, c, key) == FindKey(ns, from, key)
          decreases if c == -1 then 0 else |ns| - c
        {
          if pool[curr].key == key {
            return new JsonDocument(0, To(pool, curr), null);
          }
          c := ns[c].next;
          curr := pool[curr].next;
        }
      }
      return new JsonDocument(0, Null, null);
    }

    /** The item at `index`, or a null document. */
    method ByIndex(index: int, ghost first: nat, ghost ns: seq<Node>) returns (doc: JsonDocument)
      requires Within(first, ns)
      ensures fresh(doc) && doc.parser == null
      ensures doc.node ==
        if node.To? && ns[node.index - first].kind == ARRAY && index >= 0
        then PointerTo(node.pool, first, FindNth(ns, ns[node.index - first].child, index)) else Null
    {
      if node.To? && node.pool[node.index].kind == ARRAY && index >= 0 {
        var pool := node.pool;
        var curr := pool[node.index].child;
        var currentIdx := 0;
        ghost var from := ns[node.index - first].child;
        ghost var c := from;
        while curr != -1
          invariant -1 <= c < |ns| && curr == Moved(c, first) && 0 <= currentIdx <= index
          invariant FindNth(ns, c, index - currentIdx) == FindNth(ns, from, index)
          decreases if c == -1 then 0 else |ns| - c
        {
          if currentIdx == index {
            return new JsonDocument(0, To(pool, curr), null);
          }
          currentIdx := currentIdx + 1;
          c := ns[c].next;
          curr := pool[curr].next;
        }
      }
      return new JsonDocument(0, Null, null);
    }
  }
}
