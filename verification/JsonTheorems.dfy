/** Printing a document and parsing it gives the document back, in exactly the nodes it needs. */
module JsonTheorems {
  import opened HttpText
  import opened JsonText
  import opened JsonTree

  datatype Tree = Leaf(kind: JsonType, text: string) | Obj(members: Elems) | Arr(items: Elems)

  /** Array items have empty keys. */
  datatype Elems = End | More(key: string, value: Tree, rest: Elems)

  // ---- printing ------------------------------------------------------------------------------

  function Tokens(t: Tree): seq<Token> {
    match t
    case Leaf(kind, text) =>
      if kind == STRING then [Text(text)] else if kind == NUMBER then [Number(text)] else [Word(kind, text)]
    case Obj(es) => [Open(OBJECT)] + (ElemTokens(es, OBJECT) + [Close(OBJECT)])
    case Arr(es) => [Open(ARRAY)] + (ElemTokens(es, ARRAY) + [Close(ARRAY)])
  }

  function KeyTokens(key: string, kind: JsonType): seq<Token> {
    if kind == OBJECT then [Text(key), Colon] else []
  }

  function ElemTokens(es: Elems, kind: JsonType): seq<Token> {
    match es
    case End => []
    case More(key, value, rest) =>
      KeyTokens(key, kind) + (Tokens(value) + (if rest.End? then [] else [Comma] + ElemTokens(rest, kind)))
  }

  /** Strings and keys without quotes, numbers of digits, points and minus signs, and the three
      words. */
  predicate WellFormed(t: Tree) {
    match t
    case Leaf(STRING, text) => Spelled(Text(text))
    case Leaf(NUMBER, text) => Spelled(Number(text))
    case Leaf(kind, text) => Spelled(Word(kind, text))
    case Obj(es) => ElemsFormed(es, OBJECT)
    case Arr(es) => ElemsFormed(es, ARRAY)
  }

  predicate ElemsFormed(es: Elems, kind: JsonType) {
    match es
    case End => true
    case More(key, value, rest) =>
      && (if kind == OBJECT then Spelled(Text(key)) else key == "")
      && WellFormed(value) && ElemsFormed(rest, kind)
  }

  // ---- what is kept of a tree ------------------------------------------------------------------

  /** The string value of a member with an empty key is taken for its key. */
  predicate Mistaken(key: string, value: Tree, kind: JsonType) {
    kind == OBJECT && key == "" && value.Leaf? && value.kind == STRING
  }

  function KeptKey(key: string, value: Tree, kind: JsonType): string {
    if Mistaken(key, value, kind) then value.text else key
  }

  function KeptValue(key: string, value: Tree, kind: JsonType): Tree
    decreases value, 1
  {
    if Mistaken(key, value, kind) then Leaf(STRING, "") else Kept(value)
  }

  /** The tree as the parser stores it inside a container. */
  function Kept(t: Tree): Tree
    decreases t, 0
  {
    match t
    case Leaf(_, _) => t
    case Obj(es) => Obj(KeptElems(es, OBJECT))
    case Arr(es) => Arr(KeptElems(es, ARRAY))
  }

  function KeptElems(es: Elems, kind: JsonType): Elems
    decreases es, 0
  {
    match es
    case End => End
    case More(key, value, rest) =>
      More(KeptKey(key, value, kind), KeptValue(key, value, kind), KeptElems(rest, kind))
  }

  /** No member has an empty key and a string for value, unless that is empty too. */
  predicate Faithful(t: Tree) {
    match t
    case Leaf(_, _) => true
    case Obj(es) => ElemsFaithful(es, OBJECT)
    case Arr(es) => ElemsFaithful(es, ARRAY)
  }

  predicate ElemsFaithful(es: Elems, kind: JsonType) {
    match es
    case End => true
    case More(key, value, rest) =>
      (Mistaken(key, value, kind) ==> value.text == "") && Faithful(value) && ElemsFaithful(rest, kind)
  }

  lemma {:induction false} KeptExactly(t: Tree)
    ensures Kept(t) == t <==> Faithful(t)
  {
    match t
    case Leaf(_, _) =>
    case Obj(es) => ElemsKeptExactly(es, OBJECT);
    case Arr(es) => ElemsKeptExactly(es, ARRAY);
  }

  lemma {:induction false} ElemsKeptExactly(es: Elems, kind: JsonType)
    ensures KeptElems(es, kind) == es <==> ElemsFaithful(es, kind)
  {
    match es
    case End =>
    case More(_, value, rest) =>
      KeptExactly(value);
      ElemsKeptExactly(rest, kind);
  }

  // ---- the nodes of a tree ---------------------------------------------------------------------

  /** One node for every value, and one more for every empty container. */
  function Size(t: Tree): nat {
    match t
    case Leaf(_, _) => 1
    case Obj(es) => 1 + ElemsSize(es)
    case Arr(es) => 1 + ElemsSize(es)
  }

  function ElemsSize(es: Elems): nat {
    match es
    case End => 1
    case More(_, value, rest) => Size(value) + (if rest.End? then 0 else ElemsSize(rest))
  }

  /** A tree's nodes from index `at` on: the root, then its members in order. */
  function NodesOf(t: Tree, key: string, at: nat, next: int): seq<Node> {
    match t
    case Leaf(kind, text) => [Node(kind, key, text, -1, next)]
    case Obj(es) => [Node(OBJECT, key, "", at + 1, next)] + ElemNodes(es, at + 1)
    case Arr(es) => [Node(ARRAY, key, "", at + 1, next)] + ElemNodes(es, at + 1)
  }

  /** The members' nodes from `at` on; an empty container holds one clean node. */
  function ElemNodes(es: Elems, at: nat): seq<Node> {
    match es
    case End => [CLEAN]
    case More(key, value, rest) =>
      if rest.End? then NodesOf(value, key, at, -1)
      else NodesOf(value, key, at, at + Size(value)) + ElemNodes(rest, at + Size(value))
  }

  lemma {:induction false} NodesSize(t: Tree, key: string, at: nat, next: int)
    ensures |NodesOf(t, key, at, next)| == Size(t) > 0
    ensures NodesOf(t, key, at, next)[0].next == next && NodesOf(t, key, at, next)[0].key == key
  {
    match t
    case Leaf(_, _) =>
    case Obj(es) => ElemNodesSize(es, at + 1);
    case Arr(es) => ElemNodesSize(es, at + 1);
  }

  lemma {:induction false} ElemNodesSize(es: Elems, at: nat)
    ensures |ElemNodes(es, at)| == ElemsSize(es) > 0
  {
    match es
    case End =>
    case More(key, value, rest) =>
      NodesSize(value, key, at, if rest.End? then -1 else at + Size(value));
      if !rest.End? {
        ElemNodesSize(rest, at + Size(value));
      }
  }

  /** Values and empty containers, counted on their own. */
  function Values(t: Tree): nat {
    match t
    case Leaf(_, _) => 1
    case Obj(es) => 1 + ElemValues(es)
    case Arr(es) => 1 + ElemValues(es)
  }

  function ElemValues(es: Elems): nat {
    if es.End? then 0 else Values(es.value) + ElemValues(es.rest)
  }

  function Empties(t: Tree): nat {
    match t
    case Leaf(_, _) => 0
    case Obj(es) => (if es.End? then 1 else 0) + ElemEmpties(es)
    case Arr(es) => (if es.End? then 1 else 0) + ElemEmpties(es)
  }

  function ElemEmpties(es: Elems): nat {
    if es.End? then 0 else Empties(es.value) + ElemEmpties(es.rest)
  }

  lemma {:induction false} SizeCounts(t: Tree)
    ensures Size(t) == Values(t) + Empties(t)
  {
    match t
    case Leaf(_, _) =>
    case Obj(es) => ElemsSizeCounts(es);
    case Arr(es) => ElemsSizeCounts(es);
  }

  lemma {:induction false} ElemsSizeCounts(es: Elems)
    ensures ElemsSize(es) == ElemValues(es) + ElemEmpties(es) + (if es.End? then 1 else 0)
  {
    match es
    case End =>
    case More(_, value, rest) =>
      SizeCounts(value);
      ElemsSizeCounts(rest);
  }

  // ---- building ------------------------------------------------------------------------------

  /** The current node is the last one taken and carries nothing but perhaps its key. */
  ghost predicate Ready(b: Building, key: string) {
    && Sound(b) && b.cur == |b.nodes| - 1
    && b.nodes[b.cur].key == key && b.nodes[b.cur].value == ""
    && b.nodes[b.cur].child == -1 && b.nodes[b.cur].next == -1
  }

  /** A leaf needs a container around it, and a string in an object a key before it. */
  ghost predicate Welcome(b: Building, t: Tree, key: string)
    requires Sound(b)
  {
    t.Leaf? ==> Inside(b) in {ARRAY, OBJECT} && !Mistaken(key, t, Inside(b))
  }

  /** `b` once the current node has become the tree `t`. */
  function Grown(b: Building, t: Tree, key: string): Building
    requires b.cur < |b.nodes|
  {
    b.(nodes := b.nodes[..b.cur] + NodesOf(t, key, b.cur, -1))
  }

  lemma BuildLeaf(b: Building, t: Tree, key: string)
    requires Ready(b, key) && t.Leaf? && WellFormed(t) && Welcome(b, t, key)
    ensures Containers(Tokens(t)) && ApplyAll(b, Tokens(t)) == Grown(b, t, key)
  {
    ApplyOne(b, Tokens(t)[0], []);
    assert Apply(b, Tokens(t)[0]).nodes == Grown(b, t, key).nodes;
  }

  /** A container's opening bracket. */
  lemma BuildOpen(b: Building, kind: JsonType, key: string)
    requires Ready(b, key) && kind in {OBJECT, ARRAY}
    ensures var r := Apply(b, Open(kind));
            && r == Building(b.nodes[..b.cur] + [Node(kind, key, "", b.cur + 1, -1)] + [CLEAN], b.cur + 1,
                 b.stack + [b.cur])
            && Ready(r, "") && Inside(r) == kind
  {
    ApplySound(b, Open(kind));
  }

  /** A member's key, if it has one. */
  lemma BuildKey(b: Building, kind: JsonType, key: string) returns (r: Building)
    requires Ready(b, "") && Inside(b) == kind && kind in {OBJECT, ARRAY}
    requires kind == ARRAY ==> key == ""
    ensures Containers(KeyTokens(key, kind)) && r == ApplyAll(b, KeyTokens(key, kind))
    ensures Ready(r, key) && Inside(r) == kind
    ensures r.cur == b.cur && r.stack == b.stack && r.nodes[..b.cur] == b.nodes[..b.cur]
  {
    r := b;
    if kind == OBJECT {
      r := Apply(b, Text(key));
      assert Colon.Colon?;
      ApplyOne(r, Colon, []);
      ApplyOne(b, Text(key), [Colon]);
      assert [Text(key)] + [Colon] == KeyTokens(key, kind);
    }
  }

  lemma NextSet(t: Tree, key: string, at: nat, next: int)
    ensures |NodesOf(t, key, at, -1)| == Size(t) > 0
    ensures NodesOf(t, key, at, -1)[0 := NodesOf(t, key, at, -1)[0].(next := next)] == NodesOf(t, key, at, next)
  {
    NodesSize(t, key, at, -1);
  }

  /** A comma after a value. */
  lemma BuildComma(b: Building, t: Tree, key: string) returns (r: Building)
    requires b.cur < |b.nodes| && Sound(Grown(b, t, key))
    ensures r == Apply(Grown(b, t, key), Comma) && Ready(r, "") && r.stack == b.stack && r.cur == b.cur + Size(t)
    ensures r.nodes == b.nodes[..b.cur] + NodesOf(t, key, b.cur, b.cur + Size(t)) + [CLEAN]
    ensures Sound(b) ==> Inside(r) == Inside(b)
  {
    hide NodesOf;
    var g := Grown(b, t, key);
    NextSet(t, key, b.cur, b.cur + Size(t));
    ApplySound(g, Comma);
    r := Apply(g, Comma);
    assert g.nodes[b.cur] == NodesOf(t, key, b.cur, -1)[0];
    assert forall i :: 0 <= i < b.cur ==> r.nodes[i] == b.nodes[i];
  }

  /** A member: its key, if it has one, and its value. */
  lemma {:induction false} BuildMember(b: Building, kind: JsonType, key: string, value: Tree)
    requires Ready(b, "") && Inside(b) == kind && kind in {OBJECT, ARRAY}
    requires WellFormed(value) && (kind == ARRAY ==> key == "")
    ensures Containers(KeyTokens(key, kind) + Tokens(value))
    ensures ApplyAll(b, KeyTokens(key, kind) + Tokens(value)) ==
      Grown(b, KeptValue(key, value, kind), KeptKey(key, value, kind))
    decreases value, 2
  {
    var b1 := BuildKey(b, kind, key);
    if Mistaken(key, value, kind) {
      ApplyOne(b1, Text(value.text), []);
      assert Apply(b1, Text(value.text)).nodes == Grown(b1, Leaf(STRING, ""), value.text).nodes;
    } else {
      BuildValue(b1, value, key);
    }
    ApplyCut(b, KeyTokens(key, kind), Tokens(value));
  }

  lemma Splice(before: seq<Node>, value: seq<Node>, rest: seq<Node>)
    ensures (before + value + [CLEAN])[..|before| + |value|] + rest == before + (value + rest)
  {
  }

  lemma CommaBetween(b: Building, member: seq<Token>, b2: Building, rest: seq<Token>)
    requires Sound(b) && Containers(member) && Containers(rest) && b2 == ApplyAll(b, member)
    ensures Containers(member + ([Comma] + rest)) && Sound(Apply(b2, Comma))
    ensures ApplyAll(b, member + ([Comma] + rest)) == ApplyAll(Apply(b2, Comma), rest)
  {
    hide Apply;
    ApplyOne(b2, Comma, rest);
    ApplyCut(b, member, [Comma] + rest);
  }

  lemma NoElems(b: Building)
    requires Sound(b)
    ensures Containers([]) && ApplyAll(b, []) == b
  {
  }

  /** A member, a comma, and the members behind it. */
  lemma MoreElems(b: Building, member: seq<Token>, v: Tree, key: string, rest: seq<Token>, b3: Building,
                  behind: seq<Node>)
    requires b.cur < |b.nodes|
    requires Sound(b) && Containers(member) && Containers(rest) && ApplyAll(b, member) == Grown(b, v, key)
    requires Sound(Grown(b, v, key)) && b3 == Apply(Grown(b, v, key), Comma) && Sound(b3)
    requires b3.stack == b.stack && b3.cur == b.cur + Size(v)
    requires b3.nodes == b.nodes[..b.cur] + NodesOf(v, key, b.cur, b.cur + Size(v)) + [CLEAN]
    requires ApplyAll(b3, rest).stack == b3.stack && ApplyAll(b3, rest).nodes == b3.nodes[..b3.cur] + behind
    ensures Containers(member + ([Comma] + rest))
    ensures var r := ApplyAll(b, member + ([Comma] + rest));
            r.stack == b.stack && r.nodes == b.nodes[..b.cur] + (NodesOf(v, key, b.cur, b.cur + Size(v)) + behind)
  {
    hide Sound, NodesOf, Apply, ApplyAll, Containers, Grown, Size;
    CommaBetween(b, member, Grown(b, v, key), rest);
    NodesSize(v, key, b.cur, b.cur + Size(v));
    Splice(b.nodes[..b.cur], NodesOf(v, key, b.cur, b.cur + Size(v)), behind);
  }

  lemma {:induction false} BuildValue(b: Building, t: Tree, key: string)
    requires Ready(b, key) && WellFormed(t) && Welcome(b, t, key)
    ensures Containers(Tokens(t)) && ApplyAll(b, Tokens(t)) == Grown(b, Kept(t), key)
    decreases t, 1
  {
    match t
    case Leaf(_, _) => BuildLeaf(b, t, key);
    case Obj(es) => BuildBox(b, OBJECT, es, key);
    case Arr(es) => BuildBox(b, ARRAY, es, key);
  }

  lemma {:induction false} BuildBox(b: Building, kind: JsonType, es: Elems, key: string)
    requires Ready(b, key) && kind in {OBJECT, ARRAY} && ElemsFormed(es, kind)
    ensures var ts := [Open(kind)] + (ElemTokens(es, kind) + [Close(kind)]);
            && Containers(ts)
            && ApplyAll(b, ts)
               == b.(nodes := b.nodes[..b.cur] +
                     ([Node(kind, key, "", b.cur + 1, -1)] + ElemNodes(KeptElems(es, kind), b.cur + 1)))
    decreases es, 1
  {
    hide ElemTokens, ElemNodes, ElemsFormed, KeptElems;
    BuildOpen(b, kind, key);
    var b1 := Apply(b, Open(kind));
    BuildElems(b1, es, kind);
    var b2 := ApplyAll(b1, ElemTokens(es, kind));
    ApplyCut(b1, ElemTokens(es, kind), [Close(kind)]);
    ApplyOne(b2, Close(kind), []);
    ApplyOne(b, Open(kind), ElemTokens(es, kind) + [Close(kind)]);
  }

  lemma {:induction false} BuildElems(b: Building, es: Elems, kind: JsonType)
    requires Ready(b, "") && b.nodes[b.cur] == CLEAN && Inside(b) == kind && kind in {OBJECT, ARRAY} &&
      ElemsFormed(es, kind)
    ensures Containers(ElemTokens(es, kind))
    ensures var r := ApplyAll(b, ElemTokens(es, kind));
            r.stack == b.stack && r.nodes == b.nodes[..b.cur] + ElemNodes(KeptElems(es, kind), b.cur)
    decreases es, 0
  {
    hide Sound, KeyTokens, Tokens, NodesOf, Apply, Spelled, WellFormed, KeptKey, ApplyAll, Containers;
    match es
    case End => NoElems(b);
    case More(key, value, rest) =>
      BuildMember(b, kind, key, value);
      var member := KeyTokens(key, kind) + Tokens(value);
      var v := KeptValue(key, value, kind);
      var b2 := Grown(b, v, KeptKey(key, value, kind));
      if rest.End? {
        assert ElemTokens(es, kind) == member;
      } else {
        var b3 := BuildComma(b, v, KeptKey(key, value, kind));
        BuildElems(b3, rest, kind);
        MoreElems(b, member, v, KeptKey(key, value, kind), ElemTokens(rest, kind), b3,
                  ElemNodes(KeptElems(rest, kind), b3.cur));
        ConcatAssoc(KeyTokens(key, kind), Tokens(value), [Comma] + ElemTokens(rest, kind));
        assert ElemTokens(es, kind) == member + ([Comma] + ElemTokens(rest, kind));
      }
  }

  // ---- reading back ----------------------------------------------------------------------------

  /** The value at node `i`, following the links as far as they lead forward. */
  function ReadValue(ns: seq<Node>, i: nat): Tree
    requires i < |ns|
    decreases |ns| - i, 1
  {
    var n := ns[i];
    if n.kind == OBJECT then Obj(ReadBox(ns, i))
    else if n.kind == ARRAY then Arr(ReadBox(ns, i))
    else Leaf(n.kind, n.value)
  }

  /** A lone clean child means that the container is empty. */
  function ReadBox(ns: seq<Node>, i: nat): Elems
    requires i < |ns|
    decreases |ns| - i, 0
  {
    var c := ns[i].child;
    if !(i < c < |ns|) || ns[c] == CLEAN then End else ReadChain(ns, c)
  }

  function ReadChain(ns: seq<Node>, i: nat): Elems
    requires i < |ns|
    decreases |ns| - i, 2
  {
    More(ns[i].key, ReadValue(ns, i), if i < ns[i].next < |ns| then ReadChain(ns, ns[i].next) else End)
  }

  /** Leaves are not containers, and never look like a clean node. */
  ghost predicate Legible(t: Tree) {
    match t
    case Leaf(kind, text) => kind !in {OBJECT, ARRAY} && (kind == NUL ==> text != "")
    case Obj(es) => ElemsLegible(es)
    case Arr(es) => ElemsLegible(es)
  }

  ghost predicate ElemsLegible(es: Elems) {
    es.More? ==> Legible(es.value) && ElemsLegible(es.rest)
  }

  lemma {:induction false} KeptLegible(t: Tree)
    requires WellFormed(t)
    ensures Legible(Kept(t))
  {
    match t
    case Leaf(_, _) =>
    case Obj(es) => ElemsKeptLegible(es, OBJECT);
    case Arr(es) => ElemsKeptLegible(es, ARRAY);
  }

  lemma {:induction false} ElemsKeptLegible(es: Elems, kind: JsonType)
    requires ElemsFormed(es, kind)
    ensures ElemsLegible(KeptElems(es, kind))
  {
    if es.More? {
      KeptLegible(es.value);
      ElemsKeptLegible(es.rest, kind);
    }
  }

  /** Nodes `part` stand in `ns` from `at` on. */
  ghost predicate Stand(ns: seq<Node>, at: nat, part: seq<Node>) {
    at + |part| <= |ns| && ns[at..at + |part|] == part
  }

  lemma StandParts(ns: seq<Node>, at: nat, a: seq<Node>, b: seq<Node>)
    requires Stand(ns, at, a + b)
    ensures Stand(ns, at, a) && Stand(ns, at + |a|, b)
  {
    var s := ns[at..at + |a + b|];
    assert ns[at..at + |a|] == s[..|a|] == a;
    assert ns[at + |a|..at + |a| + |b|] == s[|a|..] == b;
  }

  lemma {:induction false} ReadBack(ns: seq<Node>, at: nat, t: Tree, key: string, next: int)
    requires Legible(t) && Stand(ns, at, NodesOf(t, key, at, next))
    ensures at < |ns| && ns[at].key == key && ns[at].next == next && ns[at] != CLEAN && ReadValue(ns, at) == t
    decreases t, 1
  {
    NodesSize(t, key, at, next);
    assert ns[at] == ns[at..at + Size(t)][0] == NodesOf(t, key, at, next)[0];
    match t
    case Leaf(_, _) =>
    case Obj(es) =>
      StandParts(ns, at, [Node(OBJECT, key, "", at + 1, next)], ElemNodes(es, at + 1));
      ReadBoxBack(ns, at, es);
    case Arr(es) =>
      StandParts(ns, at, [Node(ARRAY, key, "", at + 1, next)], ElemNodes(es, at + 1));
      ReadBoxBack(ns, at, es);
  }

  lemma {:induction false} ReadBoxBack(ns: seq<Node>, i: nat, es: Elems)
    requires i < |ns| && ns[i].child == i + 1 && ElemsLegible(es) && Stand(ns, i + 1, ElemNodes(es, i + 1))
    ensures ReadBox(ns, i) == es
    decreases es, 1
  {
    ElemNodesSize(es, i + 1);
    if es.End? {
      assert ns[i + 1] == ns[i + 1..i + 2][0];
    } else {
      ReadChainBack(ns, i + 1, es);
    }
  }

  lemma {:induction false} ReadChainBack(ns: seq<Node>, at: nat, es: Elems)
    requires es.More? && ElemsLegible(es) && Stand(ns, at, ElemNodes(es, at))
    ensures at < |ns| && ns[at] != CLEAN && ReadChain(ns, at) == es
    decreases es, 0
  {
    hide NodesOf;
    var n := Size(es.value);
    if es.rest.End? {
      ReadBack(ns, at, es.value, es.key, -1);
    } else {
      NodesSize(es.value, es.key, at, at + n);
      StandParts(ns, at, NodesOf(es.value, es.key, at, at + n), ElemNodes(es.rest, at + n));
      ReadBack(ns, at, es.value, es.key, at + n);
      ReadChainBack(ns, at + n, es.rest);
    }
  }

  // ---- the printed text ------------------------------------------------------------------------

  ghost predicate Printable(ts: seq<Token>) {
    Apart(ts) && forall i :: 0 <= i < |ts| ==> Spelled(ts[i])
  }

  lemma JoinPrintable(a: seq<Token>, b: seq<Token>)
    requires Printable(a) && Printable(b)
    requires (a != [] && a[|a| - 1].Number?) ==> (b != [] ==> !b[0].Number?)
    ensures Printable(a + b)
  {
  }

  lemma {:induction false} TokensPrintable(t: Tree)
    requires WellFormed(t)
    ensures Printable(Tokens(t))
  {
    match t
    case Leaf(_, _) =>
    case Obj(es) => BoxPrintable(es, OBJECT);
    case Arr(es) => BoxPrintable(es, ARRAY);
  }

  lemma {:induction false} BoxPrintable(es: Elems, kind: JsonType)
    requires ElemsFormed(es, kind) && kind in {OBJECT, ARRAY}
    ensures Printable([Open(kind)] + (ElemTokens(es, kind) + [Close(kind)]))
    decreases es, 1
  {
    ElemsPrintable(es, kind);
    JoinPrintable(ElemTokens(es, kind), [Close(kind)]);
    JoinPrintable([Open(kind)], ElemTokens(es, kind) + [Close(kind)]);
  }

  lemma {:induction false} ElemsPrintable(es: Elems, kind: JsonType)
    requires ElemsFormed(es, kind) && kind in {OBJECT, ARRAY}
    ensures Printable(ElemTokens(es, kind))
    decreases es, 0
  {
    match es
    case End =>
    case More(key, value, rest) =>
      TokensPrintable(value);
      var tail := if rest.End? then [] else [Comma] + ElemTokens(rest, kind);
      if !rest.End? {
        ElemsPrintable(rest, kind);
        JoinPrintable([Comma], ElemTokens(rest, kind));
      }
      JoinPrintable(Tokens(value), tail);
      JoinPrintable(KeyTokens(key, kind), Tokens(value) + tail);
  }

  // ---- round trip --------------------------------------------------------------------------------

  /** A string or number that is the whole document leaves no value. */
  function RootKept(t: Tree): Tree {
    if t.Leaf? && t.kind in {STRING, NUMBER} then Leaf(t.kind, "") else Kept(t)
  }

  lemma {:induction false} KeptSize(t: Tree)
    ensures Size(Kept(t)) == Size(t)
  {
    match t
    case Leaf(_, _) =>
    case Obj(es) => ElemsKeptSize(es, OBJECT);
    case Arr(es) => ElemsKeptSize(es, ARRAY);
  }

  lemma {:induction false} ElemsKeptSize(es: Elems, kind: JsonType)
    ensures ElemsSize(KeptElems(es, kind)) == ElemsSize(es)
  {
    if es.More? {
      KeptSize(es.value);
      ElemsKeptSize(es.rest, kind);
    }
  }

  lemma BuildRoot(t: Tree)
    requires WellFormed(t)
    ensures Containers(Tokens(t)) && ApplyAll(BEGIN, Tokens(t)).nodes == NodesOf(RootKept(t), "", 0, -1)
  {
    if t.Leaf? {
      ApplyOne(BEGIN, Tokens(t)[0], []);
    } else {
      BuildValue(BEGIN, t, "");
    }
  }

  /** Whatever stands between the tokens, a printed tree is stored in one node for each value and
      one for each empty container, and reads back as itself, but for string values of members
      with empty keys and for a string or number at the root. */
  lemma PrintedIsStored(t: Tree, gaps: seq<string>)
    requires WellFormed(t) && |gaps| == |Tokens(t)| + 1 && Gaps(gaps)
    ensures var ns := Build(Layout(Tokens(t), gaps)).nodes;
            && |ns| == Values(t) + Empties(t)
            && ReadValue(ns, 0) == RootKept(t)
  {
    TokensPrintable(t);
    LexLayout(Tokens(t), gaps);
    BuildRoot(t);
    var r := RootKept(t);
    NodesSize(r, "", 0, -1);
    KeptSize(t);
    SizeCounts(t);
    KeptLegible(t);
    var ns := NodesOf(r, "", 0, -1);
    assert ns[0..0 + |ns|] == ns;
    ReadBack(ns, 0, r, "", -1);
  }

  /** The round trip holds exactly for the trees without such members and with a container, a word
      or nothing at all at the root. */
  lemma RoundTripExactly(t: Tree, gaps: seq<string>)
    requires WellFormed(t) && |gaps| == |Tokens(t)| + 1 && Gaps(gaps)
    ensures ReadValue(Build(Layout(Tokens(t), gaps)).nodes, 0) == t <==>
            Faithful(t) && (t.Leaf? && t.kind in {STRING, NUMBER} ==> t.text == "")
  {
    PrintedIsStored(t, gaps);
    KeptExactly(t);
  }

  function NoGaps(n: nat): (gaps: seq<string>)
    ensures |gaps| == n + 1 && Gaps(gaps)
  {
    seq(n + 1, _ => "")
  }

  /** {"":"v"} is stored as {"v":""}. */
  lemma EmptyKeyIsLost(v: string)
    requires v != "" && Spelled(Text(v))
    ensures var t := Obj(More("", Leaf(STRING, v), End));
            && WellFormed(t)
            && ReadValue(Build(Layout(Tokens(t), NoGaps(|Tokens(t)|))).nodes, 0) ==
                 Obj(More(v, Leaf(STRING, ""), End)) != t
  {
    var t := Obj(More("", Leaf(STRING, v), End));
    assert WellFormed(Leaf(STRING, v)) && WellFormed(t);
    PrintedIsStored(t, NoGaps(|Tokens(t)|));
    assert Kept(t) == Obj(KeptElems(More("", Leaf(STRING, v), End), OBJECT));
  }

  /** A number that is the whole document is stored without its digits. */
  lemma RootNumberIsLost(v: string)
    requires Spelled(Number(v))
    ensures var t := Leaf(NUMBER, v);
            && WellFormed(t) && ReadValue(Build(Layout(Tokens(t), NoGaps(|Tokens(t)|))).nodes, 0) ==
                 Leaf(NUMBER, "") != t
  {
    PrintedIsStored(Leaf(NUMBER, v), NoGaps(|Tokens(Leaf(NUMBER, v))|));
  }

  /** A bracket too many at the end of a printed tree changes nothing. */
  lemma StrayBracketIsNothing(t: Tree, kind: JsonType)
    requires WellFormed(t) && kind in {OBJECT, ARRAY}
    ensures var ts := Tokens(t) + [Close(kind)];
            Build(Layout(ts, NoGaps(|ts|))).nodes == Build(Layout(Tokens(t), NoGaps(|Tokens(t)|))).nodes
  {
    var ts := Tokens(t) + [Close(kind)];
    TokensPrintable(t);
    LexLayout(Tokens(t), NoGaps(|Tokens(t)|));
    LexLayout(ts, NoGaps(|ts|));
    BuildRoot(t);
    RootLeft(t);
    ApplyCut(BEGIN, Tokens(t), [Close(kind)]);
    ApplyOne(ApplyAll(BEGIN, Tokens(t)), Close(kind), []);
  }

  lemma RootLeft(t: Tree)
    requires WellFormed(t)
    ensures Containers(Tokens(t)) && ApplyAll(BEGIN, Tokens(t)).stack == []
  {
    if t.Leaf? {
      ApplyOne(BEGIN, Tokens(t)[0], []);
    } else {
      BuildValue(BEGIN, t, "");
    }
  }

  // ---- two numbers in one value ------------------------------------------------------------------

  lemma LexOne(t: Token, rest: string)
    requires Spelled(t) && (t.Number? ==> rest == "" || !InNumber(rest[0]))
    ensures Lex(Spelling(t) + rest) == [t] + Lex(rest)
  {
    TokenTaken(t, rest);
    LexTurn(Spelling(t) + rest, Some(t), rest);
  }

  /** An object with one member, whose value is written as two numbers with something skipped between. */
  function TwoNumbers(key: string, first: string, gap: string, second: string): string {
    "{" + ("\"" + key + "\"" + (":" + (first + (gap + (second + "}")))))
  }

  function Member(key: string): seq<Token> {
    [Open(OBJECT), Text(key), Colon]
  }

  lemma ThreeAhead<T>(a: T, b: T, c: T, rest: seq<T>)
    ensures [a] + ([b] + ([c] + rest)) == [a, b, c] + rest
  {
  }

  lemma LexMember(key: string, rest: string)
    requires Spelled(Text(key))
    ensures Lex("{" + ("\"" + key + "\"" + (":" + rest))) == Member(key) + Lex(rest)
  {
    assert Spelled(Open(OBJECT)) && Spelled(Colon);
    assert Spelling(Open(OBJECT)) == "{" && Spelling(Text(key)) == "\"" + key + "\"" && Spelling(Colon) == ":";
    hide Lex, Spelled, Spelling;
    LexOne(Colon, rest);
    LexOne(Text(key), ":" + rest);
    LexOne(Open(OBJECT), "\"" + key + "\"" + (":" + rest));
    ThreeAhead(Open(OBJECT), Text(key), Colon, Lex(rest));
  }

  lemma LexNumbers(first: string, gap: string, second: string)
    requires Spelled(Number(first)) && Spelled(Number(second)) && gap != "" && Gap(gap)
    ensures Lex(first + (gap + (second + "}"))) == [Number(first)] + ([Number(second)] + [Close(OBJECT)])
  {
    assert Skipped(gap[0]);
    assert Lex("") == [] && !InNumber('}') && Spelled(Close(OBJECT));
    hide Lex, InNumber, Spelled;
    LexOne(Close(OBJECT), "");
    assert Spelling(Close(OBJECT)) + "" == "}" && [Close(OBJECT)] + [] == [Close(OBJECT)];
    LexOne(Number(second), "}");
    LexGap(gap, second + "}");
    LexOne(Number(first), gap + (second + "}"));
  }

  lemma InsideMember(key: string)
    ensures Containers(Member(key)) && Inside(ApplyAll(BEGIN, Member(key))) == OBJECT
  {
    ApplyOne(BEGIN, Open(OBJECT), [Text(key), Colon]);
    var b := Apply(BEGIN, Open(OBJECT));
    ApplyOne(b, Text(key), [Colon]);
    ApplyOne(Apply(b, Text(key)), Colon, []);
    assert Member(key) == [Open(OBJECT)] + [Text(key), Colon] && [Text(key), Colon] == [Text(key)] + [Colon];
  }

  lemma SecondNumberStays(key: string, first: string, second: string)
    ensures var end := [Number(second)] + [Close(OBJECT)];
            && Containers(Member(key) + end) && Containers(Member(key) + ([Number(first)] + end))
            && ApplyAll(BEGIN, Member(key) + ([Number(first)] + end)) == ApplyAll(BEGIN, Member(key) + end)
  {
    var end := [Number(second)] + [Close(OBJECT)];
    InsideMember(key);
    ApplyCut(BEGIN, Member(key), [Number(first)] + end);
    ApplyCut(BEGIN, Member(key), end);
    var b := ApplyAll(BEGIN, Member(key));
    hide ApplyAll, Member;
    ApplyOne(b, Number(first), end);
    ApplyOne(Apply(b, Number(first)), Number(second), [Close(OBJECT)]);
    ApplyOne(b, Number(second), [Close(OBJECT)]);
    assert Apply(Apply(b, Number(first)), Number(second)) == Apply(b, Number(second));
  }

  lemma MemberTokens(key: string, value: string)
    ensures Tokens(Obj(More(key, Leaf(NUMBER, value), End))) == Member(key) + ([Number(value)] + [Close(OBJECT)])
  {
    var es := More(key, Leaf(NUMBER, value), End);
    assert ElemTokens(es, OBJECT) == [Text(key), Colon] + ([Number(value)] + []);
  }

  /** A number written behind another in the same place takes its value over: of an exponent only
      what follows the letter is kept, and {"a":1e5} holds a 5. */
  lemma LastNumberCounts(key: string, first: string, gap: string, second: string)
    requires Spelled(Text(key)) && Spelled(Number(first)) && Spelled(Number(second)) && gap != "" && Gap(gap)
    ensures ReadValue(Build(TwoNumbers(key, first, gap, second)).nodes, 0) ==
            Obj(More(key, Leaf(NUMBER, second), End))
  {
    hide Tokens, ApplyAll, Lex, ReadValue, Layout, Member, Spelled;
    var t := Obj(More(key, Leaf(NUMBER, second), End));
    LexNumbers(first, gap, second);
    LexMember(key, first + (gap + (second + "}")));
    SecondNumberStays(key, first, second);
    MemberTokens(key, second);
    assert WellFormed(Leaf(NUMBER, second)) && ElemsFormed(End, OBJECT) && WellFormed(t);
    PrintedIsStored(t, NoGaps(|Tokens(t)|));
    TokensPrintable(t);
    LexLayout(Tokens(t), NoGaps(|Tokens(t)|));
    KeptExactly(t);
    assert ElemsFaithful(End, OBJECT) && Faithful(Leaf(NUMBER, second)) && Faithful(t);
  }

  // ---- every input -------------------------------------------------------------------------------

  /** No two links lead to the same node. */
  ghost predicate LinkedOnce(ns: seq<Node>) {
    && (forall i, j :: 0 <= i < j < |ns| && ns[i].child != -1 ==> ns[i].child != ns[j].child)
    && (forall i, j :: 0 <= i < j < |ns| && ns[i].next != -1 ==> ns[i].next != ns[j].next)
    && (forall i, j :: 0 <= i < |ns| && 0 <= j < |ns| && ns[i].child != -1 ==> ns[i].child != ns[j].next)
  }

  /** A clean node at the end, linked from one place only. */
  lemma NewLinkOnce(ns: seq<Node>, i: nat, n: Node)
    requires Links(ns) && LinkedOnce(ns) && i < |ns|
    requires (n.child == |ns| && n.next == ns[i].next) || (n.next == |ns| && n.child == ns[i].child)
    ensures LinkedOnce(ns[i := n] + [CLEAN])
  {
  }

  lemma SameLinksOnce(ns: seq<Node>, i: nat, n: Node)
    requires LinkedOnce(ns) && i < |ns| && n.child == ns[i].child && n.next == ns[i].next
    ensures LinkedOnce(ns[i := n])
  {
  }

  lemma ApplyLinksOnce(b: Building, t: Token)
    requires Sound(b) && LinkedOnce(b.nodes) && (t.Open? ==> t.kind in {OBJECT, ARRAY})
    ensures LinkedOnce(Apply(b, t).nodes)
  {
    var n := b.nodes[b.cur];
    hide LinkedOnce;
    match t
    case Open(kind) =>
      SameLinksOnce(b.nodes, b.cur, n.(kind := kind));
      NewLinkOnce(b.nodes, b.cur, n.(kind := kind, child := |b.nodes|));
    case Comma => NewLinkOnce(b.nodes, b.cur, n.(next := |b.nodes|));
    case Close(_) =>
    case Colon =>
    case _ => SameLinksOnce(b.nodes, b.cur, Apply(b, t).nodes[b.cur]);
  }

  lemma {:induction false} AllLinkOnce(b: Building, ts: seq<Token>)
    requires Sound(b) && LinkedOnce(b.nodes) && Containers(ts)
    ensures LinkedOnce(ApplyAll(b, ts).nodes)
    decreases |ts|
  {
    if ts != [] {
      ApplySound(b, ts[0]);
      ApplyLinksOnce(b, ts[0]);
      AllLinkOnce(Apply(b, ts[0]), ts[1..]);
    }
  }

  /** For every input, well formed or not: links lead forward inside the document, no node has two
      links to it and the root none, and only open containers wait on the stack. */
  lemma EveryInputGrowsAForest(body: string)
    ensures var b := Build(body);
            Links(b.nodes) && LinkedOnce(b.nodes) && b.cur < |b.nodes| && Stacked(b)
  {
    LexContainers(body);
    AllLinkOnce(BEGIN, Lex(body));
  }
}
