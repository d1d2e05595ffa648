/** What the parser builds: nodes linked by index, in the order in which they are taken from the
    pool, counted from the document's first node. */
module JsonTree {
  import opened HttpText
  import opened JsonText

  /** `child` and `next` are -1 for null. */
  datatype Node = Node(kind: JsonType, key: string, value: string, child: int, next: int)

  const CLEAN: Node := Node(NUL, "", "", -1, -1)

  /** The nodes taken so far, the current one, and the open containers, innermost last. */
  datatype Building = Building(nodes: seq<Node>, cur: nat, stack: seq<nat>)

  const BEGIN: Building := Building([CLEAN], 0, [])

  /** A link leads forward, to a node that is in use. */
  predicate Forward(link: int, i: nat, n: nat) {
    link == -1 || i < link < n
  }

  predicate Links(nodes: seq<Node>) {
    forall i :: 0 <= i < |nodes| ==> Forward(nodes[i].child, i, |nodes|) && Forward(nodes[i].next, i, |nodes|)
  }

  predicate Increasing(s: seq<nat>) {
    forall i, j :: 0 <= i < j < |s| ==> s[i] < s[j]
  }

  /** The open containers are open containers, each inside the one before, the current node below
      the last of them. */
  predicate Stacked(b: Building)
    requires b.cur < |b.nodes|
  {
    && Increasing(b.stack)
    && forall i :: 0 <= i < |b.stack| ==> b.stack[i] < b.cur && b.nodes[b.stack[i]].kind in {OBJECT, ARRAY}
  }

  predicate Sound(b: Building) {
    b.cur < |b.nodes| && Links(b.nodes) && Stacked(b)
  }

  /** The kind of the innermost open container; NUL outside of all. */
  function Inside(b: Building): JsonType
    requires Sound(b)
  {
    if b.stack == [] then NUL else b.nodes[b.stack[|b.stack| - 1]].kind
  }

  function Put(b: Building, n: Node): Building
    requires b.cur < |b.nodes|
  {
    b.(nodes := b.nodes[b.cur := n])
  }

  /** The current node becomes a container. An array entered again keeps its first child; an object
      gets a new one, and the old one is left behind. */
  function Enter(b: Building, kind: JsonType): Building
    requires Sound(b)
  {
    var n := b.nodes[b.cur].(kind := kind);
    if kind == ARRAY && n.child != -1 then Building(b.nodes[b.cur := n], n.child, b.stack + [b.cur])
    else Building(b.nodes[b.cur := n.(child := |b.nodes|)] + [CLEAN], |b.nodes|, b.stack + [b.cur])
  }

  /** A quoted text is a value in an array; in an object it is the key if there is none yet. */
  function TakeText(b: Building, text: string): Building
    requires Sound(b)
  {
    var n := b.nodes[b.cur].(kind := STRING);
    Put(b, if Inside(b) == ARRAY then n.(value := text)
           else if Inside(b) != OBJECT then n
           else if n.key == "" then n.(key := text) else n.(value := text))
  }

  /** Outside of all containers a number leaves no value. */
  function TakeNumber(b: Building, text: string): Building
    requires Sound(b)
  {
    var n := b.nodes[b.cur].(kind := NUMBER);
    Put(b, if Inside(b) in {ARRAY, OBJECT} then n.(value := text) else n)
  }

  /** The current node gets a successor. */
  function Follow(b: Building): Building
    requires Sound(b)
  {
    Building(b.nodes[b.cur := b.nodes[b.cur].(next := |b.nodes|)] + [CLEAN], |b.nodes|, b.stack)
  }

  /** The innermost container is current again; a bracket too many changes nothing. */
  function Leave(b: Building): Building
    requires Sound(b)
  {
    if b.stack == [] then b else b.(cur := b.stack[|b.stack| - 1], stack := b.stack[..|b.stack| - 1])
  }

  function Apply(b: Building, t: Token): Building
    requires Sound(b) && (t.Open? ==> t.kind in {OBJECT, ARRAY})
  {
    match t
    case Open(kind) => Enter(b, kind)
    case Close(_) => Leave(b)
    case Comma => Follow(b)
    case Colon => b
    case Text(text) => TakeText(b, text)
    case Number(text) => TakeNumber(b, text)
    case Word(kind, text) => Put(b, b.nodes[b.cur].(kind := kind, value := text))
  }

  /** Whatever the input, nodes are never given back, links lead forward, and only open containers
      are on the stack. */
  lemma ApplySound(b: Building, t: Token)
    requires Sound(b) && (t.Open? ==> t.kind in {OBJECT, ARRAY})
    ensures Sound(Apply(b, t)) && |b.nodes| <= |Apply(b, t).nodes| <= |b.nodes| + 1
  {
  }

  ghost predicate Containers(ts: seq<Token>) {
    forall i :: 0 <= i < |ts| && ts[i].Open? ==> ts[i].kind in {OBJECT, ARRAY}
  }

  function ApplyAll(b: Building, ts: seq<Token>): (r: Building)
    requires Sound(b) && forall i :: 0 <= i < |ts| && ts[i].Open? ==> ts[i].kind in {OBJECT, ARRAY}
    ensures Sound(r) && |b.nodes| <= |r.nodes|
    decreases |ts|
  {
    if ts == [] then b
    else
      ApplySound(b, ts[0]);
      ApplyAll(Apply(b, ts[0]), ts[1..])
  }

  lemma {:induction false} LexContainers(s: string)
    ensures Containers(Lex(s))
    decreases |s|
  {
    if s != "" {
      LexContainers(From(s, Width(s)));
    }
  }

  /** What the parser builds from `body`. */
  function Build(body: string): (r: Building)
    ensures Sound(r)
  {
    LexContainers(body);
    ApplyAll(BEGIN, Lex(body))
  }

  lemma {:induction false} ApplyCut(b: Building, a: seq<Token>, c: seq<Token>)
    requires Sound(b) && Containers(a) && Containers(c)
    ensures Containers(a + c) && ApplyAll(b, a + c) == ApplyAll(ApplyAll(b, a), c)
    decreases |a|
  {
    if a == [] {
      assert a + c == c;
    } else {
      ApplySound(b, a[0]);
      assert (a + c)[1..] == a[1..] + c;
      ApplyCut(Apply(b, a[0]), a[1..], c);
    }
  }

  lemma ApplyOne(b: Building, t: Token, rest: seq<Token>)
    requires Sound(b) && (t.Open? ==> t.kind in {OBJECT, ARRAY}) && Containers(rest)
    ensures Sound(Apply(b, t)) && Containers([t] + rest) && ApplyAll(b, [t] + rest) == ApplyAll(Apply(b, t), rest)
    ensures ApplyAll(b, [t]) == Apply(b, t)
  {
    ApplySound(b, t);
    assert ([t] + rest)[1..] == rest && [t][1..] == [];
  }

  /** What one turn of the loop makes of `b`, with the text `s` still to be read. */
  function After(b: Building, s: string): (r: Building)
    requires Sound(b) && s != ""
    ensures Sound(r) && |b.nodes| <= |r.nodes|
  {
    match TokenAt(s)
    case None => b
    case Some(t) => ApplySound(b, t); Apply(b, t)
  }

  lemma ApplyTurn(b: Building, s: string)
    requires Sound(b) && s != ""
    ensures Containers(Lex(s)) && Containers(Lex(From(s, Width(s))))
    ensures ApplyAll(b, Lex(s)) == ApplyAll(After(b, s), Lex(From(s, Width(s))))
  {
    hide Apply;
    LexContainers(s);
    var rest := From(s, Width(s));
    LexContainers(rest);
    match TokenAt(s)
    case None => assert Lex(s) == Lex(rest);
    case Some(t) => ApplyOne(b, t, Lex(rest));
  }
}
