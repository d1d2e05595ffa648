/** Looking things up in a parsed document, by key and by index, along the links. */
module JsonLookup {
  import opened HttpText
  import opened JsonText
  import opened JsonTree
  import opened JsonTheorems

  /** The first node with `key` on the chain from `c`; -1 when there is none. */
  function FindKey(ns: seq<Node>, c: int, key: string): (r: int)
    requires Links(ns) && -1 <= c < |ns|
    ensures -1 <= r < |ns| && (r != -1 ==> ns[r].key == key)
    decreases if c == -1 then 0 else |ns| - c
  {
    if c == -1 then -1 else if ns[c].key == key then c else FindKey(ns, ns[c].next, key)
  }

  /** The node `n` steps along the chain from `c`; -1 when the chain is shorter. */
  function FindNth(ns: seq<Node>, c: int, n: nat): (r: int)
    requires Links(ns) && -1 <= c < |ns|
    ensures -1 <= r < |ns|
    decreases n
  {
    if c == -1 || n == 0 then c else FindNth(ns, ns[c].next, n - 1)
  }

  /** The value of the first member called `key`. */
  function Named(es: Elems, key: string): Option<Tree> {
    match es
    case End => None
    case More(k, value, rest) => if k == key then Some(value) else Named(rest, key)
  }

  function Nth(es: Elems, n: nat): Option<Tree> {
    match es
    case End => None
    case More(_, value, rest) => if n == 0 then Some(value) else Nth(rest, n - 1)
  }

  /** What a lookup found is the value asked for, and nothing is found where there is none. */
  ghost predicate Answers(ns: seq<Node>, c: int, v: Option<Tree>) {
    match v
    case None => c == -1
    case Some(t) => 0 <= c < |ns| && ReadValue(ns, c) == t
  }

  lemma {:induction false} FindKeyOnChain(ns: seq<Node>, at: nat, es: Elems, key: string)
    requires Links(ns) && es.More? && ElemsLegible(es) && Stand(ns, at, ElemNodes(es, at))
    ensures at < |ns| && Answers(ns, FindKey(ns, at, key), Named(es, key))
    decreases es
  {
    hide NodesOf;
    var n := Size(es.value);
    if es.rest.End? {
      ReadBack(ns, at, es.value, es.key, -1);
      assert Named(es.rest, key) == None;
    } else {
      NodesSize(es.value, es.key, at, at + n);
      StandParts(ns, at, NodesOf(es.value, es.key, at, at + n), ElemNodes(es.rest, at + n));
      ReadBack(ns, at, es.value, es.key, at + n);
      FindKeyOnChain(ns, at + n, es.rest, key);
    }
  }

  lemma {:induction false} FindNthOnChain(ns: seq<Node>, at: nat, es: Elems, k: nat)
    requires Links(ns) && es.More? && ElemsLegible(es) && Stand(ns, at, ElemNodes(es, at))
    ensures at < |ns| && Answers(ns, FindNth(ns, at, k), Nth(es, k))
    decreases es
  {
    hide NodesOf;
    var n := Size(es.value);
    if es.rest.End? {
      ReadBack(ns, at, es.value, es.key, -1);
      assert k > 0 ==> Nth(es.rest, k - 1) == None;
    } else {
      NodesSize(es.value, es.key, at, at + n);
      StandParts(ns, at, NodesOf(es.value, es.key, at, at + n), ElemNodes(es.rest, at + n));
      ReadBack(ns, at, es.value, es.key, at + n);
      if k > 0 {
        FindNthOnChain(ns, at + n, es.rest, k - 1);
      }
    }
  }

  /** Asking an object for a key finds its first member of that name and nothing else, except that
      an empty object answers to the empty key. */
  lemma LookUpKey(ns: seq<Node>, at: nat, es: Elems, outer: string, next: int, key: string)
    requires Links(ns) && ElemsLegible(es) && Stand(ns, at, NodesOf(Obj(es), outer, at, next))
    ensures at < |ns| && -1 <= ns[at].child < |ns|
    ensures var c := FindKey(ns, ns[at].child, key);
            if es.End? && key == "" then c != -1 && ns[c] == CLEAN else Answers(ns, c, Named(es, key))
  {
    assert ns[at] == ns[at..at + Size(Obj(es))][0] by { NodesSize(Obj(es), outer, at, next); }
    StandParts(ns, at, [Node(OBJECT, outer, "", at + 1, next)], ElemNodes(es, at + 1));
    if es.End? {
      assert ns[at + 1] == ns[at + 1..at + 2][0];
    } else {
      FindKeyOnChain(ns, at + 1, es, key);
    }
  }

  /** Asking an array for its n-th item finds it and nothing past the end, except that an empty
      array answers to index 0. */
  lemma LookUpIndex(ns: seq<Node>, at: nat, es: Elems, outer: string, next: int, n: nat)
    requires Links(ns) && ElemsLegible(es) && Stand(ns, at, NodesOf(Arr(es), outer, at, next))
    ensures at < |ns| && -1 <= ns[at].child < |ns|
    ensures var c := FindNth(ns, ns[at].child, n);
            if es.End? && n == 0 then c != -1 && ns[c] == CLEAN else Answers(ns, c, Nth(es, n))
  {
    hide ReadValue, ReadChain, Links, Legible, ElemsLegible;
    assert ns[at] == ns[at..at + Size(Arr(es))][0] by { NodesSize(Arr(es), outer, at, next); }
    StandParts(ns, at, [Node(ARRAY, outer, "", at + 1, next)], ElemNodes(es, at + 1));
    if es.End? {
      assert ns[at + 1] == ns[at + 1..at + 2][0] == CLEAN;
      assert FindNth(ns, at + 1, n) == if n == 0 then at + 1 else -1;
    } else {
      FindNthOnChain(ns, at + 1, es, n);
    }
  }
}
