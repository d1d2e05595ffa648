/** JSON text as the parser's loop takes it apart: one token per turn that does anything. */
module JsonText {
  import opened HttpText

  datatype JsonType = NUL | OBJECT | ARRAY | STRING | NUMBER | BOOL

  /** `Close` remembers which bracket it was, though the parser does not care. */
  datatype Token =
    | Open(kind: JsonType)
    | Close(kind: JsonType)
    | Comma
    | Colon
    | Text(text: string)
    | Number(text: string)
    | Word(kind: JsonType, text: string)

  predicate InNumber(c: char) { '0' <= c <= '9' || c == '.' || c == '-' }

  predicate InText(c: char) { c != '"' }

  /** How many characters at the front of `s` satisfy `p`. */
  function Leading(s: string, p: char -> bool): (n: nat)
    ensures n <= |s| && (forall i :: 0 <= i < n ==> p(s[i])) && (n < |s| ==> !p(s[n]))
  {
    if s == "" || !p(s[0]) then 0 else 1 + Leading(s[1..], p)
  }

  /** `s.substr(0, n)`, which stops at the end of `s`. */
  function Upto(s: string, n: nat): string {
    if n < |s| then s[..n] else s
  }

  /** The token at the front of `s`, if its first character begins one. */
  function TokenAt(s: string): Option<Token>
    requires s != ""
  {
    if s[0] == '{' then Some(Open(OBJECT))
    else if s[0] == '[' then Some(Open(ARRAY))
    else if s[0] == '"' then Some(Text(s[1..][..Leading(s[1..], InText)]))
    else if s[0] == ']' then Some(Close(ARRAY))
    else if s[0] == '}' then Some(Close(OBJECT))
    else if s[0] == ',' then Some(Comma)
    else if InNumber(s[0]) then Some(Number(s[..Leading(s, InNumber)]))
    else if s[0] == 't' then Some(Word(BOOL, Upto(s, 4)))
    else if s[0] == 'f' then Some(Word(BOOL, Upto(s, 5)))
    else if s[0] == 'n' then Some(Word(NUL, Upto(s, 4)))
    else if s[0] == ':' then Some(Colon)
    else None
  }

  /** How far the turn that starts at `s` moves the index; it may run past the end. */
  function Width(s: string): (n: nat)
    requires s != ""
    ensures n > 0
  {
    if s[0] == '"' then Leading(s[1..], InText) + 2
    else if InNumber(s[0]) then Leading(s, InNumber)
    else if s[0] == 't' || s[0] == 'n' then 4
    else if s[0] == 'f' then 5
    else 1
  }

  function From(s: string, n: nat): string {
    if n < |s| then s[n..] else ""
  }

  function Lex(s: string): seq<Token>
    decreases |s|
  {
    if s == "" then []
    else (match TokenAt(s) case None => [] case Some(t) => [t]) + Lex(From(s, Width(s)))
  }

  // ---- spelling ------------------------------------------------------------------------------

  /** White space, and every other character that begins no token. */
  predicate Skipped(c: char) {
    c !in {'{', '}', '[', ']', '"', ',', ':', 't', 'f', 'n'} && !InNumber(c)
  }

  predicate Gap(s: string) {
    forall i :: 0 <= i < |s| ==> Skipped(s[i])
  }

  function Spelling(t: Token): string {
    match t
    case Open(kind) => if kind == OBJECT then "{" else "["
    case Close(kind) => if kind == OBJECT then "}" else "]"
    case Comma => ","
    case Colon => ":"
    case Text(text) => "\"" + text + "\""
    case Number(text) => text
    case Word(_, text) => text
  }

  /** Tokens with a spelling of their own. */
  predicate Spelled(t: Token) {
    match t
    case Open(kind) => kind == OBJECT || kind == ARRAY
    case Close(kind) => kind == OBJECT || kind == ARRAY
    case Comma => true
    case Colon => true
    case Text(text) => forall i :: 0 <= i < |text| ==> InText(text[i])
    case Number(text) => text != "" && forall i :: 0 <= i < |text| ==> InNumber(text[i])
    case Word(kind, text) => if kind == BOOL then text in ["true", "false"] else kind == NUL && text == "null"
  }

  /** `ts` spelled out, `gaps[i]` standing before the i-th token and the last gap at the end. */
  function Layout(ts: seq<Token>, gaps: seq<string>): string
    requires |gaps| == |ts| + 1
  {
    if ts == [] then gaps[0] else gaps[0] + (Spelling(ts[0]) + Layout(ts[1..], gaps[1..]))
  }

  ghost predicate Gaps(gaps: seq<string>) {
    forall i :: 0 <= i < |gaps| ==> Gap(gaps[i])
  }

  /** No number follows a number directly. */
  ghost predicate Apart(ts: seq<Token>) {
    forall i, j :: 0 <= i < j == i + 1 < |ts| && ts[i].Number? ==> !ts[j].Number?
  }

  /** One turn of the loop. */
  lemma LexTurn(s: string, t: Option<Token>, rest: string)
    requires s != "" && TokenAt(s) == t && From(s, Width(s)) == rest
    ensures Lex(s) == (match t case None => [] case Some(t) => [t]) + Lex(rest)
  {
    hide TokenAt, Width, From;
  }

  lemma SkipOne(c: char, rest: string)
    requires Skipped(c)
    ensures TokenAt([c] + rest) == None && From([c] + rest, Width([c] + rest)) == rest
  {
    assert rest != "" ==> ([c] + rest)[1..] == rest;
  }

  lemma {:induction false} LexGap(gap: string, rest: string)
    requires Gap(gap)
    ensures Lex(gap + rest) == Lex(rest)
  {
    hide Lex, TokenAt, Width, From;
    if gap == "" {
      assert gap + rest == rest;
    } else {
      LexGap(gap[1..], rest);
      assert gap + rest == [gap[0]] + (gap[1..] + rest);
      SkipOne(gap[0], gap[1..] + rest);
      LexTurn(gap + rest, None, gap[1..] + rest);
      assert [] + Lex(gap[1..] + rest) == Lex(gap[1..] + rest);
    }
  }

  lemma {:induction false} LeadingAll(a: string, rest: string, p: char -> bool)
    requires forall i :: 0 <= i < |a| ==> p(a[i])
    requires rest == "" || !p(rest[0])
    ensures Leading(a + rest, p) == |a|
  {
    if a == "" {
      assert a + rest == rest;
    } else {
      assert (a + rest)[1..] == a[1..] + rest;
      LeadingAll(a[1..], rest, p);
    }
  }

  lemma TextTaken(text: string, rest: string)
    requires Spelled(Text(text))
    ensures var s := Spelling(Text(text)) + rest; TokenAt(s) == Some(Text(text)) && From(s, Width(s)) == rest
  {
    var s := Spelling(Text(text)) + rest;
    assert s[1..] == text + ("\"" + rest);
    LeadingAll(text, "\"" + rest, InText);
    assert s[1..][..|text|] == text;
    assert From(s, |text| + 2) == rest;
  }

  lemma NumberTaken(text: string, rest: string)
    requires Spelled(Number(text)) && (rest == "" || !InNumber(rest[0]))
    ensures TokenAt(text + rest) == Some(Number(text)) && From(text + rest, Width(text + rest)) == rest
  {
    var s := text + rest;
    LeadingAll(text, rest, InNumber);
    assert s[..|text|] == text && From(s, |text|) == rest;
    assert InNumber(text[0]) && s[0] == text[0];
  }

  lemma WordTaken(kind: JsonType, text: string, rest: string)
    requires Spelled(Word(kind, text))
    ensures TokenAt(text + rest) == Some(Word(kind, text)) && From(text + rest, Width(text + rest)) == rest
  {
    var s := text + rest;
    assert text == "true" || text == "false" || text == "null";
    assert Upto(s, |text|) == text && From(s, |text|) == rest;
  }

  /** A spelled token is taken whole. */
  lemma TokenTaken(t: Token, rest: string)
    requires Spelled(t) && (t.Number? ==> rest == "" || !InNumber(rest[0]))
    ensures var s := Spelling(t) + rest; s != "" && TokenAt(s) == Some(t) && From(s, Width(s)) == rest
  {
    match t
    case Text(text) => TextTaken(text, rest);
    case Number(text) => NumberTaken(text, rest);
    case Word(kind, text) => WordTaken(kind, text, rest);
    case _ => assert rest != "" ==> (Spelling(t) + rest)[1..] == rest;
  }

  /** Tokens spelled out with white space or anything else skipped between them are read back as themselves. */
  lemma {:induction false} LexLayout(ts: seq<Token>, gaps: seq<string>)
    requires |gaps| == |ts| + 1 && Gaps(gaps) && Apart(ts) && forall i :: 0 <= i < |ts| ==> Spelled(ts[i])
    ensures Lex(Layout(ts, gaps)) == ts
  {
    hide Spelling, Spelled, TokenAt, Width, From;
    if ts == [] {
      LexGap(gaps[0], "");
      assert gaps[0] + "" == gaps[0];
    } else {
      var rest := Layout(ts[1..], gaps[1..]);
      LexLayout(ts[1..], gaps[1..]);
      LexGap(gaps[0], Spelling(ts[0]) + rest);
      if ts[0].Number? {
        StartsApart(ts[1..], gaps[1..]);
      }
      TokenTaken(ts[0], rest);
      LexTurn(Spelling(ts[0]) + rest, Some(ts[0]), rest);
    }
  }

  lemma StartsApart(ts: seq<Token>, gaps: seq<string>)
    requires |gaps| == |ts| + 1 && Gaps(gaps) && (ts != [] ==> Spelled(ts[0]) && !ts[0].Number?)
    ensures Layout(ts, gaps) == "" || !InNumber(Layout(ts, gaps)[0])
  {
    if gaps[0] != "" {
      assert Skipped(gaps[0][0]);
    }
  }
}
