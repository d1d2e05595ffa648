/** The message grammar, stated without reference to any parser: which byte strings are requests,
    and what each request says. */
module HttpGrammar {
  import opened HttpText
  import opened HttpMachine

  datatype Line = Line(key: string, pad: nat, value: string, crlf: bool)

  /** `blanks` are skipped; `crlf` says how the request line ends. */
  datatype Message = Message(
    blanks: string,
    verb: string,
    url: string,
    proto: string,
    crlf: bool,
    lines: seq<Line>,
    body: string)

  datatype Request = Request(
    verb: HttpMethod,
    url: string,
    proto: string,
    header: Headers,
    contentLen: nat,
    body: string)

  function Eol(crlf: bool): string { if crlf then "\r\n" else "\n" }

  function LineText(l: Line): string {
    (l.key + ":") + (Spaces(l.pad) + l.value + Eol(l.crlf))
  }

  function LinesText(lines: seq<Line>): string {
    if lines == [] then ""
    else LinesText(lines[..|lines| - 1]) + LineText(lines[|lines| - 1])
  }

  function RequestLine(m: Message): string {
    (m.blanks + m.verb + " ") + (m.url + " ") + (m.proto + Eol(m.crlf))
  }

  function HeadText(m: Message): string {
    RequestLine(m) + LinesText(m.lines) + "\r\n"
  }

  function MessageText(m: Message): string {
    HeadText(m) + m.body
  }

  /** A later line with the very same key replaces the earlier one. */
  function HeaderOf(lines: seq<Line>): Headers {
    if lines == [] then map[]
    else HeaderOf(lines[..|lines| - 1])[lines[|lines| - 1].key := lines[|lines| - 1].value]
  }

  /** A header name starts with any byte but CR and runs to the first later colon. */
  ghost predicate KeyShaped(key: string) {
    key != "" && key[0] != CR && Avoids(key[1..], KEY_ENDS)
  }

  ghost predicate ValueShaped(value: string) {
    Avoids(value, BREAKS) && (value != "" ==> value[0] != ' ')
  }

  ghost predicate LineShaped(l: Line) {
    KeyShaped(l.key) && ValueShaped(l.value)
  }

  ghost predicate HeadShaped(m: Message) {
    && Only(m.blanks, BLANKS)
    && m.verb != "" && Avoids(m.verb, WORD_ENDS)
    && Avoids(m.url, WORD_ENDS)
    && Avoids(m.proto, BREAKS)
    && forall i :: 0 <= i < |m.lines| ==> LineShaped(m.lines[i])
  }

  /** A message of the grammar: shaped as above, its body as long as its header announces. */
  ghost predicate IsMessage(ord: Order, m: Message) {
    HeadShaped(m) && BodyLength(ord, HeaderOf(m.lines)) == Some(|m.body|)
  }

  function Meaning(m: Message): Request {
    Request(MethodOf(m.verb), m.url, m.proto, HeaderOf(m.lines), |m.body|, m.body)
  }

  lemma {:induction false} LinesSnoc(lines: seq<Line>, l: Line)
    ensures LinesText(lines + [l]) == LinesText(lines) + LineText(l)
    ensures HeaderOf(lines + [l]) == HeaderOf(lines)[l.key := l.value]
  {
    assert (lines + [l])[..|lines|] == lines;
  }

  /** The `i`-th line is the only one whose name is `name` but for the case of its letters. */
  ghost predicate OnlyLine(lines: seq<Line>, i: nat, name: string) {
    i < |lines| && forall j :: 0 <= j < |lines| ==> (Lower(lines[j].key) == name <==> j == i)
  }

  /** Then its value is what the header map holds under that name. */
  lemma {:induction false} OnlyLineHolds(lines: seq<Line>, i: nat, name: string)
    requires OnlyLine(lines, i, name)
    ensures lines[i].key in HeaderOf(lines) && HeaderOf(lines)[lines[i].key] == lines[i].value
    ensures forall k :: k in HeaderOf(lines) && Lower(k) == name ==> k == lines[i].key
  {
    var init := lines[..|lines| - 1];
    if i == |init| {
      NoLineHolds(init, name);
    } else {
      OnlyLineHolds(init, i, name);
    }
  }

  lemma {:induction false} NoLineHolds(lines: seq<Line>, name: string)
    requires forall j :: 0 <= j < |lines| ==> Lower(lines[j].key) != name
    ensures forall k :: k in HeaderOf(lines) ==> Lower(k) != name
  {
    if lines != [] {
      NoLineHolds(lines[..|lines| - 1], name);
    }
  }

  /** Header maps of shaped lines hold shaped keys only. */
  lemma {:induction false} HeaderKeysShaped(lines: seq<Line>)
    requires forall i :: 0 <= i < |lines| ==> LineShaped(lines[i])
    ensures forall k :: k in HeaderOf(lines) ==> KeyShaped(k)
  {
    if lines != [] {
      HeaderKeysShaped(lines[..|lines| - 1]);
      assert LineShaped(lines[|lines| - 1]);
    }
  }
}
