/** The part of an upload that is kept: the file name and the data of a multipart body. */
module Multipart {
  import opened HttpText

  // ---- searching -------------------------------------------------------------------------------

  predicate Occurs(s: string, pat: string, at: nat) {
    at + |pat| <= |s| && s[at..at + |pat|] == pat
  }

  /** `s.find(pat, from)`. */
  function Find(s: string, pat: string, from: nat): (r: Option<nat>)
    ensures r.Some? ==> r.value + |pat| <= |s|
    ensures r.Some? ==> from <= r.value && Occurs(s, pat, r.value)
    ensures r.Some? ==> forall i :: from <= i < r.value ==> !Occurs(s, pat, i)
    ensures r.None? ==> forall i :: from <= i ==> !Occurs(s, pat, i)
    decreases |s| - from
  {
    if from > |s| then None else if Occurs(s, pat, from) then Some(from) else Find(s, pat, from + 1)
  }

  lemma FoundAt(s: string, pat: string, from: nat, at: nat)
    requires from <= at && Occurs(s, pat, at) && forall i :: from <= i < at ==> !Occurs(s, pat, i)
    ensures Find(s, pat, from) == Some(at)
  {
  }

  // ---- the extraction --------------------------------------------------------------------------

  const BOUNDARY := "boundary="
  const FILENAME := "filename=\""
  const BLANK_LINE := "\r\n\r\n"

  /** One line break at the end is the delimiter's, not the data's. */
  function Stripped(data: string): string {
    if data != "" && data[|data| - 1] == '\n' then
      var d := data[..|data| - 1];
      if d != "" && d[|d| - 1] == '\r' then d[..|d| - 1] else d
    else data
  }

  datatype Upload = Upload(filename: string, data: string)

  /** The text between the quotes after `filename=`, or the default. */
  function FilenameIn(headers: string, otherwise: string): string {
    match Find(headers, FILENAME, 0)
    case None => otherwise
    case Some(at) =>
      match Find(headers, "\"", at + |FILENAME|)
      case None => otherwise
      case Some(end) => headers[at + |FILENAME|..end]
  }

  /** A part: its headers up to a blank line, and its data. */
  function PartOf(part: string, otherwise: Upload): Upload {
    var crlf := Find(part, BLANK_LINE, 0);
    var headerEnd := if crlf.Some? then crlf else Find(part, "\n\n", 0);
    if headerEnd.None? then otherwise
    else
      var headers := part[..headerEnd.value];
      Upload(FilenameIn(headers, otherwise.filename), Stripped(part[headerEnd.value + (if crlf.Some? then 4 else 2)..]))
  }

  /** What stands between the first two delimiters of the body. */
  function Between(body: string, delimiter: string): Option<string> {
    match Find(body, delimiter, 0)
    case None => None
    case Some(at) =>
      match Find(body, delimiter, at + |delimiter|)
      case None => None
      case Some(end) => Some(body[at + |delimiter|..end])
  }

  const UNNAMED := "uploaded_file.bin"

  /** The file in a request: `named` is its X-File-Name header, used when the content type names no
      boundary. */
  function FileIn(contentType: string, body: string, named: string): Upload {
    match Find(contentType, BOUNDARY, 0)
    case None => Upload(if named != "" then named else UNNAMED, body)
    case Some(at) =>
      match Between(body, "--" + contentType[at + |BOUNDARY|..])
      case None => Upload(UNNAMED, body)
      case Some(part) => PartOf(part, Upload(UNNAMED, body))
  }

  // ---- well-formed single-part bodies ------------------------------------------------------------

  function HeaderText(lines: seq<string>): string {
    if lines == [] then "" else "\r\n" + lines[0] + HeaderText(lines[1..])
  }

  ghost predicate LinesOnly(lines: seq<string>) {
    lines != [] && forall i :: 0 <= i < |lines| ==> lines[i] != "" && Avoids(lines[i], BREAKS)
  }

  ghost predicate Free(s: string, pat: string) {
    forall i :: 0 <= i ==> !Occurs(s, pat, i)
  }

  /** A body in the format of section 5.1 of RFC 2046 with one part. */
  function SinglePart(delimiter: string, lines: seq<string>, data: string): string {
    delimiter + ((HeaderText(lines) + BLANK_LINE) + (data + ("\r\n" + (delimiter + "--\r\n"))))
  }

  /** A text without line breaks that occurs in `x`, a break and `y` occurs in one of the two. */
  lemma OnOneSide(x: string, y: string, at: nat, pat: string)
    requires pat != "" && Avoids(pat, BREAKS) && at < |x| && x[at] in BREAKS
    ensures forall i :: 0 <= i <= at ==> !Occurs(x + y, pat, i) || (i + |pat| <= at && Occurs(x, pat, i))
  {
    forall i | 0 <= i <= at ensures !Occurs(x + y, pat, i) || (i + |pat| <= at && Occurs(x, pat, i)) {
      if i + |pat| <= at {
        assert (x + y)[i..i + |pat|] == x[i..i + |pat|];
      } else if i + |pat| <= |x + y| {
        assert (x + y)[i..i + |pat|][at - i] == x[at] && pat[at - i] !in BREAKS;
      }
    }
  }

  lemma OccursBehind(x: string, y: string, pat: string)
    ensures forall i :: |x| <= i ==> (Occurs(x + y, pat, i) <==> Occurs(y, pat, i - |x|))
  {
    forall i | |x| <= i ensures Occurs(x + y, pat, i) <==> Occurs(y, pat, i - |x|) {
      if i + |pat| <= |x| + |y| {
        assert (x + y)[i..i + |pat|] == y[i - |x|..i - |x| + |pat|];
      }
    }
  }

  /** In `x + y` nothing is found before `y` when `x` ends in a line break and is free of it. */
  lemma FoundBehind(x: string, y: string, pat: string)
    requires pat != "" && Avoids(pat, BREAKS) && x != "" && x[|x| - 1] in BREAKS && Free(x, pat)
    ensures Find(x + y, pat, 0) == (match Find(y, pat, 0) case None => None case Some(q) => Some(|x| + q))
  {
    OnOneSide(x, y, |x| - 1, pat);
    FoundPast(x, y, pat);
    hide Occurs, Find;
    if Find(y, pat, 0).Some? {
      FoundAt(x + y, pat, 0, |x| + Find(y, pat, 0).value);
    } else {
      NotFound(x + y, pat, 0);
    }
  }

  lemma NotFound(s: string, pat: string, from: nat)
    requires forall i :: from <= i ==> !Occurs(s, pat, i)
    ensures Find(s, pat, from) == None
  {
  }

  /** Skipping a delimiter at the front. */
  lemma FoundPast(x: string, y: string, pat: string)
    ensures Find(x + y, pat, |x|) == (match Find(y, pat, 0) case None => None case Some(q) => Some(|x| + q))
  {
    hide Occurs, Find;
    OccursBehind(x, y, pat);
    if Find(y, pat, 0).Some? {
      var q := Find(y, pat, 0).value;
      assert Occurs(x + y, pat, |x| + q) by { assert Occurs(y, pat, |x| + q - |x|); }
      FoundAt(x + y, pat, |x|, |x| + q);
    } else {
      NotFound(x + y, pat, |x|);
    }
  }

  lemma BlankLineAt(s: string, i: nat)
    requires Occurs(s, BLANK_LINE, i)
    ensures i + 4 <= |s| && s[i] == '\r' && s[i + 2] == '\r'
  {
    assert s[i..i + 4][0] == s[i] && s[i..i + 4][2] == s[i + 2];
  }

  /** No blank line starts in a line break and a line that follows it. */
  lemma NoBlankLineHere(line: string, rest: string, i: nat)
    requires line != "" && Avoids(line, BREAKS) && i < 2 + |line|
    ensures !Occurs("\r\n" + line + rest, BLANK_LINE, i)
  {
    var s := "\r\n" + line + rest;
    assert s[1] == '\n' && s[2] == line[0] && (i >= 2 ==> s[i] == line[i - 2]);
    hide Occurs;
    if Occurs(s, BLANK_LINE, i) {
      BlankLineAt(s, i);
      assert false;
    }
  }

  /** The header block ends where it ends: no blank line before that. */
  lemma {:induction false} NoBlankLineInside(lines: seq<string>, tail: string, i: nat)
    requires (lines == [] || LinesOnly(lines)) && i < |HeaderText(lines)|
    ensures !Occurs(HeaderText(lines) + tail, BLANK_LINE, i)
    decreases |lines|
  {
    hide Occurs;
    var line, rest := lines[0], HeaderText(lines[1..]);
    ConcatAssoc("\r\n" + line, rest, tail);
    if i < 2 + |line| {
      NoBlankLineHere(line, rest + tail, i);
    } else {
      NoBlankLineInside(lines[1..], tail, i - 2 - |line|);
      OccursBehind("\r\n" + line, rest + tail, BLANK_LINE);
    }
  }

  lemma BlankLineFound(lines: seq<string>, data: string)
    requires LinesOnly(lines)
    ensures Find(HeaderText(lines) + BLANK_LINE + data, BLANK_LINE, 0) == Some(|HeaderText(lines)|)
  {
    var h := HeaderText(lines);
    assert h + BLANK_LINE + data == h + (BLANK_LINE + data);
    forall i | 0 <= i < |h| ensures !Occurs(h + (BLANK_LINE + data), BLANK_LINE, i) {
      NoBlankLineInside(lines, BLANK_LINE + data, i);
    }
    FoundAt(h + BLANK_LINE + data, BLANK_LINE, 0, |h|);
  }

  /** A pattern whose first character does not occur in it again is found where it first stands. */
  lemma FirstStands(a: string, pat: string, z: string)
    requires pat != "" && Free(a, pat) && forall k :: 0 < k < |pat| ==> pat[k] != pat[0]
    ensures Find(a + pat + z, pat, 0) == Some(|a|)
  {
    var s := a + pat + z;
    forall i | 0 <= i < |a| ensures !Occurs(s, pat, i) {
      if i + |pat| <= |a| {
        assert !Occurs(a, pat, i) && s[i..i + |pat|] == a[i..i + |pat|];
      } else if i + |pat| <= |s| {
        assert s[i..i + |pat|][|a| - i] == s[|a|] == pat[0] != pat[|a| - i];
      }
    }
    assert s[|a|..|a| + |pat|] == pat;
    FoundAt(s, pat, 0, |a|);
  }

  /** The quoted name is found. */
  lemma NameFound(a: string, name: string, z: string, otherwise: string)
    requires Free(a, FILENAME) && '"' !in name
    ensures FilenameIn(a + FILENAME + (name + "\"" + z), otherwise) == name
  {
    hide Find;
    var s := a + FILENAME + (name + "\"" + z);
    var from := |a| + |FILENAME|;
    FirstStands(a, FILENAME, name + "\"" + z);
    forall i | from <= i < from + |name| ensures !Occurs(s, "\"", i) {
      assert i + 1 <= |s| && s[i..i + 1][0] == name[i - from];
      assert name[i - from] in name;
    }
    assert s[from + |name|..from + |name| + 1] == "\"";
    FoundAt(s, "\"", from, from + |name|);
    assert s[from..from + |name|] == name;
  }

  lemma StripsOneBreak(data: string)
    ensures Stripped(data + "\r\n") == data
  {
    var s := data + "\r\n";
    assert s[..|s| - 1] == data + "\r";
    assert (data + "\r")[..|data|] == data;
  }

  /** The delimiter, the header lines and the place of the name in them are as they should be. */
  ghost predicate WellFormed(delimiter: string, lines: seq<string>, a: string, name: string, z: string) {
    && delimiter != "" && Avoids(delimiter, BREAKS)
    && LinesOnly(lines) && Free(HeaderText(lines) + BLANK_LINE, delimiter)
    && HeaderText(lines) == a + FILENAME + (name + "\"" + z) && Free(a, FILENAME) && '"' !in name
  }

  lemma Middle(x: string, y: string, z: string)
    ensures (x + (y + z))[|x|..|x| + |y|] == y && (x + (y + z))[|x|..] == y + z && (x + y)[..|x|] == x
  {
  }

  /** What stands between a delimiter at the front and the next one, headers and all. */
  lemma BetweenFound(delimiter: string, h: string, r: string)
    requires delimiter != "" && Avoids(delimiter, BREAKS)
    requires h != "" && h[|h| - 1] in BREAKS && Free(h, delimiter) && Find(r, delimiter, 0).Some?
    ensures Between(delimiter + (h + r), delimiter) == Some(h + r[..Find(r, delimiter, 0).value])
  {
    hide Occurs, Find, Free;
    var q := Find(r, delimiter, 0).value;
    FoundPast(delimiter, h + r, delimiter);
    FoundBehind(h, r, delimiter);
    Front(delimiter, h + r);
    FoundAt(delimiter + (h + r), delimiter, 0, 0);
    assert (delimiter + (h + r))[|delimiter|..|delimiter| + (|h| + q)] == h + r[..q];
  }

  lemma Front(x: string, y: string)
    ensures Occurs(x + y, x, 0)
  {
  }

  /** A part is read as its name and its data. */
  lemma PartRead(lines: seq<string>, data: string, a: string, name: string, z: string, otherwise: Upload)
    requires LinesOnly(lines) && HeaderText(lines) == a + FILENAME + (name + "\"" + z) && Free(a, FILENAME) &&
      '"' !in name
    ensures PartOf(HeaderText(lines) + BLANK_LINE + data, otherwise) == Upload(name, Stripped(data))
  {
    hide Occurs, HeaderText, Stripped, FilenameIn, Find;
    var h := HeaderText(lines);
    BlankLineFound(lines, data);
    ConcatAssoc(h, BLANK_LINE, data);
    Middle(h, BLANK_LINE, data);
    Middle(h, BLANK_LINE + data, "");
    assert (h + BLANK_LINE + data)[|h| + 4..] == data;
    NameFound(a, name, z, otherwise.filename);
  }

  /** The first delimiter comes no later than the one behind the data. */
  lemma DelimiterAhead(data: string, delimiter: string, tail: string)
    ensures var r := data + ("\r\n" + (delimiter + tail));
            Find(r, delimiter, 0).Some? && Find(r, delimiter, 0).value <= |data| + 2
  {
    ConcatAssoc(data, "\r\n", delimiter + tail);
    Middle(data + "\r\n", delimiter, tail);
    assert Occurs(data + ("\r\n" + (delimiter + tail)), delimiter, |data| + 2);
  }

  /** The part kept ends at the first delimiter after its headers. */
  lemma PartKept(delimiter: string, lines: seq<string>, data: string, a: string, name: string, z: string,
      otherwise: Upload)
    requires WellFormed(delimiter, lines, a, name, z)
    ensures var r := data + ("\r\n" + (delimiter + "--\r\n")); var q := Find(r, delimiter, 0);
            && q.Some? && q.value <= |data| + 2
            && Between(SinglePart(delimiter, lines, data), delimiter) ==
                 Some(HeaderText(lines) + BLANK_LINE + r[..q.value])
            && PartOf(HeaderText(lines) + BLANK_LINE + r[..q.value], otherwise) == Upload(name, Stripped(r[..q.value]))
  {
    hide Between, PartOf, Find, Occurs, Free, HeaderText;
    var r := data + ("\r\n" + (delimiter + "--\r\n"));
    DelimiterAhead(data, delimiter, "--\r\n");
    BetweenFound(delimiter, HeaderText(lines) + BLANK_LINE, r);
    PartRead(lines, r[..Find(r, delimiter, 0).value], a, name, z, otherwise);
  }

  lemma FreeWithBreak(data: string, delimiter: string)
    requires delimiter != "" && Avoids(delimiter, BREAKS) && Free(data, delimiter)
    ensures Free(data + "\r\n", delimiter)
  {
    var x := data + "\r\n";
    forall i | 0 <= i ensures !Occurs(x, delimiter, i) {
      if i + |delimiter| <= |data| {
        assert !Occurs(data, delimiter, i) && x[i..i + |delimiter|] == data[i..i + |delimiter|];
      } else if i + |delimiter| <= |x| {
        var k := i + |delimiter| - 1;
        assert x[k] in BREAKS && x[i..i + |delimiter|][|delimiter| - 1] == x[k];
      }
    }
  }

  /** Behind data without a delimiter the first one is the closing one. */
  lemma ClosingFound(data: string, delimiter: string, tail: string)
    requires delimiter != "" && Avoids(delimiter, BREAKS) && Free(data, delimiter)
    ensures Find(data + ("\r\n" + (delimiter + tail)), delimiter, 0) == Some(|data| + 2)
  {
    hide Occurs, Find;
    FreeWithBreak(data, delimiter);
    ConcatAssoc(data, "\r\n", delimiter + tail);
    FoundBehind(data + "\r\n", delimiter + tail, delimiter);
    Front(delimiter, tail);
    FoundAt(delimiter + tail, delimiter, 0, 0);
  }

  /** What is kept of the data: all of it, or what precedes the first delimiter in it. */
  lemma DataKept(data: string, delimiter: string, tail: string)
    requires delimiter != "" && Avoids(delimiter, BREAKS)
    ensures var r := data + ("\r\n" + (delimiter + tail)); var q := Find(r, delimiter, 0);
            q.Some? && q.value <= |r| && (Stripped(r[..q.value]) == data <==> Free(data, delimiter))
  {
    var r := data + ("\r\n" + (delimiter + tail));
    DelimiterAhead(data, delimiter, tail);
    if Free(data, delimiter) {
      ClosingFound(data, delimiter, tail);
      ConcatAssoc(data, "\r\n", delimiter + tail);
      Middle(data + "\r\n", delimiter, tail);
      StripsOneBreak(data);
    } else {
      var p: nat :| Occurs(data, delimiter, p);
      assert r[p..p + |delimiter|] == data[p..p + |delimiter|];
      assert Occurs(r, delimiter, p);
      StrippedShorter(r[..Find(r, delimiter, 0).value]);
    }
  }

  lemma StrippedShorter(data: string)
    ensures |Stripped(data)| <= |data|
  {
  }

  /** The data comes back exactly when it does not contain the delimiter, whatever it ends with; the
      name always does. */
  lemma UploadExactly(kind: string, boundary: string, lines: seq<string>, data: string, a: string, name: string,
      z: string, named: string)
    requires Free(kind, BOUNDARY) && WellFormed("--" + boundary, lines, a, name, z)
    ensures var u := FileIn(kind + BOUNDARY + boundary, SinglePart("--" + boundary, lines, data), named);
            u.filename == name && (u.data == data <==> Free(data, "--" + boundary))
  {
    hide Between, PartOf, Occurs, Free, SinglePart, Stripped;
    var delimiter := "--" + boundary;
    FirstStands(kind, BOUNDARY, boundary);
    ConcatAssoc(kind, BOUNDARY, boundary);
    Middle(kind, BOUNDARY, boundary);
    Middle(BOUNDARY, boundary, "");
    assert (kind + BOUNDARY + boundary)[|kind| + |BOUNDARY|..] == boundary;
    PartKept(delimiter, lines, data, a, name, z, Upload(UNNAMED, SinglePart(delimiter, lines, data)));
    DataKept(data, delimiter, "--\r\n");
  }

  lemma FreeByFirst(s: string, pat: string)
    requires pat != "" && pat[0] !in s
    ensures Free(s, pat)
  {
    forall i | 0 <= i ensures !Occurs(s, pat, i) {
      if i + |pat| <= |s| {
        assert s[i..i + |pat|][0] == s[i] && s[i] in s;
      }
    }
  }

  /** A body with one header line, the name of the file and nothing else, is well formed. */
  lemma PlainPart(boundary: string, name: string)
    requires Avoids(boundary, BREAKS) && Avoids(name, BREAKS) && '"' !in name && '-' !in name
    ensures var lines := [FILENAME + (name + "\"")];
            && WellFormed("--" + boundary, lines, "\r\n", name, "")
  {
    var line := FILENAME + (name + "\"");
    var lines := [line];
    assert lines[1..] == [] && HeaderText(lines[1..]) == "";
    assert HeaderText(lines) == "\r\n" + line + "" == "\r\n" + FILENAME + (name + "\"" + "");
    FreeByFirst("\r\n", FILENAME);
    assert '-' !in FILENAME && '-' !in HeaderText(lines) + BLANK_LINE;
    FreeByFirst(HeaderText(lines) + BLANK_LINE, "--" + boundary);
    forall i | 0 <= i < |line| ensures line[i] !in BREAKS {
      if |FILENAME| <= i < |FILENAME| + |name| {
        assert line[i] == name[i - |FILENAME|];
      }
    }
  }

  /** Data that holds the delimiter is cut short, as in a file called n.txt with the delimiter in it. */
  lemma DelimiterCutsData(boundary: string, before: string, after: string)
    requires Avoids(boundary, BREAKS)
    ensures var data := before + (("--" + boundary) + after);
            var body := SinglePart("--" + boundary, [FILENAME + ("n.txt" + "\"")], data);
            var u := FileIn("" + BOUNDARY + boundary, body, "");
            u.filename == "n.txt" && u.data != data
  {
    var delimiter := "--" + boundary;
    var data := before + (delimiter + after);
    PlainPart(boundary, "n.txt");
    FreeByFirst("", BOUNDARY);
    Middle(before, delimiter, after);
    assert Occurs(data, delimiter, |before|);
    UploadExactly("", boundary, [FILENAME + ("n.txt" + "\"")], data, "\r\n", "n.txt", "", "");
  }

  // ---- other bodies ------------------------------------------------------------------------------

  /** One line break goes from the end, of either kind, and no more than one. */
  lemma StrippedExactly(data: string)
    ensures var r := Stripped(data);
            || (data == r && (r == "" || r[|r| - 1] != '\n'))
            || (data == r + "\n" && (r == "" || r[|r| - 1] != '\r'))
            || data == r + "\r\n"
  {
  }

  /** Without a boundary in the content type the whole body is the file, under the name given in the
      header for it, or else the default name. */
  lemma WithoutBoundary(kind: string, body: string, named: string)
    requires Free(kind, BOUNDARY)
    ensures FileIn(kind, body, named) == Upload(if named == "" then "uploaded_file.bin" else named, body)
  {
    NotFound(kind, BOUNDARY, 0);
  }

  /** With a boundary that does not enclose a part, or a part without a blank line, the whole body is
      the file, under the default name, whatever the header says. */
  lemma WithoutPart(kind: string, boundary: string, body: string, named: string)
    requires Free(kind, BOUNDARY)
    requires var delimiter := "--" + boundary;
             forall i, j ::
               0 <= i && i + |delimiter| <= j && Occurs(body, delimiter, i) && Occurs(body, delimiter, j) ==>
                 Free(body[i + |delimiter|..j], "\r\n\r\n") && Free(body[i + |delimiter|..j], "\n\n")
    ensures FileIn(kind + BOUNDARY + boundary, body, named) == Upload("uploaded_file.bin", body)
  {
    hide Occurs, Stripped, FilenameIn;
    BoundaryRead(kind, boundary);
  }

  /** A part whose headers end with two bare line feeds, its data with one: they are told apart. */
  lemma BarePart(kind: string, boundary: string, headers: string, data: string, rest: string, named: string)
    requires Free(kind, BOUNDARY) && Free(headers, "\n\n") && (data == "" || data[|data| - 1] != '\r')
    requires headers == "" || headers[|headers| - 1] != '\n'
    requires var delimiter, part := "--" + boundary, headers + ("\n\n" + (data + "\n"));
             && Free(part, "\r\n\r\n")
             && forall i :: 0 <= i < |part| ==> !Occurs(part + (delimiter + rest), delimiter, i)
    ensures var delimiter, part := "--" + boundary, headers + ("\n\n" + (data + "\n"));
            var u := FileIn(kind + BOUNDARY + boundary, delimiter + (part + (delimiter + rest)), named);
            u.data == data && u.filename == FilenameIn(headers, "uploaded_file.bin")
  {
    var delimiter, part := "--" + boundary, headers + ("\n\n" + (data + "\n"));
    BoundaryRead(kind, boundary);
    BetweenTwo(delimiter, part, rest);
    BareRead(headers, data, Upload("uploaded_file.bin", delimiter + (part + (delimiter + rest))));
    hide Occurs, Free, Find, PartOf, Between;
  }

  lemma BoundaryRead(kind: string, boundary: string)
    requires Free(kind, BOUNDARY)
    ensures Find(kind + BOUNDARY + boundary, BOUNDARY, 0) == Some(|kind|)
    ensures (kind + BOUNDARY + boundary)[|kind| + |BOUNDARY|..] == boundary
  {
    FirstStands(kind, BOUNDARY, boundary);
  }

  lemma BareRead(headers: string, data: string, otherwise: Upload)
    requires Free(headers, "\n\n") && (data == "" || data[|data| - 1] != '\r')
    requires headers == "" || headers[|headers| - 1] != '\n'
    requires Free(headers + ("\n\n" + (data + "\n")), "\r\n\r\n")
    ensures PartOf(headers + ("\n\n" + (data + "\n")), otherwise) ==
            Upload(FilenameIn(headers, otherwise.filename), data)
  {
    var part := headers + ("\n\n" + (data + "\n"));
    BareHeaders(headers, data + "\n");
    NotFound(part, BLANK_LINE, 0);
    Middle(headers, "\n\n", data + "\n");
    assert part[|headers| + 2..] == data + "\n";
    assert (data + "\n")[..|data|] == data;
    hide Occurs, Free, Find, FilenameIn;
  }

  lemma BareHeaders(headers: string, rest: string)
    requires Free(headers, "\n\n") && (headers == "" || headers[|headers| - 1] != '\n')
    ensures Find(headers + ("\n\n" + rest), "\n\n", 0) == Some(|headers|)
  {
    var s := headers + ("\n\n" + rest);
    forall i | 0 <= i < |headers| ensures !Occurs(s, "\n\n", i) {
      NoLineFeedsHere(headers, rest, i);
    }
    ConcatAssoc(headers, "\n\n", rest);
    Middle(headers, "\n\n", rest);
    assert Occurs(s, "\n\n", |headers|);
    hide Occurs;
    FoundAt(s, "\n\n", 0, |headers|);
  }

  lemma NoLineFeedsHere(headers: string, rest: string, i: nat)
    requires Free(headers, "\n\n") && i < |headers| && headers[|headers| - 1] != '\n'
    ensures !Occurs(headers + ("\n\n" + rest), "\n\n", i)
  {
    var s := headers + ("\n\n" + rest);
    assert !Occurs(headers, "\n\n", i) && s[i] == headers[i];
    if i + 2 <= |headers| {
      assert s[i..i + 2] == headers[i..i + 2];
    } else {
      assert s[i..i + 2][0] == s[i];
    }
  }

  lemma BetweenTwo(delimiter: string, part: string, rest: string)
    requires forall i :: 0 <= i < |part| ==> !Occurs(part + (delimiter + rest), delimiter, i)
    ensures Between(delimiter + (part + (delimiter + rest)), delimiter) == Some(part)
  {
    hide Occurs, Find;
    var r := part + (delimiter + rest);
    Front(delimiter, rest);
    OccursBehind(part, delimiter + rest, delimiter);
    assert Occurs(r, delimiter, |part|) by { assert Occurs(delimiter + rest, delimiter, |part| - |part|); }
    FoundAt(r, delimiter, 0, |part|);
    FoundPast(delimiter, r, delimiter);
    Front(delimiter, r);
    FoundAt(delimiter + r, delimiter, 0, 0);
    assert (delimiter + r)[|delimiter|..|delimiter| + |part|] == part;
  }

  // ---- the name the file is saved under ---------------------------------------------------------

  predicate IsSlash(c: char) { c == '/' || c == '\\' }

  /** The name behind its last slash, of either kind. */
  function BaseName(name: string): (r: string)
    ensures |r| <= |name| && name[|name| - |r|..] == r
    ensures forall i :: 0 <= i < |r| ==> !IsSlash(r[i])
    ensures |r| < |name| ==> IsSlash(name[|name| - |r| - 1])
  {
    if name == "" || IsSlash(name[|name| - 1]) then ""
    else BaseName(name[..|name| - 1]) + [name[|name| - 1]]
  }

  /** The extension from the last point on, in lower case; "" without a point. */
  function Extension(name: string): (r: string)
    ensures r == "" <==> '.' !in name
    ensures |r| <= |name| && r == Lower(name[|name| - |r|..])
    ensures r != "" ==> name[|name| - |r|] == '.' && '.' !in name[|name| - |r| + 1..]
  {
    if name == "" then ""
    else if name[|name| - 1] == '.' then "."
    else if Extension(name[..|name| - 1]) == "" then ""
    else Extension(name[..|name| - 1]) + [LowerChar(name[|name| - 1])]
  }

  const SUPPORTED: set<string> := {
    ".html", ".htm", ".css", ".js", ".json", ".xml", ".txt", ".png", ".jpg", ".jpeg", ".gif", ".svg", ".ico",
    ".webp", ".woff", ".woff2", ".ttf", ".pdf", ".zip"
  }

  /** What is saved, under which name; nothing for a file of any other kind. */
  function Saved(u: Upload): Option<Upload> {
    var name := BaseName(u.filename);
    if Extension(name) in SUPPORTED then Some(Upload(name, u.data)) else None
  }

  method HandleFileUpload(contentType: string, body: string, named: string) returns (saved: Option<Upload>)
    ensures saved == Saved(FileIn(contentType, body, named))
  {
    hide FileIn;
    var filename, fileData := ReadUpload(contentType, body, named);
    filename := BaseName(filename);
    if Extension(filename) !in SUPPORTED {
      return None;
    }
    return Some(Upload(filename, fileData));
  }

  method ReadUpload(contentType: string, body: string, named: string) returns (filename: string, fileData: string)
    ensures Upload(filename, fileData) == FileIn(contentType, body, named)
  {
    hide Occurs, PartOf, Find;
    filename, fileData := UNNAMED, body;
    var boundaryPos := Find(contentType, BOUNDARY, 0);
    if boundaryPos.Some? {
      var boundary := "--" + contentType[boundaryPos.value + |BOUNDARY|..];
      var startPos := Find(body, boundary, 0);
      if startPos.Some? {
        var partStart := startPos.value + |boundary|;
        var endPos := Find(body, boundary, partStart);
        if endPos.Some? {
          filename, fileData := ReadPart(body[partStart..endPos.value], filename, fileData);
        }
      }
    } else if named != "" {
      filename := named;
    }
  }

  method ReadPart(part: string, filename: string, fileData: string) returns (name: string, data: string)
    ensures Upload(name, data) == PartOf(part, Upload(filename, fileData))
  {
    hide Occurs, Find;
    name, data := filename, fileData;
    var headerEnd := Find(part, BLANK_LINE, 0);
    if headerEnd.None? {
      headerEnd := Find(part, "\n\n", 0);
    }
    if headerEnd.Some? {
      var headers := part[..headerEnd.value];
      var fnPos := Find(headers, FILENAME, 0);
      if fnPos.Some? {
        var fnEnd := Find(headers, "\"", fnPos.value + |FILENAME|);
        if fnEnd.Some? {
          name := headers[fnPos.value + |FILENAME|..fnEnd.value];
        }
      }
      var dataStart := headerEnd.value + (if Find(part, BLANK_LINE, 0).Some? then 4 else 2);
      data := part[dataStart..];
      if data != "" && data[|data| - 1] == '\n' {
        data := data[..|data| - 1];
        if data != "" && data[|data| - 1] == '\r' {
          data := data[..|data| - 1];
        }
      }
    }
  }
}
