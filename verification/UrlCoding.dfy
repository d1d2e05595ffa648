/** Percent-decoding of request targets. A byte is a character below 256. */
module UrlCoding {
  import opened HttpText

  predicate IsHex(c: char) {
    '0' <= c <= '9' || 'a' <= c <= 'f' || 'A' <= c <= 'F'
  }

  function HexValue(c: char): (v: nat)
    requires IsHex(c)
    ensures v < 16
  {
    if c <= '9' then c as int - '0' as int else if c <= 'F' then c as int - 'A' as int + 10
        else c as int - 'a' as int + 10
  }

  /** `istringstream >> hex >> value` on two characters: blanks are skipped, one sign is taken, a
      lone hexadecimal digit will do, and what follows it is left; "0x" is a prefix without
      digits. `None` is a failed read. */
  function ReadHex(a: char, b: char): (v: Option<int>)
    ensures v.Some? ==> -16 < v.value < 256
  {
    if IsSpace(a) then if IsHex(b) then Some(HexValue(b)) else None
    else if a == '+' then if IsHex(b) then Some(HexValue(b)) else None
    else if a == '-' then if IsHex(b) then Some(0 - HexValue(b) as int) else None
    else if !IsHex(a) || (a == '0' && (b == 'x' || b == 'X')) then None
    else if IsHex(b) then Some(16 * HexValue(a) + HexValue(b))
    else Some(HexValue(a))
  }

  /** `static_cast<char>`: the value modulo 256. */
  function ByteOf(v: int): char {
    (v % 256) as char
  }

  /** What `src` decodes to. */
  function Decoded(src: string): (r: string)
    ensures |r| <= |src|
    decreases |src|
  {
    if src == "" then ""
    else if src[0] == '%' && |src| > 2 && ReadHex(src[1], src[2]).Some?
    then [ByteOf(ReadHex(src[1], src[2]).value)] + Decoded(src[3..])
    else [if src[0] == '+' then ' ' else src[0]] + Decoded(src[1..])
  }

  method UrlDecode(src: string) returns (ret: string)
    ensures ret == Decoded(src)
  {
    ret := "";
    var i := 0;
    while i < |src|
      invariant i <= |src| && ret + Decoded(src[i..]) == Decoded(src)
    {
      var rest := src[i..];
      if src[i] == '%' && i + 2 < |src| {
        var value := ReadHex(src[i + 1], src[i + 2]);
        if value.Some? {
          Grow(ret, ByteOf(value.value), rest[3..]);
          ret := ret + [ByteOf(value.value)];
          i := i + 2;
        } else {
          Grow(ret, src[i], rest[1..]);
          ret := ret + [src[i]];
        }
      } else if src[i] == '+' {
        Grow(ret, ' ', rest[1..]);
        ret := ret + " ";
      } else {
        Grow(ret, src[i], rest[1..]);
        ret := ret + [src[i]];
      }
      i := i + 1;
    }
  }

  lemma Grow(ret: string, c: char, rest: string)
    ensures ret + ([c] + Decoded(rest)) == ret + [c] + Decoded(rest)
  {
  }

  /** Escapes no encoder writes: a lone digit counts for itself and takes the next character with it,
      a blank or a plus sign before a digit is skipped, a minus sign negates modulo 256. */
  lemma LooseEscapes(d: char, z: char, rest: string)
    requires IsHex(d)
    ensures !IsHex(z) && (d == '0' ==> z != 'x' && z != 'X') ==>
              Decoded(['%', d, z] + rest) == [HexValue(d) as char] + Decoded(rest)
    ensures IsSpace(z) || z == '+' ==> Decoded(['%', z, d] + rest) == [HexValue(d) as char] + Decoded(rest)
    ensures d != '0' ==> Decoded(['%', '-', d] + rest) == [(256 - HexValue(d)) as char] + Decoded(rest)
  {
    assert (['%', d, z] + rest)[3..] == rest && (['%', z, d] + rest)[3..] == rest;
    assert (['%', '-', d] + rest)[3..] == rest;
  }

  // ---- encoding --------------------------------------------------------------------------------

  /** How an encoder writes one byte: as it is, as an escape in either case of letters, or, for a
      blank, as a plus sign. */
  datatype Style = Plain | Upper | Lower | Plus

  function HexDigit(v: nat, upper: bool): (c: char)
    requires v < 16
    ensures IsHex(c) && HexValue(c) == v && !IsSpace(c) && c != '+' && c != '-' && c != 'x' && c != 'X'
  {
    if v < 10 then ('0' as int + v) as char else if upper then ('A' as int + v - 10) as char
        else ('a' as int + v - 10) as char
  }

  function Written(c: char, style: Style): string
    requires c as int < 256
  {
    match style
    case Plain => [c]
    case Plus => "+"
    case _ => ['%', HexDigit(c as int / 16, style.Upper?), HexDigit(c as int % 16, style.Upper?)]
  }

  ghost predicate Bytes(s: string) {
    forall i :: 0 <= i < |s| ==> s[i] as int < 256
  }

  function Encoded(s: string, styles: seq<Style>): string
    requires |styles| == |s| && forall i :: 0 <= i < |s| ==> s[i] as int < 256
  {
    if s == "" then "" else Written(s[0], styles[0]) + Encoded(s[1..], styles[1..])
  }

  /** An encoder escapes at least '%' and '+', and writes a plus sign for blanks only. */
  ghost predicate Escaping(s: string, styles: seq<Style>) {
    && |styles| == |s|
    && forall i :: 0 <= i < |s| ==>
         (styles[i] == Plain ==> s[i] != '%' && s[i] != '+') && (styles[i] == Plus ==> s[i] == ' ')
  }

  lemma DecodeOne(c: char, style: Style, rest: string)
    requires c as int < 256 && (style == Plain ==> c != '%' && c != '+') && (style == Plus ==> c == ' ')
    ensures Decoded(Written(c, style) + rest) == [c] + Decoded(rest)
  {
    var w := Written(c, style) + rest;
    if style.Upper? || style.Lower? {
      assert w[3..] == rest;
      assert ReadHex(w[1], w[2]) == Some(c as int);
    } else {
      assert w[1..] == rest;
    }
  }

  /** Decoding undoes percent-encoding, in the form of section 2.1 of RFC 3986, of every byte
      string, whatever else the encoder escapes and in whatever case it writes the digits. */
  lemma {:induction false} DecodeInverts(s: string, styles: seq<Style>)
    requires Bytes(s) && Escaping(s, styles)
    ensures Decoded(Encoded(s, styles)) == s
  {
    if s != "" {
      DecodeInverts(s[1..], styles[1..]);
      DecodeOne(s[0], styles[0], Encoded(s[1..], styles[1..]));
    }
  }

  /** Neither a plus sign nor an escape that can be read. */
  predicate Untouched(s: string, i: nat)
    requires i < |s|
  {
    s[i] != '+' && (s[i] == '%' && i + 2 < |s| ==> ReadHex(s[i + 1], s[i + 2]).None?)
  }

  lemma UntouchedTail(s: string, i: nat)
    requires i + 1 < |s|
    ensures Untouched(s, i + 1) <==> Untouched(s[1..], i)
  {
  }

  lemma DecodedHead(s: string)
    requires s != ""
    ensures Decoded(s) == s <==> Untouched(s, 0) && Decoded(s[1..]) == s[1..]
  {
    hide ReadHex;
    if Decoded(s) == s {
      assert |Decoded(s)| == |s|;
    }
  }

  /** A text decodes to itself exactly if all its characters are left as they are. */
  lemma {:induction false} PlainExactly(s: string)
    ensures Decoded(s) == s <==> forall i :: 0 <= i < |s| ==> Untouched(s, i)
    decreases |s|
  {
    hide Untouched, Decoded;
    if s == "" {
      assert Decoded(s) == s by { assert |Decoded(s)| == 0; }
    } else {
      PlainExactly(s[1..]);
      DecodedHead(s);
      forall i | 0 <= i < |s| - 1 ensures Untouched(s, i + 1) <==> Untouched(s[1..], i) {
        UntouchedTail(s, i);
      }
      assert forall i :: 0 < i < |s| ==> (Untouched(s, i) <==> Untouched(s[1..], i - 1));
    }
  }
}
