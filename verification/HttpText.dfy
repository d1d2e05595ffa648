/** Byte strings, header names and numbers as the HTTP code reads them. A byte is a `char`. */
module HttpText {
  datatype Option<+T> = None | Some(value: T)

  const CR: char := '\r'
  const LF: char := '\n'
  const BLANKS: set<char> := {' ', '\r', '\n'}
  const BREAKS: set<char> := {'\r', '\n'}
  const WORD_ENDS: set<char> := {' ', '\r', '\n'}
  const KEY_ENDS: set<char> := {':', '\r', '\n'}

  ghost predicate Only(s: string, allowed: set<char>) {
    forall i :: 0 <= i < |s| ==> s[i] in allowed
  }

  ghost predicate Avoids(s: string, banned: set<char>) {
    forall i :: 0 <= i < |s| ==> s[i] !in banned
  }

  function Spaces(n: nat): (s: string)
    ensures |s| == n && forall i :: 0 <= i < n ==> s[i] == ' '
  {
    seq(n, i => ' ')
  }

  lemma ConcatAssoc<T>(a: seq<T>, b: seq<T>, c: seq<T>)
    ensures a + b + c == a + (b + c)
  {
  }

  lemma AvoidsTail(s: string, banned: set<char>)
    requires s != "" && Avoids(s, banned)
    ensures s[0] !in banned && Avoids(s[1..], banned) && [s[0]] + s[1..] == s
  {
  }

  // ---- case-insensitive names -------------------------------------------------------

  function LowerChar(c: char): char {
    if 'A' <= c <= 'Z' then c - 'A' + 'a' else c
  }

  function Lower(s: string): (r: string)
    ensures |r| == |s| && forall i :: 0 <= i < |s| ==> r[i] == LowerChar(s[i])
  {
    seq(|s|, i requires 0 <= i < |s| => LowerChar(s[i]))
  }

  // ---- std::stoul -------------------------------------------------------------------

  const SIZE_LIMIT: nat := 0x1_0000_0000_0000_0000

  predicate IsDigit(c: char) { '0' <= c <= '9' }

  predicate IsSpace(c: char) {
    c == ' ' || c == '\t' || c == '\n' || c == '\r' || c == 11 as char || c == 12 as char
  }

  function SkipSpace(s: string): string {
    if s != "" && IsSpace(s[0]) then SkipSpace(s[1..]) else s
  }

  function LeadingDigits(s: string): string {
    if s != "" && IsDigit(s[0]) then [s[0]] + LeadingDigits(s[1..]) else ""
  }

  function DigitValue(c: char): nat
    requires IsDigit(c)
  {
    c as int - '0' as int
  }

  function Value(digits: string): nat
    requires forall c :: c in digits ==> IsDigit(c)
  {
    if digits == "" then 0
    else 10 * Value(digits[..|digits| - 1]) + DigitValue(digits[|digits| - 1])
  }

  lemma {:induction false} LeadingDigitsAreDigits(s: string)
    ensures forall c :: c in LeadingDigits(s) ==> IsDigit(c)
  {
    if s != "" && IsDigit(s[0]) {
      LeadingDigitsAreDigits(s[1..]);
    }
  }

  /** `std::stoul` on 64-bit Linux: blanks, an optional sign, decimal digits, anything after
      them ignored. `None` is either of its exceptions. A minus sign negates modulo 2^64. */
  function Stoul(s: string): (r: Option<nat>)
    ensures r.Some? ==> r.value < SIZE_LIMIT
  {
    var t := SkipSpace(s);
    var signed := t != "" && (t[0] == '-' || t[0] == '+');
    var digits := LeadingDigits(if signed then t[1..] else t);
    LeadingDigitsAreDigits(if signed then t[1..] else t);
    if digits == "" || Value(digits) >= SIZE_LIMIT then None
    else if signed && t[0] == '-' && Value(digits) != 0 then Some(SIZE_LIMIT - Value(digits))
    else Some(Value(digits))
  }

  function Decimal(n: nat): (s: string)
    ensures s != ""
  {
    var last := [('0' as int + n % 10) as char];
    if n < 10 then last else Decimal(n / 10) + last
  }

  lemma {:induction false} DecimalIsPlain(n: nat)
    ensures forall i :: 0 <= i < |Decimal(n)| ==> IsDigit(Decimal(n)[i])
    ensures Value(Decimal(n)) == n
  {
    var last := [('0' as int + n % 10) as char];
    assert DigitValue(last[0]) == n % 10;
    if n < 10 {
      assert last[..0] == "";
    } else {
      DecimalIsPlain(n / 10);
      var d := Decimal(n / 10) + last;
      assert d[..|d| - 1] == Decimal(n / 10);
    }
  }

  lemma {:induction false} DigitsLeadThemselves(s: string)
    requires forall i :: 0 <= i < |s| ==> IsDigit(s[i])
    ensures LeadingDigits(s) == s
  {
    if s != "" {
      DigitsLeadThemselves(s[1..]);
    }
  }

  /** Plain decimal text below 2^64 is read as the number it spells. */
  lemma StoulOfPlain(s: string)
    requires s != "" && forall i :: 0 <= i < |s| ==> IsDigit(s[i])
    ensures Stoul(s) == if Value(s) < SIZE_LIMIT then Some(Value(s)) else None
  {
    assert SkipSpace(s) == s by { assert IsDigit(s[0]); }
    DigitsLeadThemselves(s);
    assert LeadingDigits(s) == s;
    assert IsDigit(s[0]);
  }

  lemma StoulOfDecimal(n: nat)
    requires n < SIZE_LIMIT
    ensures Stoul(Decimal(n)) == Some(n)
  {
    DecimalIsPlain(n);
    StoulOfPlain(Decimal(n));
  }
}
