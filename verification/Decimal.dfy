/**
 Decimal printing and parsing of integer map keys: std::to_string on one side, the
 std::stoi family on the other.
 */
module Decimal {
  import opened Common

  datatype IntKind = I32 | I64 | U32 | U64 {
    function Lo(): int {
      match this
      case I32 => -0x8000_0000
      case I64 => -0x8000_0000_0000_0000
      case U32 => 0
      case U64 => 0
    }

    function Hi(): int {
      match this
      case I32 => 0x7fff_ffff
      case I64 => 0x7fff_ffff_ffff_ffff
      case U32 => 0xffff_ffff
      case U64 => 0xffff_ffff_ffff_ffff
    }

    predicate Fits(i: int) {
      Lo() <= i <= Hi()
    }
  }

  /** The ranges are those of two's complement and plain binary, 32 and 64 bits wide. */
  lemma WholeWidths(i: int)
    ensures I32.Fits(i) <==> 0 <= i + 0x8000_0000 < TwoTo32
    ensures I64.Fits(i) <==> 0 <= i + 0x8000_0000_0000_0000 < TwoTo64
    ensures U32.Fits(i) <==> 0 <= i < TwoTo32
    ensures U64.Fits(i) <==> 0 <= i < TwoTo64
  {
  }

  predicate IsDigit(c: char) {
    '0' <= c <= '9'
  }

  function DigitValue(c: char): (d: nat)
    requires IsDigit(c)
    ensures d < 10
  {
    c as int - '0' as int
  }

  function DigitChar(d: nat): (c: char)
    requires d < 10
    ensures IsDigit(c) && DigitValue(c) == d
  {
    '0' + d as char
  }

  function Digits(n: nat): (s: string)
    ensures s != "" && forall i | 0 <= i < |s| :: IsDigit(s[i])
  {
    if n < 10 then [DigitChar(n)] else Digits(n / 10) + [DigitChar(n % 10)]
  }

  /** std::to_string. */
  function ToString(i: int): string {
    if i < 0 then "-" + Digits(-i) else Digits(i)
  }

  function SkipSpaces(s: string): string {
    if s != "" && IsSpace(s[0]) then SkipSpaces(s[1..]) else s
  }

  /** The number spelled by the longest prefix of digits, continuing from acc. */
  function ReadDigits(s: string, acc: nat): nat {
    if s != "" && IsDigit(s[0]) then ReadDigits(s[1..], 10 * acc + DigitValue(s[0])) else acc
  }

  /** Sign and magnitude as strtol reads them; None when there is no digit. */
  function ReadSigned(s: string): Option<(bool, nat)> {
    var t := SkipSpaces(s);
    var negative := t != "" && t[0] == '-';
    var u := if t != "" && (t[0] == '-' || t[0] == '+') then t[1..] else t;
    if u != "" && IsDigit(u[0]) then Some((negative, ReadDigits(u, 0))) else None
  }

  const TwoTo64 := 0x1_0000_0000_0000_0000
  const TwoTo32 := 0x1_0000_0000

  /**
   The key of a member name: stoi, stoll, stoul or stoull by key type. None stands
   for the exception on a name without digits or out of range. The unsigned
   readers negate modulo 2 to the 64; a 32-bit unsigned key keeps the low half.
   */
  function ParseKey(kind: IntKind, s: string): Option<int> {
    match ReadSigned(s)
    case None => None
    case Some((negative, magnitude)) =>
      match kind
      case I32 => InRange(kind, if negative then 0 - magnitude else magnitude)
      case I64 => InRange(kind, if negative then 0 - magnitude else magnitude)
      case U32 =>
        if magnitude >= TwoTo64 then None
        else Some((if negative then TwoTo64 - magnitude else magnitude) % TwoTo32)
      case U64 =>
        if magnitude >= TwoTo64 then None
        else Some((if negative then TwoTo64 - magnitude else magnitude) % TwoTo64)
  }

  function InRange(kind: IntKind, i: int): Option<int> {
    if kind.Fits(i) then Some(i) else None
  }

  lemma {:induction false} ReadDigitsAppend(s: string, c: char, acc: nat)
    requires (forall i | 0 <= i < |s| :: IsDigit(s[i])) && IsDigit(c)
    ensures ReadDigits(s + [c], acc) == 10 * ReadDigits(s, acc) + DigitValue(c)
  {
    if s == "" {
      assert s + [c] == [c];
      assert [c][1..] == "";
    } else {
      assert (s + [c])[1..] == s[1..] + [c];
      ReadDigitsAppend(s[1..], c, 10 * acc + DigitValue(s[0]));
    }
  }

  lemma {:induction false} ReadBackDigits(n: nat)
    ensures ReadDigits(Digits(n), 0) == n
  {
    if n < 10 {
      assert Digits(n)[1..] == "";
    } else {
      ReadBackDigits(n / 10);
      ReadDigitsAppend(Digits(n / 10), DigitChar(n % 10), 0);
    }
  }

  lemma ReadBackSigned(i: int)
    ensures ReadSigned(ToString(i)) == Some((i < 0, if i < 0 then -i else i))
  {
    var s := ToString(i);
    assert !IsSpace(s[0]);
    if i < 0 {
      ReadBackDigits(-i);
      assert s[1..] == Digits(-i);
    } else {
      ReadBackDigits(i);
    }
  }

  /** Parsing a printed key gives the key back, over the whole range of its type. */
  lemma ParsePrinted(kind: IntKind, i: int)
    requires kind.Fits(i)
    ensures ParseKey(kind, ToString(i)) == Some(i)
  {
    ReadBackSigned(i);
  }

  /** No two keys print alike, so no two entries of a map share a member name. */
  lemma ToStringInjective(i: int, j: int)
    requires ToString(i) == ToString(j)
    ensures i == j
  {
    ReadBackSigned(i);
    ReadBackSigned(j);
  }

  // ---- Any member name ----

  predicate AllDigits(s: string) {
    forall i | 0 <= i < |s| :: IsDigit(s[i])
  }

  /** The number a string of digits stands for. */
  function Number(s: string): nat
    requires AllDigits(s)
  {
    if s == "" then 0 else 10 * Number(s[..|s| - 1]) + DigitValue(s[|s| - 1])
  }

  lemma {:induction false} SkipsSpaces(spaces: string, t: string)
    requires (forall i | 0 <= i < |spaces| :: IsSpace(spaces[i])) && (t == "" || !IsSpace(t[0]))
    ensures SkipSpaces(spaces + t) == t
  {
    if spaces == "" {
      assert spaces + t == t;
    } else {
      assert (spaces + t)[1..] == spaces[1..] + t;
      SkipsSpaces(spaces[1..], t);
    }
  }

  lemma {:induction false} StopsAfterDigits(s: string, rest: string, acc: nat)
    requires AllDigits(s) && (rest == "" || !IsDigit(rest[0]))
    ensures ReadDigits(s + rest, acc) == ReadDigits(s, acc)
  {
    if s == "" {
      assert s + rest == rest;
    } else {
      assert (s + rest)[1..] == s[1..] + rest;
      StopsAfterDigits(s[1..], rest, 10 * acc + DigitValue(s[0]));
    }
  }

  lemma {:induction false} ReadsNumber(s: string)
    requires AllDigits(s)
    ensures ReadDigits(s, 0) == Number(s)
  {
    if s != "" {
      ReadsNumber(s[..|s| - 1]);
      assert s == s[..|s| - 1] + [s[|s| - 1]];
      ReadDigitsAppend(s[..|s| - 1], s[|s| - 1], 0);
    }
  }

  /** White space, a sign or none, digits, and then anything that is no digit: the digits are read. */
  lemma ReadsSignedText(spaces: string, sign: string, digits: string, rest: string)
    requires forall i | 0 <= i < |spaces| :: IsSpace(spaces[i])
    requires sign in {"", "+", "-"} && AllDigits(digits) && (rest == "" || !IsDigit(rest[0]))
    requires digits == "" && sign == "" ==> rest == "" || !(IsSpace(rest[0]) || rest[0] == '+' || rest[0] == '-')
    ensures ReadSigned(spaces + sign + digits + rest) ==
      if digits == "" then None else Some((sign == "-", Number(digits)))
  {
    var body := digits + rest;
    var t := sign + body;
    assert spaces + sign + digits + rest == spaces + t;
    if digits != "" {
      assert body[0] == digits[0];
    } else {
      assert body == rest;
    }
    assert sign != "" ==> t[0] == sign[0] && t[1..] == body;
    assert sign == "" ==> t == body;
    SkipsSpaces(spaces, t);
    StopsAfterDigits(digits, rest, 0);
    ReadsNumber(digits);
  }

  /** The key such a name stands for: in range or an exception, unsigned keys modulo their width. */
  lemma KeyOfText(kind: IntKind, spaces: string, sign: string, digits: string, rest: string)
    requires forall i | 0 <= i < |spaces| :: IsSpace(spaces[i])
    requires sign in {"", "+", "-"} && digits != "" && AllDigits(digits) && (rest == "" || !IsDigit(rest[0]))
    ensures var i: int := if sign == "-" then 0 - Number(digits) else Number(digits);
      ParseKey(kind, spaces + sign + digits + rest) ==
        if kind.I32? || kind.I64? then (if kind.Fits(i) then Some(i) else None)
        else if Number(digits) >= TwoTo64 then None
        else Some(i % (if kind.U32? then TwoTo32 else TwoTo64))
  {
    hide ReadSigned, Number;
    ReadsSignedText(spaces, sign, digits, rest);
    if Number(digits) < TwoTo64 {
      WrapsAlike(Number(digits));
    }
  }

  lemma WrapsAlike(m: nat)
    requires m < TwoTo64
    ensures (TwoTo64 - m) % TwoTo32 == (0 - m) % TwoTo32 && (TwoTo64 - m) % TwoTo64 == (0 - m) % TwoTo64
  {
  }

  /** A name without digits there has no key. */
  lemma NoKeyWithoutDigits(kind: IntKind, spaces: string, sign: string, rest: string)
    requires forall i | 0 <= i < |spaces| :: IsSpace(spaces[i])
    requires sign in {"", "+", "-"} && (rest == "" || !IsDigit(rest[0]))
    requires sign == "" ==> rest == "" || !(IsSpace(rest[0]) || rest[0] == '+' || rest[0] == '-')
    ensures ParseKey(kind, spaces + sign + rest) == None
  {
    hide ReadSigned;
    ReadsSignedText(spaces, sign, "", rest);
    assert spaces + sign + "" + rest == spaces + sign + rest;
  }
}
