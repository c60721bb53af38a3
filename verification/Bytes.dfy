/** Bytes, 16-bit fields in network order, C strings and C number parsing. */
module Bytes {
  type Byte = b: int | 0 <= b < 0x100
  type U16 = n: int | 0 <= n < 0x1_0000
  type U64 = n: int | 0 <= n < 0x1_0000_0000_0000_0000

  const LONG_MAX: int := 0x7fff_ffff_ffff_ffff
  const LONG_MIN: int := -0x8000_0000_0000_0000

  function Min(a: int, b: int): int {
    if a < b then a else b
  }

  /** Conversion to a 16-bit signed integer. */
  function ToShort(n: int): (r: int)
    ensures -0x8000 <= r < 0x8000
    ensures -0x8000 <= n < 0x8000 ==> r == n
  {
    (n + 0x8000) % 0x1_0000 - 0x8000
  }

  /** The bytes of an ASCII literal. */
  function Ascii(s: string): (r: seq<Byte>)
    requires forall i :: 0 <= i < |s| ==> s[i] as int < 0x80
  {
    seq(|s|, i requires 0 <= i < |s| => s[i] as int)
  }

  function Zeros(n: nat): seq<Byte> {
    seq(n, _ => 0)
  }

  function GetU16(b: seq<Byte>): U16
    requires 2 <= |b|
  {
    var hi: int, lo: int := b[0], b[1];
    hi * 0x100 + lo
  }

  /** A 16-bit field as htons lays it out. */
  function PutU16(n: U16): (r: seq<Byte>)
    ensures |r| == 2 && GetU16(r) == n
  {
    [n / 0x100, n % 0x100]
  }

  predicate NulFree(s: seq<Byte>) {
    0 !in s
  }

  /** The C string that starts at the front of `b`: everything before the first NUL. */
  function CStr(b: seq<Byte>): (r: seq<Byte>) {
    if b == [] || b[0] == 0 then [] else [b[0]] + CStr(b[1..])
  }

  lemma {:induction false} CStrIsPrefix(b: seq<Byte>)
    ensures |CStr(b)| <= |b| && CStr(b) == b[..|CStr(b)|]
    ensures NulFree(CStr(b))
    ensures |CStr(b)| < |b| ==> b[|CStr(b)|] == 0
  {
    if b != [] && b[0] != 0 {
      CStrIsPrefix(b[1..]);
      assert b == [b[0]] + b[1..];
    }
  }

  lemma {:induction false} CStrOfTerminated(s: seq<Byte>, rest: seq<Byte>)
    requires NulFree(s)
    requires rest == [] || rest[0] == 0
    ensures CStr(s + rest) == s
  {
    if s != [] {
      assert (s + rest)[1..] == s[1..] + rest;
      CStrOfTerminated(s[1..], rest);
    } else {
      assert s + rest == rest;
    }
  }

  function Lower(b: Byte): Byte {
    if 65 <= b <= 90 then b + 32 else b
  }

  /** strcasecmp(a, b) == 0. */
  predicate SameIgnoringCase(a: seq<Byte>, b: seq<Byte>) {
    |a| == |b| && forall i :: 0 <= i < |a| ==> Lower(a[i]) == Lower(b[i])
  }

  predicate IsDigit(b: Byte) {
    48 <= b <= 57
  }

  predicate IsSpace(b: Byte) {
    b == 32 || 9 <= b <= 13
  }

  /** %zu */
  function Decimal(n: nat): seq<Byte> {
    if n < 10 then [48 + n] else Decimal(n / 10) + [48 + n % 10]
  }

  function LeadingDigits(s: seq<Byte>): seq<Byte> {
    if s == [] || !IsDigit(s[0]) then [] else [s[0]] + LeadingDigits(s[1..])
  }

  function SkipSpaces(s: seq<Byte>): seq<Byte> {
    if s == [] || !IsSpace(s[0]) then s else SkipSpaces(s[1..])
  }

  function DigitValue(b: Byte): nat
    requires IsDigit(b)
  {
    var code: int := b;
    code - 48
  }

  /** The number a digit string stands for, accumulated left to right. */
  function DigitsFrom(acc: nat, s: seq<Byte>): nat
    requires forall i :: 0 <= i < |s| ==> IsDigit(s[i])
    decreases |s|
  {
    if s == [] then acc else DigitsFrom(acc * 10 + DigitValue(s[0]), s[1..])
  }

  lemma LeadingDigitsAreDigits(s: seq<Byte>)
    ensures forall i :: 0 <= i < |LeadingDigits(s)| ==> IsDigit(LeadingDigits(s)[i])
  {
  }

  datatype Long = InRange(value: int) | OutOfRange

  /** strtol(s, NULL, 10); OutOfRange stands for errno == ERANGE. */
  function Strtol(s: seq<Byte>): Long {
    var t := SkipSpaces(s);
    var signed := t != [] && (t[0] == 43 || t[0] == 45);
    var digits := LeadingDigits(if signed then t[1..] else t);
    LeadingDigitsAreDigits(if signed then t[1..] else t);
    var magnitude: int := DigitsFrom(0, digits);
    var value: int := if signed && t[0] == 45 then -magnitude else magnitude;
    if LONG_MIN <= value <= LONG_MAX then InRange(value) else OutOfRange
  }

  lemma {:induction false} AllDigits(s: seq<Byte>)
    requires forall i :: 0 <= i < |s| ==> IsDigit(s[i])
    ensures LeadingDigits(s) == s
  {
    if s != [] {
      AllDigits(s[1..]);
    }
  }

  lemma {:induction false} DigitsFromSnoc(acc: nat, s: seq<Byte>, d: Byte)
    requires forall i :: 0 <= i < |s| ==> IsDigit(s[i])
    requires IsDigit(d)
    ensures DigitsFrom(acc, s + [d]) == DigitsFrom(acc, s) * 10 + DigitValue(d)
    decreases |s|
  {
    if s == [] {
      assert [d][1..] == [];
      assert s + [d] == [d];
    } else {
      assert (s + [d])[1..] == s[1..] + [d];
      DigitsFromSnoc(acc * 10 + DigitValue(s[0]), s[1..], d);
    }
  }

  lemma {:induction false} DecimalDigits(n: nat)
    ensures Decimal(n) != []
    ensures forall i :: 0 <= i < |Decimal(n)| ==> IsDigit(Decimal(n)[i])
    ensures DigitsFrom(0, Decimal(n)) == n
  {
    if n < 10 {
      assert Decimal(n)[1..] == [];
    } else {
      DecimalDigits(n / 10);
      DigitsFromSnoc(0, Decimal(n / 10), 48 + n % 10);
    }
  }

  /** Number parsing undoes number printing, for every number. */
  lemma StrtolOfDecimal(n: nat)
    ensures Strtol(Decimal(n)) == if n <= LONG_MAX then InRange(n) else OutOfRange
    ensures NulFree(Decimal(n))
  {
    DecimalDigits(n);
    AllDigits(Decimal(n));
    assert !IsSpace(Decimal(n)[0]);
  }

  // ---------- Text around the number ----------

  predicate AllBlank(s: seq<Byte>) {
    forall i :: 0 <= i < |s| ==> s[i] == 32 || 9 <= s[i] <= 13
  }

  lemma {:induction false} BlanksAreSkipped(blanks: seq<Byte>, rest: seq<Byte>)
    requires AllBlank(blanks) && (rest == [] || !IsSpace(rest[0]))
    ensures SkipSpaces(blanks + rest) == rest
  {
    if blanks == [] {
      assert blanks + rest == rest;
    } else {
      assert (blanks + rest)[1..] == blanks[1..] + rest;
      BlanksAreSkipped(blanks[1..], rest);
    }
  }

  lemma {:induction false} TailIsCutOff(digits: seq<Byte>, tail: seq<Byte>)
    requires forall i :: 0 <= i < |digits| ==> IsDigit(digits[i])
    requires tail == [] || !IsDigit(tail[0])
    ensures LeadingDigits(digits + tail) == digits
  {
    if digits == [] {
      assert digits + tail == tail;
    } else {
      assert (digits + tail)[1..] == digits[1..] + tail;
      TailIsCutOff(digits[1..], tail);
    }
  }

  lemma {:induction false} ZerosCountForNothing(zeros: nat, digits: seq<Byte>)
    requires forall i :: 0 <= i < |digits| ==> IsDigit(digits[i])
    ensures DigitsFrom(0, seq(zeros, _ => 48) + digits) == DigitsFrom(0, digits)
  {
    var padded := seq(zeros, _ => 48) + digits;
    if zeros == 0 {
      assert padded == digits;
    } else {
      assert padded[1..] == seq(zeros - 1, _ => 48) + digits;
      ZerosCountForNothing(zeros - 1, digits);
    }
  }

  /** What strtol returns, or ERANGE, for a number of either sign. */
  function AsLong(negative: bool, magnitude: int): Long {
    var v := if negative then -magnitude else magnitude;
    if -0x8000_0000_0000_0000 <= v <= 0x7fff_ffff_ffff_ffff then InRange(v) else OutOfRange
  }

  lemma StrtolOfParts(blanks: seq<Byte>, sign: seq<Byte>, digits: seq<Byte>, tail: seq<Byte>)
    requires AllBlank(blanks) && (sign == [] || sign == [43] || sign == [45])
    requires digits != [] && forall i :: 0 <= i < |digits| ==> IsDigit(digits[i])
    requires tail == [] || !IsDigit(tail[0])
    ensures Strtol(blanks + (sign + (digits + tail))) == AsLong(sign == [45], DigitsFrom(0, digits))
  {
    hide SkipSpaces, LeadingDigits, DigitsFrom, AllBlank;
    var rest := sign + (digits + tail);
    assert rest[0] == if sign == [] then digits[0] else sign[0];
    BlanksAreSkipped(blanks, rest);
    assert rest[|sign|..] == digits + tail;
    TailIsCutOff(digits, tail);
  }

  /** Blanks before the number, a sign, leading zeros and any text behind it are read as C reads them. */
  lemma StrtolOfText(blanks: seq<Byte>, sign: seq<Byte>, zeros: nat, n: nat, tail: seq<Byte>)
    requires AllBlank(blanks) && (sign == [] || sign == [43] || sign == [45])
    requires tail == [] || tail[0] < 48 || tail[0] > 57
    ensures Strtol(blanks + sign + seq(zeros, _ => 48) + Decimal(n) + tail) == AsLong(sign == [45], n)
  {
    hide Decimal, Strtol, AsLong, DigitsFrom, AllBlank;
    DecimalDigits(n);
    var digits := seq(zeros, _ => 48) + Decimal(n);
    assert blanks + sign + seq(zeros, _ => 48) + Decimal(n) + tail == blanks + (sign + (digits + tail));
    ZerosCountForNothing(zeros, Decimal(n));
    StrtolOfParts(blanks, sign, digits, tail);
  }

  /** Without a digit behind blanks and sign, the value is 0. */
  lemma StrtolOfNoNumber(blanks: seq<Byte>, sign: seq<Byte>, tail: seq<Byte>)
    requires AllBlank(blanks) && (sign == [] || sign == [43] || sign == [45])
    requires tail == [] || tail[0] < 48 || tail[0] > 57
    requires sign == [] && tail != [] ==> tail[0] != 43 && tail[0] != 45 && !AllBlank(tail[..1])
    ensures Strtol(blanks + sign + tail) == InRange(0)
  {
    var rest := sign + tail;
    assert blanks + sign + tail == blanks + rest;
    assert tail != [] ==> tail[..1][0] == tail[0];
    BlanksAreSkipped(blanks, rest);
    assert tail == rest[|sign|..];
    TailIsCutOff([], tail);
    assert [] + tail == tail;
  }
}
