/** Printing and parsing of decimal numbers, hexadecimal strings, and dot-separated strings. */
module Decimal {
  import opened Common

  const DIGITS := "0123456789abcdef"

  function DigitValue(c: char): Option<nat> {
    if '0' <= c <= '9' then Some(c as nat - '0' as nat) else None
  }

  function FormatNat(n: nat): (s: string)
    ensures s != "" && forall i :: 0 <= i < |s| ==> DigitValue(s[i]).Some?
  {
    if n < 10 then [DIGITS[n]] else FormatNat(n / 10) + [DIGITS[n % 10]]
  }

  function FormatInt(n: int): string {
    if n < 0 then "-" + FormatNat(-n) else FormatNat(n)
  }

  /** The value of a non-empty string of digits. */
  function ParseDigits(s: string): Option<int> {
    if s == "" then None
    else
      match DigitValue(s[|s| - 1])
      case None => None
      case Some(d) =>
        if |s| == 1 then Some(d)
        else
          match ParseDigits(s[..|s| - 1])
          case None => None
          case Some(n) => Some(n * 10 + d)
  }

  /** An unsigned 64-bit number; no sign is allowed. */
  function ParseUint64(s: string): Option<nat> {
    match ParseDigits(s)
    case Some(n) => if 0 <= n < 0x1_0000_0000_0000_0000 then Some(n) else None
    case None => None
  }

  /** A signed 64-bit number, with an optional sign. */
  function ParseInt64(s: string): Option<int> {
    if s != "" && (s[0] == '-' || s[0] == '+') then
      match ParseDigits(s[1..])
      case Some(n) =>
        if s[0] == '-' then (if n <= 0x8000_0000_0000_0000 then Some(-n) else None)
        else (if n < 0x8000_0000_0000_0000 then Some(n) else None)
      case None => None
    else
      match ParseDigits(s)
      case Some(n) => if n < 0x8000_0000_0000_0000 then Some(n) else None
      case None => None
  }

  predicate IsInt64(n: int) {
    -0x8000_0000_0000_0000 <= n < 0x8000_0000_0000_0000
  }

  /** Digits with or without a sign are read as the number they stand for, exactly if that is in range. */
  lemma ReadIffInRange(digits: string, n: int)
    requires n >= 0 && ParseDigits(digits) == Some(n)
    ensures ParseUint64(digits) == if n < 0x1_0000_0000_0000_0000 then Some(n) else None
    ensures ParseInt64("+" + digits) == ParseInt64(digits) == if IsInt64(n) then Some(n) else None
    ensures ParseInt64("-" + digits) == if IsInt64(-n) then Some(-n) else None
  {
    BeginsWithDigit(digits);
    hide ParseDigits;
    assert ("+" + digits)[1..] == digits && ("-" + digits)[1..] == digits;
  }

  lemma {:induction false} BeginsWithDigit(digits: string)
    requires ParseDigits(digits).Some?
    ensures digits != "" && digits[0] != '-' && digits[0] != '+'
  {
    if |digits| > 1 {
      BeginsWithDigit(digits[..|digits| - 1]);
    }
  }

  lemma DigitRoundTrip(d: nat)
    requires d < 10
    ensures DigitValue(DIGITS[d]) == Some(d)
  {
  }

  lemma {:induction false} ParseOfFormat(n: nat)
    ensures ParseDigits(FormatNat(n)) == Some(n)
  {
    hide DigitValue;
    var s := FormatNat(n);
    if n < 10 {
      DigitRoundTrip(n);
    } else {
      ParseOfFormat(n / 10);
      DigitRoundTrip(n % 10);
      assert s[..|s| - 1] == FormatNat(n / 10) && s[|s| - 1] == DIGITS[n % 10];
    }
  }

  lemma NoSignInNat(n: nat)
    ensures FormatNat(n)[0] != '-' && FormatNat(n)[0] != '+'
  {
    assert DigitValue(FormatNat(n)[0]).Some?;
  }

  lemma ParseOfFormatInt(n: int)
    requires IsInt64(n)
    ensures ParseInt64(FormatInt(n)) == Some(n)
  {
    hide DigitValue, FormatNat, ParseDigits;
    var m := if n < 0 then -n else n;
    ParseOfFormat(m);
    NoSignInNat(m);
    assert n < 0 ==> FormatInt(n)[1..] == FormatNat(m);
  }

  /** Printed integers are told apart. */
  lemma FormatIntIsInjective(a: int, b: int)
    requires FormatInt(a) == FormatInt(b)
    ensures a == b
  {
    ParseOfFormat(if a < 0 then -a else a);
    ParseOfFormat(if b < 0 then -b else b);
    assert a >= 0 ==> DigitValue(FormatInt(a)[0]).Some?;
    assert b >= 0 ==> DigitValue(FormatInt(b)[0]).Some?;
    if a < 0 {
      assert FormatInt(a)[1..] == FormatNat(-a) && FormatInt(b)[1..] == FormatNat(-b);
    }
  }

  lemma NoDotInInt(n: int)
    ensures '.' !in FormatInt(n)
  {
    var s := FormatNat(if n < 0 then -n else n);
    assert forall i :: 0 <= i < |s| ==> DigitValue(s[i]).Some?;
  }

  // ---------------------------------------------------------------- hexadecimal

  function Hex(bytes: seq<byte>): (s: string)
    ensures |s| == 2 * |bytes|
  {
    if bytes == [] then "" else [DIGITS[bytes[0] / 16], DIGITS[bytes[0] % 16]] + Hex(bytes[1..])
  }

  lemma {:induction false} NoDotInHex(bytes: seq<byte>)
    ensures '.' !in Hex(bytes)
  {
    if bytes != [] {
      NoDotInHex(bytes[1..]);
      assert '.' !in DIGITS;
    }
  }

  lemma DigitsDiffer(i: nat, j: nat)
    requires i < 16 && j < 16 && DIGITS[i] == DIGITS[j]
    ensures i == j
  {
  }

  lemma {:induction false} HexIsInjective(a: seq<byte>, b: seq<byte>)
    requires Hex(a) == Hex(b)
    ensures a == b
  {
    if a != [] {
      var s := Hex(a);
      assert |a| == |b|;
      assert s[0] == DIGITS[a[0] / 16] == DIGITS[b[0] / 16];
      assert s[1] == DIGITS[a[0] % 16] == DIGITS[b[0] % 16];
      DigitsDiffer(a[0] / 16, b[0] / 16);
      DigitsDiffer(a[0] % 16, b[0] % 16);
      assert s[2..] == Hex(a[1..]) && s[2..] == Hex(b[1..]);
      HexIsInjective(a[1..], b[1..]);
      assert a == [a[0]] + a[1..] && b == [b[0]] + b[1..];
    }
  }

  // ---------------------------------------------------------------- dots

  /** The parts between dots; a string without dots is one part. */
  function Split(s: string): (parts: seq<string>)
    ensures parts != []
  {
    if s == "" then [""]
    else if s[0] == '.' then [""] + Split(s[1..])
    else
      var rest := Split(s[1..]);
      [[s[0]] + rest[0]] + rest[1..]
  }

  function Join(parts: seq<string>): string {
    if parts == [] then ""
    else if |parts| == 1 then parts[0]
    else parts[0] + "." + Join(parts[1..])
  }

  lemma {:induction false} SplitOfFirst(head: string, rest: string)
    requires '.' !in head
    ensures Split(head + "." + rest) == [head] + Split(rest)
  {
    if head == "" {
      assert head + "." + rest == "." + rest;
      assert ("." + rest)[1..] == rest;
    } else {
      SplitOfFirst(head[1..], rest);
      assert (head + "." + rest)[1..] == head[1..] + "." + rest;
      assert head[0] in head && [head[0]] + head[1..] == head;
    }
  }

  lemma {:induction false} SplitOfPlain(s: string)
    requires '.' !in s
    ensures Split(s) == [s]
  {
    if s != "" {
      SplitOfPlain(s[1..]);
      assert s[0] in s && [s[0]] + s[1..] == s;
    }
  }

  lemma {:induction false} SplitOfJoin(parts: seq<string>)
    requires parts != [] && forall i :: 0 <= i < |parts| ==> '.' !in parts[i]
    ensures Split(Join(parts)) == parts
  {
    if |parts| == 1 {
      SplitOfPlain(parts[0]);
    } else {
      SplitOfJoin(parts[1..]);
      SplitOfFirst(parts[0], Join(parts[1..]));
    }
  }

  lemma {:induction false} JoinOfSplit(s: string)
    ensures Join(Split(s)) == s
  {
    if s != "" {
      JoinOfSplit(s[1..]);
      var rest := Split(s[1..]);
      if s[0] == '.' {
        assert ([""] + rest)[1..] == rest;
      } else {
        var all := [[s[0]] + rest[0]] + rest[1..];
        assert all[1..] == rest[1..];
        assert Join(all) == [s[0]] + Join(rest);
      }
    }
  }
}
