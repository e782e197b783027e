/** Hexadecimal text of stored hashes and salts. */
module Hex {

  import opened Basics

  datatype Result = Bad | Ok(bytes: seq<Byte>)

  const DIGITS := "0123456789abcdef"

  function Digit(v: nat): char
    requires v < 16
  {
    if v < 10 then ('0' as int + v) as char else ('a' as int + v - 10) as char
  }

  lemma DigitTable(v: nat)
    requires v < 16
    ensures DIGITS[v] == Digit(v)
  {
  }

  /** The value of a hex digit of either case, -1 for any other character. */
  function HexVal(c: char): (v: int)
    ensures -1 <= v < 16
    ensures v >= 0 ==> Digit(v) == Lower(c)
    ensures v == -1 <==> !IsHexDigit(c)
  {
    if '0' <= c <= '9' then c as int - '0' as int
    else if 'a' <= c <= 'f' then c as int - 'a' as int + 10
    else if 'A' <= c <= 'F' then c as int - 'A' as int + 10
    else -1
  }

  predicate IsHexDigit(c: char) {
    '0' <= c <= '9' || 'a' <= c <= 'f' || 'A' <= c <= 'F'
  }

  function Lower(c: char): char {
    if 'A' <= c <= 'Z' then (c as int + 32) as char else c
  }

  /** The Base16 encoding of section 8 of RFC 4648, with lower-case digits. */
  function Encode(b: seq<Byte>): string {
    if b == [] then "" else [Digit(b[0] / 16), Digit(b[0] % 16)] + Encode(b[1..])
  }

  /** The value of two digits, -1 if either is none. */
  function PairVal(a: char, b: char): (v: int)
    ensures -1 <= v < 256
  {
    if HexVal(a) < 0 || HexVal(b) < 0 then -1 else HexVal(a) * 16 + HexVal(b)
  }

  function Decode(s: string): Result {
    if s == "" then Ok([])
    else if |s| == 1 then Bad
    else if PairVal(s[0], s[1]) < 0 then Bad
    else Prepend([PairVal(s[0], s[1])], Decode(s[2..]))
  }

  function Prepend(front: seq<Byte>, r: Result): Result {
    match r
    case Bad => Bad
    case Ok(rest) => Ok(front + rest)
  }

  lemma PrependTwice(a: seq<Byte>, b: seq<Byte>, r: Result)
    ensures Prepend(a, Prepend(b, r)) == Prepend(a + b, r)
  {
    if r.Ok? {
      assert a + (b + r.bytes) == (a + b) + r.bytes;
    }
  }

  lemma {:induction false} EncodeAt(b: seq<Byte>, i: nat)
    requires i < |b|
    ensures |Encode(b)| == 2 * |b|
    ensures Encode(b)[2 * i] == Digit(b[i] / 16) && Encode(b)[2 * i + 1] == Digit(b[i] % 16)
  {
    if |b| > 1 {
      EncodeAt(b[1..], if i > 0 then i - 1 else 0);
    }
  }

  /** The text is filled in place, two characters for each byte. */
  method BytesToHex(data: seq<Byte>) returns (result: array<char>)
    ensures fresh(result) && result[..] == Encode(data)
  {
    result := new char[|data| * 2](_ => '\0');
    for i := 0 to |data|
      invariant forall j | 0 <= j < i ::
        result[2 * j] == Digit(data[j] / 16) && result[2 * j + 1] == Digit(data[j] % 16)
    {
      DigitTable(data[i] / 16);
      DigitTable(data[i] % 16);
      result[i * 2] := DIGITS[data[i] / 16];
      result[i * 2 + 1] := DIGITS[data[i] % 16];
    }
    ghost var text := result[..];
    forall k | 0 <= k < |text| ensures |Encode(data)| == |text| && text[k] == Encode(data)[k] {
      EncodeAt(data, k / 2);
      assert k == 2 * (k / 2) || k == 2 * (k / 2) + 1;
    }
    if |data| > 0 {
      EncodeAt(data, 0);
    }
  }

  lemma DecodeStep(s: string)
    requires |s| >= 2
    ensures var v := PairVal(s[0], s[1]); Decode(s) == if v < 0 then Bad else Prepend([v], Decode(s[2..]))
  {
  }

  method HexToBytes(hex: string) returns (r: Result)
    ensures r == Decode(hex)
  {
    if |hex| % 2 != 0 {
      OddIsBad(hex);
      return Bad;
    }
    var n := |hex| / 2;
    var out: seq<Byte> := [];
    ghost var rest := hex;
    for i := 0 to n
      invariant |rest| == 2 * (n - i) && rest == hex[2 * i..]
      invariant Decode(hex) == Prepend(out, Decode(rest))
    {
      var v := PairVal(hex[i * 2], hex[i * 2 + 1]);
      DecodeStep(rest);
      if v < 0 {
        return Bad;
      }
      PrependTwice(out, [v], Decode(rest[2..]));
      out := out + [v];
      rest := rest[2..];
    }
    r := Ok(out);
  }

  lemma {:induction false} OddIsBad(s: string)
    requires |s| % 2 != 0
    ensures Decode(s).Bad?
  {
    if |s| > 1 {
      DecodeStep(s);
      OddIsBad(s[2..]);
      assert Decode(s[2..]).Bad?;
    }
  }

  lemma {:induction false} DecodeEncode(b: seq<Byte>)
    ensures Decode(Encode(b)) == Ok(b)
  {
    if b != [] {
      DecodeEncode(b[1..]);
      DigitRoundTrip(b[0] / 16);
      DigitRoundTrip(b[0] % 16);
      DecodePair(Digit(b[0] / 16), Digit(b[0] % 16), Encode(b[1..]));
      assert (b[0] / 16) * 16 + b[0] % 16 == b[0];
      assert Prepend([b[0]], Ok(b[1..])) == Ok(b);
    }
  }

  lemma DecodePair(a: char, c: char, rest: string)
    requires PairVal(a, c) >= 0
    ensures Decode([a, c] + rest) == Prepend([PairVal(a, c)], Decode(rest))
  {
    var s := [a, c] + rest;
    assert s[2..] == rest && s[0] == a && s[1] == c;
    DecodeStep(s);
  }

  lemma DigitRoundTrip(v: nat)
    requires v < 16
    ensures HexVal(Digit(v)) == v
  {
  }

  function Lowered(s: string): string {
    seq(|s|, i requires 0 <= i < |s| => Lower(s[i]))
  }

  /** Exactly the strings of even length made of hex digits are accepted. */
  lemma {:induction false} AcceptsExactly(s: string)
    ensures Decode(s).Ok? <==> |s| % 2 == 0 && AllDigits(s)
  {
    if |s| >= 2 {
      AcceptsExactly(s[2..]);
      AllDigitsSplit(s);
      assert |s[2..]| % 2 == |s| % 2;
    }
  }

  /** Encoding what was decoded gives the text back in lower case. */
  lemma {:induction false} EncodeDecode(s: string)
    requires Decode(s).Ok?
    ensures Encode(Decode(s).bytes) == Lowered(s)
  {
    if s != "" {
      var v, rest := DecodeCons(s);
      EncodeDecode(s[2..]);
      EncodeCons(v, rest);
      PairBack(s[0], s[1]);
      LoweredCons(s);
    }
  }

  lemma LoweredCons(s: string)
    requires |s| >= 2
    ensures Lowered(s) == [Lower(s[0]), Lower(s[1])] + Lowered(s[2..])
  {
  }

  lemma DecodeCons(s: string) returns (v: Byte, rest: seq<Byte>)
    requires Decode(s).Ok? && s != ""
    ensures |s| >= 2 && v == PairVal(s[0], s[1])
    ensures Decode(s[2..]) == Ok(rest) && Decode(s).bytes == [v] + rest
  {
    DecodeStep(s);
    v, rest := PairVal(s[0], s[1]), Decode(s[2..]).bytes;
  }

  lemma PairBack(a: char, b: char)
    requires PairVal(a, b) >= 0
    ensures var v := PairVal(a, b); v / 16 < 16 && Digit(v / 16) == Lower(a) && Digit(v % 16) == Lower(b)
  {
    var hi, lo := HexVal(a), HexVal(b);
    assert (hi * 16 + lo) / 16 == hi && (hi * 16 + lo) % 16 == lo;
  }

  lemma EncodeCons(x: Byte, b: seq<Byte>)
    ensures Encode([x] + b) == [Digit(x / 16), Digit(x % 16)] + Encode(b)
  {
    assert ([x] + b)[1..] == b;
  }

  lemma AllDigitsSplit(s: string)
    requires |s| >= 2
    ensures AllDigits(s) <==> IsHexDigit(s[0]) && IsHexDigit(s[1]) && AllDigits(s[2..])
  {
    var rest := s[2..];
    assert forall i | 0 <= i < |rest| :: rest[i] == s[i + 2];
    assert forall i | 2 <= i < |s| :: s[i] == rest[i - 2];
  }

  ghost predicate AllDigits(s: string) {
    forall i | 0 <= i < |s| :: IsHexDigit(s[i])
  }
}
