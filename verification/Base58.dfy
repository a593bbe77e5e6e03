/** Base58 and Base58Check text for byte strings. */
module Base58 {
  import opened Results
  import opened Chunks
  import opened Collections
  import opened Numerals

  datatype Error = BadByte(b: byte) | BadChecksum(expected: nat, actual: nat) | TooShort(length: nat)

  /** The character of a digit: figures, capitals and small letters without 0, I, O and l. */
  function CharOf(d: nat): byte
    requires d < 58
  {
    if d < 9 then d + 49
    else if d < 17 then d + 56
    else if d < 22 then d + 57
    else if d < 33 then d + 58
    else if d < 44 then d + 64
    else d + 65
  }

  /** The digit of a character, or -1 where the table has none. */
  function DigitOf(c: byte): (d: int)
    ensures -1 <= d < 58
  {
    if 49 <= c <= 57 then c - 49
    else if 65 <= c <= 72 then c - 56
    else if 74 <= c <= 78 then c - 57
    else if 80 <= c <= 90 then c - 58
    else if 97 <= c <= 107 then c - 64
    else if 109 <= c <= 122 then c - 65
    else -1
  }

  const ALPHABET := "123456789" + "ABCDEFGH" + "JKLMN" + "PQRSTUVWXYZ" + "abcdefghijk" + "mnopqrstuvwxyz"

  /** Digits stand for the characters of the alphabet, in its order, and nothing else stands for a digit. */
  lemma Alphabet(d: nat)
    requires d < 58
    ensures |ALPHABET| == 58 && CharOf(d) == ALPHABET[d] as int && DigitOf(ALPHABET[d] as int) == d
    ensures forall c: byte :: DigitOf(c) == d ==> c == ALPHABET[d] as int
  {
    hide ALPHABET;
    Spelled();
  }

  lemma Spelled()
    ensures ALPHABET == Letters(49, 9) + Letters(65, 8) + Letters(74, 5) + Letters(80, 11) + Letters(97, 11) +
                        Letters(109, 14)
  {
    assert Letters(49, 9) == "123456789" && Letters(65, 8) == "ABCDEFGH" && Letters(74, 5) == "JKLMN";
    assert Letters(80, 11) == "PQRSTUVWXYZ" && Letters(97, 11) == "abcdefghijk" && Letters(109, 14) == "mnopqrstuvwxyz";
  }

  /** So many characters in the order of their codes. */
  function Letters(first: nat, n: nat): string
    requires first + n < 128
  {
    seq(n, i requires 0 <= i < n => (first + i) as char)
  }

  predicate IsText(text: seq<byte>) {
    forall i :: 0 <= i < |text| ==> DigitOf(text[i]) >= 0
  }

  /** In UTF-8 the byte 0x80 only continues a character, so it follows another byte outside ASCII. */
  predicate ContinuesOnly(text: seq<byte>) {
    forall i :: 0 <= i < |text| && text[i] == 128 ==> i > 0 && text[i - 1] >= 128
  }

  function TextDigits(text: seq<byte>): (s: seq<nat>)
    requires IsText(text)
    ensures |s| == |text| && DigitsBelow(s, 58)
  {
    seq(|text|, i requires 0 <= i < |text| => DigitOf(text[i]))
  }

  function TextOf(digits: seq<nat>): (text: seq<byte>)
    requires DigitsBelow(digits, 58)
    ensures |text| == |digits| && IsText(text)
  {
    seq(|digits|, i requires 0 <= i < |digits| => CharOf(digits[i]))
  }

  lemma TextIsDigits(digits: seq<nat>)
    requires DigitsBelow(digits, 58)
    ensures TextDigits(TextOf(digits)) == digits
  {
  }

  lemma DigitsAreText(text: seq<byte>)
    requires IsText(text)
    ensures TextOf(TextDigits(text)) == text
  {
  }

  /** The text of a byte string: one '1' for each leading zero byte, then the number in base 58. */
  ghost function Encoded(bytes: seq<nat>): (text: seq<byte>)
    requires DigitsBelow(bytes, 256)
    ensures IsText(text)
  {
    OfNumeral(Leading(bytes), Value(bytes, 256), 58);
    TextOf(Numeral(Leading(bytes), Value(bytes, 256), 58))
  }

  /** The byte string of a text. */
  ghost function Decoded(text: seq<byte>): (bytes: seq<nat>)
    requires IsText(text)
    ensures DigitsBelow(bytes, 256)
  {
    var s := TextDigits(text);
    OfNumeral(Leading(s), Value(s, 58), 256);
    Numeral(Leading(s), Value(s, 58), 256)
  }

  lemma DecodeEncoded(bytes: seq<nat>)
    requires DigitsBelow(bytes, 256)
    ensures Decoded(Encoded(bytes)) == bytes
  {
    ConversionRoundTrip(bytes, 256, 58);
    OfNumeral(Leading(bytes), Value(bytes, 256), 58);
    TextIsDigits(Numeral(Leading(bytes), Value(bytes, 256), 58));
  }

  lemma EncodeDecoded(text: seq<byte>)
    requires IsText(text)
    ensures Encoded(Decoded(text)) == text
  {
    var s := TextDigits(text);
    ConversionRoundTrip(s, 58, 256);
    DigitsAreText(text);
  }

  function ScratchLength(n: nat): nat {
    1 + n * 11 / 15
  }

  lemma PowerAdd(b: nat, m: nat, n: nat)
    ensures Power(b, m + n) == Power(b, m) * Power(b, n)
  {
    if m > 0 {
      PowerAdd(b, m - 1, n);
      assert b * (Power(b, m - 1) * Power(b, n)) == (b * Power(b, m - 1)) * Power(b, n);
    }
  }

  /** Every number of `n` digits in base 58 is written in `k` bytes. */
  ghost predicate Fits(n: nat, k: nat) {
    Power(58, n) < Power(256, k)
  }

  lemma FitsTogether(m: nat, j: nat, n: nat, k: nat)
    requires Fits(m, j) && Fits(n, k)
    ensures Fits(m + n, j + k)
  {
    hide Power;
    PowerAdd(58, m, n);
    PowerAdd(256, j, k);
    PowerPositive(58, n);
    Grows(Power(58, m), Power(256, j), Power(58, n), Power(256, k));
  }

  lemma Grows(a: nat, b: nat, c: nat, d: nat)
    requires a < b && 0 < c < d
    ensures a * c < b * d
  {
    assert a * c < b * c;
    assert b * c <= b * d;
  }

  lemma FirstFit()
    ensures Fits(0, 1) && Fits(1, 1) && Fits(2, 2) && Fits(3, 3) && Fits(4, 3) && Fits(5, 4)
  {
    assert Power(58, 2) == 3364 && Power(58, 3) == 195112;
    assert Power(58, 4) == 11316496 && Power(58, 5) == 656356768;
    assert Power(256, 2) == 0x1_0000 && Power(256, 3) == 0x100_0000 && Power(256, 4) == 0x1_0000_0000;
  }

  lemma {:induction false} FewFit(n: nat)
    requires n < 15
    ensures Fits(n, ScratchLength(n))
  {
    hide Power, Fits;
    FirstFit();
    if n == 6 {
      FitsTogether(5, 4, 1, 1);
    } else if n == 7 {
      FitsTogether(5, 4, 2, 2);
    } else if 8 <= n {
      if n in {8, 11, 12} {
        FewFit(n - 4);
        FitsTogether(4, 3, n - 4, ScratchLength(n - 4));
      } else {
        FewFit(n - 5);
        FitsTogether(5, 4, n - 5, ScratchLength(n - 5));
      }
    }
  }

  lemma FifteenInEleven()
    ensures Fits(15, 11)
  {
    hide Power;
    FirstFit();
    assert Power(58, 5) == 656356768 && Power(256, 4) == 0x1_0000_0000 && Power(256, 3) == 0x100_0000 by { Small(); }
    PowerAdd(58, 5, 5);
    PowerAdd(58, 5, 10);
    PowerAdd(256, 4, 4);
    PowerAdd(256, 3, 8);
    assert 656356768 * (656356768 * 656356768) < 0x100_0000 * (0x1_0000_0000 * 0x1_0000_0000);
  }

  lemma Small()
    ensures Power(58, 5) == 656356768 && Power(256, 4) == 0x1_0000_0000 && Power(256, 3) == 0x100_0000
  {
  }

  /** The scratch bytes hold every number the text can spell. */
  lemma {:induction false} ScratchSuffices(n: nat)
    ensures Fits(n, ScratchLength(n))
  {
    hide Power, Fits;
    if n < 15 {
      FewFit(n);
    } else {
      ScratchSuffices(n - 15);
      FifteenInEleven();
      FitsTogether(15, 11, n - 15, ScratchLength(n - 15));
    }
  }

  lemma CarryStep(b: nat, m: nat, p: nat, v: nat, w: nat, digit: nat, carry: nat, o: nat, x: nat, c: nat)
    requires v + carry * p == m * w + digit
    requires x + c * b == carry + o * m
    ensures (x * p + v) + c * (b * p) == m * (o * p + w) + digit
  {
    assert (x + c * b) * p == x * p + c * (b * p);
    assert (carry + o * m) * p == carry * p + m * (o * p);
    assert m * (o * p + w) == m * (o * p) + m * w;
  }

  /** Multiplies the number in the scratch bytes by 58 and adds a digit, last byte first. */
  method ScratchMultiplyAdd(scratch: array<nat>, digit: nat) returns (carry: nat)
    requires DigitsBelow(scratch[..], 256) && digit < 58
    modifies scratch
    ensures DigitsBelow(scratch[..], 256)
    ensures Value(scratch[..], 256) + carry * Power(256, scratch.Length) == 58 * Value(old(scratch[..]), 256) + digit
  {
    hide Power, Value;
    carry := digit;
    ghost var was := scratch[..];
    var j := scratch.Length;
    assert scratch[j..] == [] && was[j..] == [];
    Empty(256);
    while j > 0
      invariant 0 <= j <= scratch.Length && carry < 58
      invariant forall i :: 0 <= i < j ==> scratch[i] == was[i]
      invariant forall i :: 0 <= i < scratch.Length ==> scratch[i] < 256
      invariant Value(scratch[j..], 256) + carry * Power(256, scratch.Length - j) == 58 * Value(was[j..], 256) + digit
    {
      ghost var rest, k := scratch[j..], scratch.Length - j;
      ghost var v, w, before := Value(rest, 256), Value(was[j..], 256), carry;
      j := j - 1;
      carry := carry + scratch[j] * 58;
      ghost var x, c := carry % 256, carry / 256;
      scratch[j] := carry % 256;
      carry := carry / 256;
      CarryStep(256, 58, Power(256, k), v, w, digit, before, was[j], x, c);
      assert scratch[j..] == [x] + rest;
      assert was[j..] == [was[j]] + was[j + 1..];
      ValueCons(x, rest, 256);
      ValueCons(was[j], was[j + 1..], 256);
      NextPower(256, k);
    }
    assert scratch[0..] == scratch[..] && was[0..] == was;
  }

  lemma Empty(b: nat)
    ensures Value([], b) == 0 && Power(b, 0) == 1
  {
  }

  lemma NextPower(b: nat, k: nat)
    ensures Power(b, k + 1) == b * Power(b, k)
  {
  }

  lemma NoCarry(value: nat, carry: nat, power: nat, total: nat)
    requires value + carry * power == total < power
    ensures carry == 0
  {
    if carry > 0 { Product(1, carry, power); }
  }

  lemma {:induction false} PowerGrows(b: nat, m: nat, n: nat)
    requires m <= n && b > 0
    ensures Power(b, m) <= Power(b, n)
  {
    if m < n {
      PowerGrows(b, m, n - 1);
      Product(1, b, Power(b, n - 1));
    }
  }

  /** What has been read, and one digit more, still fits in the scratch bytes. */
  lemma StepFits(text: seq<byte>, i: nat, value: nat, carry: nat)
    requires i < |text| && IsText(text[..i]) && DigitOf(text[i]) >= 0
    requires value + carry * Power(256, ScratchLength(|text|)) ==
             58 * Value(TextDigits(text[..i]), 58) + DigitOf(text[i])
    ensures IsText(text[..i + 1]) && carry == 0 && value == Value(TextDigits(text[..i + 1]), 58)
  {
    hide Power, Value, DigitOf;
    assert text[..i + 1] == text[..i] + [text[i]];
    var s := TextDigits(text[..i + 1]);
    assert s == TextDigits(text[..i]) + [DigitOf(text[i])];
    ValueSnoc(TextDigits(text[..i]), DigitOf(text[i]), 58);
    ValueBelow(s, 58);
    PowerGrows(58, i + 1, |text|);
    ScratchSuffices(|text|);
    NoCarry(value, carry, Power(256, ScratchLength(|text|)), Value(s, 58));
  }

  function LeadingOnes(text: seq<byte>): nat {
    if text == [] || text[0] != CharOf(0) then 0 else 1 + LeadingOnes(text[1..])
  }

  lemma {:induction false} OnesAreZeros(text: seq<byte>)
    requires IsText(text)
    ensures LeadingOnes(text) == Leading(TextDigits(text))
  {
    if text != [] {
      OnesAreZeros(text[1..]);
      assert TextDigits(text)[1..] == TextDigits(text[1..]);
    }
  }

  /** Reads base58 text; the first character outside the alphabet is reported. */
  method From(text: seq<byte>) returns (r: Result<seq<nat>, Error>)
    requires ContinuesOnly(text)
    ensures IsText(text) ==> r == Ok(Decoded(text))
    ensures !IsText(text) ==>
              exists i :: 0 <= i < |text| && r == Err(BadByte(text[i])) && DigitOf(text[i]) < 0 && IsText(text[..i])
  {
    hide Power, Value, DigitOf;
    var scratch := new nat[ScratchLength(|text|)](_ => 0);
    assert scratch[..] == Zeros(scratch.Length) + [];
    ZerosAddNothing(scratch.Length, [], 256);
    Empty(256);
    Empty(58);
    for i := 0 to |text|
      invariant IsText(text[..i]) && DigitsBelow(scratch[..], 256)
      invariant Value(scratch[..], 256) == Value(TextDigits(text[..i]), 58)
    {
      var c := text[i];
      if c > 128 {
        OutsideTable(c);
        return Err(BadByte(c));
      }
      if i > 0 { OnlyAscii(text, i); }
      assert c < 128;
      var digit := DigitOf(c);
      if digit < 0 {
        return Err(BadByte(c));
      }
      var carry := ScratchMultiplyAdd(scratch, digit);
      StepFits(text, i, Value(scratch[..], 256), carry);
      assert carry == 0;
    }
    assert text[..|text|] == text;
    OnesAreZeros(text);
    NumeralOf(scratch[..], 256);
    LeadingSplits(scratch[..]);
    r := Ok(Zeros(LeadingOnes(text)) + scratch[Leading(scratch[..])..]);
  }

  lemma OutsideTable(c: byte)
    requires c >= 128
    ensures DigitOf(c) < 0
  {
  }

  lemma OnlyAscii(text: seq<byte>, i: nat)
    requires 0 < i < |text| && IsText(text[..i])
    ensures text[i - 1] < 128
  {
    assert text[..i][i - 1] == text[i - 1];
  }

  lemma ReverseMore(s: seq<nat>, x: nat)
    ensures Reverse(s + [x]) == [x] + Reverse(s)
  {
  }

  /** Multiplies the number in the digits, least first, by 256 and adds a byte. */
  method MultiplyAdd(digits: seq<nat>, byte: nat) returns (ret: seq<nat>, carry: nat)
    requires DigitsBelow(digits, 58) && byte < 256
    ensures |ret| == |digits| && DigitsBelow(ret, 58) && carry < 256
    ensures Value(Reverse(ret), 58) + carry * Power(58, |ret|) == 256 * Value(Reverse(digits), 58) + byte
    ensures digits == [] ==> carry == byte
    ensures digits != [] && digits[|digits| - 1] != 0 ==> carry > 0
  {
    hide Power, Value;
    ret, carry := digits, byte;
    assert Reverse(ret[..0]) == [];
    Empty(58);
    for j := 0 to |digits|
      invariant |ret| == |digits| && DigitsBelow(ret, 58) && carry < 256
      invariant forall i :: j <= i < |ret| ==> ret[i] == digits[i]
      invariant Value(Reverse(ret[..j]), 58) + carry * Power(58, j) == 256 * Value(Reverse(digits[..j]), 58) + byte
      invariant j == 0 ==> carry == byte
      invariant j > 0 && digits[j - 1] != 0 ==> carry > 0
    {
      ghost var done, before := ret[..j], carry;
      var next := ret[j] * 256 + carry;
      ret := ret[j := next % 58];
      carry := next / 58;
      CarryStep(58, 256, Power(58, j), Value(Reverse(done), 58), Value(Reverse(digits[..j]), 58), byte, before,
        digits[j], next % 58, carry);
      assert ret[..j + 1] == done + [next % 58];
      assert digits[..j + 1] == digits[..j] + [digits[j]];
      ReverseMore(done, next % 58);
      ReverseMore(digits[..j], digits[j]);
      ValueCons(next % 58, Reverse(done), 58);
      ValueCons(digits[j], Reverse(digits[..j]), 58);
      NextPower(58, j);
    }
    assert ret[..|digits|] == ret && digits[..|digits|] == digits;
  }

  /** Appends the digits of a carry. */
  method PushCarry(digits: seq<nat>, carry: nat) returns (ret: seq<nat>)
    requires DigitsBelow(digits, 58)
    ensures DigitsBelow(ret, 58) && (carry == 0 ==> ret == digits)
    ensures carry > 0 ==> ret != [] && ret[|ret| - 1] != 0
    ensures Value(Reverse(ret), 58) == Value(Reverse(digits), 58) + carry * Power(58, |digits|)
  {
    hide Power, Value;
    ret := digits;
    var left: nat := carry;
    while left > 0
      invariant DigitsBelow(ret, 58) && (carry == 0 ==> ret == digits)
      invariant left == 0 && carry > 0 ==> ret != [] && ret[|ret| - 1] != 0
      invariant Value(Reverse(ret), 58) + left * Power(58, |ret|) ==
                Value(Reverse(digits), 58) + carry * Power(58, |digits|)
    {
      ReverseMore(ret, left % 58);
      ValueCons(left % 58, Reverse(ret), 58);
      NextPower(58, |ret|);
      SplitDigit(left, Power(58, |ret|));
      ret := ret + [left % 58];
      left := left / 58;
    }
  }

  lemma SplitDigit(left: nat, p: nat)
    ensures left * p == (left % 58) * p + (left / 58) * (58 * p)
  {
    assert left == left % 58 + (left / 58) * 58;
    assert (left % 58 + (left / 58) * 58) * p == (left % 58) * p + (left / 58) * (58 * p);
  }

  lemma {:induction false} LeadingMore(s: seq<nat>, x: nat)
    ensures Leading(s + [x]) == if Leading(s) == |s| && x == 0 then |s| + 1 else Leading(s)
    ensures Leading(s) <= |s|
  {
    if s != [] {
      LeadingMore(s[1..], x);
      assert (s + [x])[1..] == s[1..] + [x];
    }
  }

  /** Writes bytes as base58 text. */
  method EncodeIterUtf8(data: seq<nat>) returns (text: seq<byte>)
    requires DigitsBelow(data, 256)
    ensures text == Encoded(data)
  {
    hide Power, Value;
    var ret: seq<nat> := [];
    var leadingZeroCount, leadingZeroes := 0, true;
    assert Reverse(ret) == [] && data[..0] == [];
    Empty(58);
    Empty(256);
    for i := 0 to |data|
      invariant DigitsBelow(ret, 58) && (ret == [] || ret[|ret| - 1] != 0)
      invariant Value(Reverse(ret), 58) == Value(data[..i], 256)
      invariant leadingZeroCount == Leading(data[..i]) && (leadingZeroes <==> leadingZeroCount == i)
    {
      var carry := data[i];
      LeadingMore(data[..i], carry);
      ValueSnoc(data[..i], carry, 256);
      assert data[..i + 1] == data[..i] + [carry];
      if leadingZeroes && carry == 0 {
        leadingZeroCount := leadingZeroCount + 1;
      } else {
        leadingZeroes := false;
      }
      ret, carry := MultiplyAdd(ret, carry);
      ret := PushCarry(ret, carry);
    }
    assert data[..|data|] == data;
    CanonicalDigits(Reverse(ret), 58);
    var digits := ret + Zeros(leadingZeroCount);
    assert Reverse(digits) == Zeros(leadingZeroCount) + Reverse(ret);
    text := TextOf(Reverse(digits));
  }
}
