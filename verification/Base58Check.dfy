/** Base58 text with a four-byte checksum, for any hash of 32 bytes. */
module Base58Check {
  import opened Results
  import opened Chunks
  import opened Numerals
  import opened Base58

  type Digest = d: seq<nat> | |d| == 32 && DigitsBelow(d, 256) witness seq(32, _ => 0)

  const WORD: nat := 0x1_0000_0000

  function Le32(s: seq<nat>): nat
    requires |s| == 4
  {
    s[0] + 0x100 * s[1] + 0x1_0000 * s[2] + 0x100_0000 * s[3]
  }

  function Le64(s: seq<nat>): nat
    requires |s| == 8
  {
    Le32(s[..4]) + WORD * Le32(s[4..])
  }

  /** The least significant byte comes first. */
  lemma Le32Means(s: seq<nat>)
    requires |s| == 4
    ensures Le32(s) == Value([s[3], s[2], s[1], s[0]], 256)
  {
    var one, two, three, four := [s[3]], [s[3], s[2]], [s[3], s[2], s[1]], [s[3], s[2], s[1], s[0]];
    assert one[..0] == [] && two[..1] == one && three[..2] == two && four[..3] == three;
    assert Value(one, 256) == s[3];
    assert Value(two, 256) == 256 * s[3] + s[2];
    assert Value(three, 256) == 256 * (256 * s[3] + s[2]) + s[1];
    assert Value(four, 256) == 256 * (256 * (256 * s[3] + s[2]) + s[1]) + s[0];
  }

  lemma Le32Below(s: seq<nat>)
    requires |s| == 4 && DigitsBelow(s, 256)
    ensures Le32(s) < WORD
  {
  }

  /** Truncating eight bytes to 32 bits leaves the first four. */
  lemma LowHalf(s: seq<nat>)
    requires |s| == 8 && DigitsBelow(s, 256)
    ensures Le64(s) % WORD == Le32(s[..4])
  {
    hide Le32;
    Le32Below(s[..4]);
    Modulo(Le32(s[..4]), Le32(s[4..]));
  }

  lemma Modulo(low: nat, high: nat)
    requires low < WORD
    ensures (low + WORD * high) % WORD == low
  {
  }

  lemma Le32Injective(s: seq<nat>, t: seq<nat>)
    requires |s| == |t| == 4 && DigitsBelow(s, 256) && DigitsBelow(t, 256)
    ensures Le32(s) == Le32(t) <==> s == t
  {
    if Le32(s) == Le32(t) {
      assert s[0] == t[0];
      assert s[1] == t[1];
      assert s[2] == t[2];
      assert s == t;
    }
  }

  ghost function CheckEncoded(hash: seq<nat> -> Digest, data: seq<nat>): seq<byte>
    requires DigitsBelow(data, 256)
  {
    Encoded(data + hash(data)[..4])
  }

  /** The payload of a text whose last four bytes are the checksum of what precedes them. */
  ghost function CheckDecoded(hash: seq<nat> -> Digest, text: seq<byte>): Result<seq<nat>, Error>
    requires IsText(text)
  {
    var bytes := Decoded(text);
    if |bytes| < 4 then Err(TooShort(|bytes|))
    else
      var body, sum := bytes[..|bytes| - 4], bytes[|bytes| - 4..];
      if sum == hash(body)[..4] then Ok(body) else Err(BadChecksum(Le32(hash(body)[..4]), Le32(sum)))
  }

  /** Reading undoes writing. */
  lemma CheckRoundTrip(hash: seq<nat> -> Digest, data: seq<nat>)
    requires DigitsBelow(data, 256)
    ensures IsText(CheckEncoded(hash, data)) && CheckDecoded(hash, CheckEncoded(hash, data)) == Ok(data)
  {
    var bytes := data + hash(data)[..4];
    DecodeEncoded(bytes);
    assert bytes[..|bytes| - 4] == data && bytes[|bytes| - 4..] == hash(data)[..4];
  }

  /** A text is accepted only if it is the one written for its payload. */
  lemma AcceptedIsWritten(hash: seq<nat> -> Digest, text: seq<byte>)
    requires IsText(text) && CheckDecoded(hash, text).Ok?
    ensures var data := CheckDecoded(hash, text).value;
            DigitsBelow(data, 256) && CheckEncoded(hash, data) == text
  {
    var bytes := Decoded(text);
    assert bytes == bytes[..|bytes| - 4] + bytes[|bytes| - 4..];
    EncodeDecoded(text);
  }

  method FromCheck(hash: seq<nat> -> Digest, text: seq<byte>) returns (r: Result<seq<nat>, Error>)
    requires ContinuesOnly(text)
    ensures IsText(text) ==> r == CheckDecoded(hash, text)
    ensures !IsText(text) ==>
              exists i :: 0 <= i < |text| && r == Err(BadByte(text[i])) && DigitOf(text[i]) < 0 && IsText(text[..i])
  {
    hide Le32, DigitOf, Decoded;
    r := From(text);
    match r {
      case Err(_) =>
      case Ok(ret) =>
        if |ret| < 4 {
          return Err(TooShort(|ret|));
        }
        var start := |ret| - 4;
        var digest: Digest := hash(ret[..start]);
        var expected := Le64(digest[..8]) % WORD;
        var actual := Le32(ret[start..]);
        LowHalf(digest[..8]);
        assert digest[..8][..4] == digest[..4];
        Le32Injective(digest[..4], ret[start..]);
        if expected != actual {
          return Err(BadChecksum(expected, actual));
        }
        r := Ok(ret[..start]);
    }
  }

  method CheckEncodeSlice(hash: seq<nat> -> Digest, data: seq<nat>) returns (text: seq<byte>)
    requires DigitsBelow(data, 256)
    ensures text == CheckEncoded(hash, data)
  {
    var checksum: Digest := hash(data);
    text := EncodeIterUtf8(data + checksum[..4]);
  }
}
