/** Byte sequences: the comparison that reads every byte, and the hexadecimal form of a digest. */
module ByteStrings {
  import opened Basics
  import opened JsStrings

  type Byte = b: nat | b < 256

  // ---------- 32-bit patterns ----------

  const WORD := 0x1_0000_0000

  /** `^` and `|` on bit patterns. */
  function Xor(a: nat, b: nat): nat
    decreases a + b
  {
    if a == 0 && b == 0 then 0 else (if a % 2 != b % 2 then 1 else 0) + 2 * Xor(a / 2, b / 2)
  }

  function Or(a: nat, b: nat): nat
    decreases a + b
  {
    if a == 0 && b == 0 then 0 else (if a % 2 == 1 || b % 2 == 1 then 1 else 0) + 2 * Or(a / 2, b / 2)
  }

  /** The k-th binary digit. */
  function Bit(a: nat, k: nat): bool {
    if k == 0 then a % 2 == 1 else Bit(a / 2, k - 1)
  }

  lemma HalvesAndLast(a: nat, b: nat)
    ensures Xor(a, b) / 2 == Xor(a / 2, b / 2) && (Xor(a, b) % 2 == 1 <==> a % 2 != b % 2)
    ensures Or(a, b) / 2 == Or(a / 2, b / 2) && (Or(a, b) % 2 == 1 <==> a % 2 == 1 || b % 2 == 1)
  {
  }

  lemma {:induction false} BitByBit(a: nat, b: nat, k: nat)
    ensures Bit(Xor(a, b), k) == (Bit(a, k) != Bit(b, k)) && Bit(Or(a, b), k) == (Bit(a, k) || Bit(b, k))
  {
    hide Xor, Or;
    HalvesAndLast(a, b);
    if k > 0 { BitByBit(a / 2, b / 2, k - 1); }
  }

  lemma {:induction false} XorIsZero(a: nat, b: nat)
    ensures Xor(a, b) == 0 <==> a == b
    decreases a + b
  {
    if a != 0 || b != 0 { XorIsZero(a / 2, b / 2); }
  }

  lemma {:induction false} OrIsZero(a: nat, b: nat)
    ensures Or(a, b) == 0 <==> a == 0 && b == 0
    decreases a + b
  {
    if a != 0 || b != 0 { OrIsZero(a / 2, b / 2); }
  }

  // ---------- comparison ----------

  /** `bytes[index] ?? 0`. */
  function At(bytes: seq<Byte>, index: nat): Byte {
    if index < |bytes| then bytes[index] else 0
  }

  /** Lengths that agree as 32-bit words, and bytes that agree once the shorter side is padded with zeros. */
  predicate PaddedEqual(left: seq<Byte>, right: seq<Byte>) {
    && |left| % WORD == |right| % WORD
    && forall i | 0 <= i < Max(|left|, |right|) :: At(left, i) == At(right, i)
  }

  /** `constantTimeEqual`: one pass over the longer side, whatever the bytes are. */
  method ConstantTimeEqual(left: seq<Byte>, right: seq<Byte>) returns (equal: bool)
    ensures equal <==> PaddedEqual(left, right)
    ensures |left| < WORD && |right| < WORD ==> (equal <==> left == right)
  {
    var length := Max(|left|, |right|);
    var difference := Xor(|left| % WORD, |right| % WORD);
    XorIsZero(|left| % WORD, |right| % WORD);
    for index := 0 to length
      invariant difference == 0 <==>
        |left| % WORD == |right| % WORD && forall i | 0 <= i < index :: At(left, i) == At(right, i)
    {
      XorIsZero(At(left, index), At(right, index));
      OrIsZero(difference, Xor(At(left, index), At(right, index)));
      difference := Or(difference, Xor(At(left, index), At(right, index)));
    }
    PaddedEqualIsEquality(left, right);
    equal := difference == 0;
  }

  /** The comparison is equality exactly as long as the lengths do not differ by a multiple of 2^32. */
  lemma PaddedEqualIsEquality(left: seq<Byte>, right: seq<Byte>)
    ensures left == right ==> PaddedEqual(left, right)
    ensures PaddedEqual(left, right) && (|left| == |right| || (|left| < WORD && |right| < WORD)) ==> left == right
  {
    if PaddedEqual(left, right) && |left| == |right| {
      assert forall i | 0 <= i < |left| :: left[i] == At(left, i) == At(right, i) == right[i];
    }
  }

  /** Beyond that it is not: zeros that fill one word of length are taken for nothing. */
  lemma LongZerosPassForNothing()
    ensures exists zeros: seq<Byte> :: PaddedEqual([], zeros) && zeros != []
  {
    var zeros: seq<Byte> := seq(WORD, _ => 0);
    assert PaddedEqual([], zeros);
  }

  // ---------- hexadecimal ----------

  function HexDigit(d: nat): CodeUnit
    requires d < 16
  {
    if d < 10 then 48 + d else 87 + d
  }

  /** The value of a digit of either case, as `parseInt` reads it. */
  function HexValue(c: CodeUnit): (d: int)
    ensures -1 <= d < 16
    ensures d >= 0 ==> HexDigit(d) == LowerUnit(c)
  {
    if 48 <= c <= 57 then c - 48
    else if 97 <= c <= 102 then c - 87
    else if 65 <= c <= 70 then c - 55
    else -1
  }

  predicate IsHex(s: JsString) {
    forall i | 0 <= i < |s| :: HexValue(s[i]) >= 0
  }

  function HexOf(b: Byte): (r: JsString)
    ensures |r| == 2 && IsHex(r)
  {
    [HexDigit(b / 16), HexDigit(b % 16)]
  }

  function ByteOf(high: CodeUnit, low: CodeUnit): Byte
    requires HexValue(high) >= 0 && HexValue(low) >= 0
  {
    HexValue(high) * 16 + HexValue(low)
  }

  lemma ByteAndDigits(b: Byte, high: CodeUnit, low: CodeUnit)
    ensures HexValue(HexOf(b)[0]) >= 0 && HexValue(HexOf(b)[1]) >= 0 && ByteOf(HexOf(b)[0], HexOf(b)[1]) == b
    ensures HexValue(high) >= 0 && HexValue(low) >= 0 ==> HexOf(ByteOf(high, low)) == [LowerUnit(high), LowerUnit(low)]
  {
    assert HexValue(HexDigit(b / 16)) == b / 16 && HexValue(HexDigit(b % 16)) == b % 16;
    if HexValue(high) >= 0 && HexValue(low) >= 0 {
      assert ByteOf(high, low) / 16 == HexValue(high) && ByteOf(high, low) % 16 == HexValue(low);
    }
  }

  /** `bytesToHex`. */
  function BytesToHex(bytes: seq<Byte>): (r: JsString)
    ensures |r| == 2 * |bytes|
  {
    if bytes == [] then [] else BytesToHex(bytes[..|bytes| - 1]) + HexOf(bytes[|bytes| - 1])
  }

  /** The bytes an even number of digits stands for. */
  function FromHex(s: JsString): (bytes: seq<Byte>)
    requires |s| % 2 == 0 && IsHex(s)
    ensures |bytes| == |s| / 2
  {
    if s == [] then [] else FromHex(s[..|s| - 2]) + [ByteOf(s[|s| - 2], s[|s| - 1])]
  }

  /** `hexToBytes`; `null` for anything but a positive even number of digits. */
  method HexToBytes(value: JsString) returns (bytes: array?<Byte>)
    ensures bytes == null <==> value == [] || |value| % 2 != 0 || !IsHex(value)
    ensures bytes != null ==> fresh(bytes) && bytes[..] == FromHex(value)
  {
    if value == [] || !IsHex(value) || |value| % 2 != 0 { return null; }
    var buffer := new Byte[|value| / 2];
    for index := 0 to buffer.Length
      invariant IsHex(value[..2 * index]) && buffer[..index] == FromHex(value[..2 * index])
    {
      ghost var front := value[..2 * index + 2];
      assert front[..2 * index] == value[..2 * index];
      buffer[index] := HexValue(value[2 * index]) * 16 + HexValue(value[2 * index + 1]);
    }
    assert buffer[..] == buffer[..buffer.Length] && value[..2 * buffer.Length] == value;
    bytes := buffer;
  }

  /** Reading back what was written gives the bytes. */
  lemma {:induction false} ReadWhatWasWritten(bytes: seq<Byte>)
    ensures IsHex(BytesToHex(bytes)) && FromHex(BytesToHex(bytes)) == bytes
  {
    if bytes != [] {
      var n := |bytes| - 1;
      var hex, rest := BytesToHex(bytes), BytesToHex(bytes[..n]);
      ReadWhatWasWritten(bytes[..n]);
      ByteAndDigits(bytes[n], 0, 0);
      assert hex[..|hex| - 2] == rest;
      assert bytes == bytes[..n] + [bytes[n]];
    }
  }

  /** Decoding a text that ends in one more pair of digits. */
  lemma ReadOnePair(rest: JsString, pair: JsString)
    requires |rest| % 2 == 0 && IsHex(rest) && |pair| == 2 && IsHex(pair)
    ensures IsHex(rest + pair) && FromHex(rest + pair) == FromHex(rest) + [ByteOf(pair[0], pair[1])]
  {
    var s := rest + pair;
    assert forall i | 0 <= i < |s| :: s[i] == if i < |rest| then rest[i] else pair[i - |rest|];
    assert s[..|s| - 2] == rest;
  }

  /** Encoding one more byte. */
  lemma WriteOneByte(bytes: seq<Byte>, b: Byte)
    ensures BytesToHex(bytes + [b]) == BytesToHex(bytes) + HexOf(b)
  {
    assert (bytes + [b])[..|bytes|] == bytes;
  }

  lemma LowerPair(pair: JsString)
    requires |pair| == 2
    ensures Lower(pair) == [LowerUnit(pair[0]), LowerUnit(pair[1])]
  {
  }

  /** Writing back what was read gives the text in lower case. */
  lemma {:induction false} WriteWhatWasRead(s: JsString)
    requires |s| % 2 == 0 && IsHex(s)
    ensures BytesToHex(FromHex(s)) == Lower(s)
  {
    if s != [] {
      var rest, pair := s[..|s| - 2], s[|s| - 2..];
      assert s == rest + pair && IsHex(rest) && IsHex(pair);
      hide Lower;
      WriteWhatWasRead(rest);
      ReadOnePair(rest, pair);
      WriteOneByte(FromHex(rest), ByteOf(pair[0], pair[1]));
      ByteAndDigits(0, pair[0], pair[1]);
      LowerPair(pair);
      LowerConcat(rest, pair);
    }
  }

  /** Comparing decoded bytes accepts the same texts as comparing lower-cased digits. */
  lemma HexComparisonIgnoresCase(expected: JsString, supplied: JsString)
    requires |expected| % 2 == 0 && IsHex(expected) && |supplied| % 2 == 0 && IsHex(supplied)
    ensures FromHex(expected) == FromHex(supplied) <==> Lower(expected) == Lower(supplied)
  {
    WriteWhatWasRead(expected);
    WriteWhatWasRead(supplied);
    ReadWhatWasWritten(FromHex(expected));
    ReadWhatWasWritten(FromHex(supplied));
  }
}
