/**
 * MongoDB object identifiers. Every identifier the handlers receive (the caller's
 * user ID from the token, an event ID from the URL) is a hexadecimal string that
 * is converted with ObjectIDFromHex; a string that is not exactly 24 hexadecimal
 * digits is rejected. An identifier is modelled by the 96-bit number those digits
 * spell out.
 */
module ObjectIds {
  import opened Wrappers

  type ObjectId = nat

  /** Number of hexadecimal digits in the textual form of an identifier (12 bytes). */
  const HexLength: nat := 24

  function Pow16(n: nat): (p: nat)
    ensures p >= 1
  {
    if n == 0 then 1 else 16 * Pow16(n - 1)
  }

  /** Every identifier is below 16^24 = 2^96. */
  const IdBound: nat := Pow16(HexLength)

  /** primitive.NilObjectID, the value an identifier field keeps when nothing is decoded into it. */
  const NilId: ObjectId := 0

  predicate IsHexDigit(c: char) {
    ('0' <= c <= '9') || ('a' <= c <= 'f') || ('A' <= c <= 'F')
  }

  predicate AllHex(s: string) {
    forall i :: 0 <= i < |s| ==> IsHexDigit(s[i])
  }

  function DigitValue(c: char): (v: nat)
    requires IsHexDigit(c)
    ensures v < 16
  {
    if '0' <= c <= '9' then c as int - '0' as int
    else if 'a' <= c <= 'f' then c as int - 'a' as int + 10
    else c as int - 'A' as int + 10
  }

  /** The number spelled by a string of hexadecimal digits, most significant first. */
  function HexValue(s: string): (v: nat)
    requires AllHex(s)
    ensures v < Pow16(|s|)
  {
    if s == [] then 0 else HexValue(s[..|s| - 1]) * 16 + DigitValue(s[|s| - 1])
  }

  /** ObjectIDFromHex: exactly 24 hexadecimal digits, of either case. */
  function FromHex(s: string): (r: Option<ObjectId>)
    ensures r.Some? <==> |s| == HexLength && AllHex(s)
    ensures r.Some? ==> r.value < IdBound
  {
    if |s| == HexLength && AllHex(s) then Some(HexValue(s)) else None
  }

  function LowerHexDigit(d: nat): (c: char)
    requires d < 16
    ensures IsHexDigit(c) && DigitValue(c) == d
  {
    if d < 10 then ('0' as int + d) as char else ('a' as int + d - 10) as char
  }

  /** The `width` low-order hexadecimal digits of `n`, lower case, most significant first. */
  function HexDigits(n: nat, width: nat): (s: string)
    ensures |s| == width && AllHex(s)
  {
    if width == 0 then [] else HexDigits(n / 16, width - 1) + [LowerHexDigit(n % 16)]
  }

  /** ObjectID.Hex: the 24-digit lower-case form of an identifier. */
  function Hex(id: ObjectId): (s: string)
    requires id < IdBound
    ensures |s| == HexLength
  {
    HexDigits(id, HexLength)
  }

  lemma {:induction false} HexDigitsValue(n: nat, width: nat)
    requires n < Pow16(width)
    ensures HexValue(HexDigits(n, width)) == n
  {
    if width > 0 {
      var s := HexDigits(n, width);
      var prefix := HexDigits(n / 16, width - 1);
      assert s[..|s| - 1] == prefix;
      HexDigitsValue(n / 16, width - 1);
    }
  }

  /** Printing an identifier and parsing it back gives the identifier. */
  lemma HexRoundTrip(id: ObjectId)
    requires id < IdBound
    ensures FromHex(Hex(id)) == Some(id)
  {
    HexDigitsValue(id, HexLength);
  }

  /** Parsing accepts upper-case digits too: the parsed value printed again is the lower-case form of the input. */
  lemma {:induction false} HexDigitsOfValue(s: string)
    requires AllHex(s)
    ensures HexDigits(HexValue(s), |s|) == LowerHex(s)
  {
    if s != [] {
      var init := s[..|s| - 1];
      HexDigitsOfValue(init);
      var v := HexValue(s);
      assert v / 16 == HexValue(init);
      assert v % 16 == DigitValue(s[|s| - 1]);
    }
  }

  function LowerHex(s: string): (r: string)
    requires AllHex(s)
    ensures |r| == |s|
  {
    if s == [] then [] else LowerHex(s[..|s| - 1]) + [LowerHexDigit(DigitValue(s[|s| - 1]))]
  }

  lemma ParsedPrintsLowerCase(s: string)
    requires FromHex(s).Some?
    ensures Hex(FromHex(s).value) == LowerHex(s)
  {
    HexDigitsOfValue(s);
  }
}
