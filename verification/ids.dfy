/**
 * Identifiers (pkg/types): an opaque string, generated either as the
 * lowercase Base 16 encoding (section 8 of RFC 4648) of 16 random bytes or,
 * when the random source fails, as "id_" followed by a process-wide counter.
 * The random bytes and the counter are explicit inputs and outputs here.
 */
module Ids {
  import opened Wrappers
  import opened Errors

  newtype byte = x: int | 0 <= x < 256

  datatype ID = ID(raw: string)

  /** The outcome of reading 16 bytes from the random source. */
  datatype Entropy = Random(bytes: seq<byte>) | ReadFailed

  /** The fallback counter, the only state the generator keeps. */
  datatype IdGen = IdGen(counter: nat)

  /** The value every random read delivers when it succeeds. */
  predicate WellFormedEntropy(src: Entropy)
  {
    src.Random? ==> |src.bytes| == 16
  }

  /** String gives back the very string the identifier was made from. */
  function String(id: ID): (s: string)
    ensures ID(s) == id
  {
    id.raw
  }

  function IsEmpty(id: ID): (b: bool)
    ensures b <==> |String(id)| == 0
  {
    id.raw == ""
  }

  /** Go's `len` on a string counts UTF-8 bytes, not characters. */
  function Utf8Width(c: char): nat
  {
    if c as int < 0x80 then 1
    else if c as int < 0x800 then 2
    else if c as int < 0x10000 then 3
    else 4
  }

  function ByteLength(s: string): (n: nat)
    ensures |s| <= n <= 4 * |s|
    ensures n == 0 <==> |s| == 0
  {
    if |s| == 0 then 0 else ByteLength(s[..|s| - 1]) + Utf8Width(s[|s| - 1])
  }

  predicate IsAscii(s: string)
  {
    forall i :: 0 <= i < |s| ==> s[i] as int < 0x80
  }

  lemma {:induction false} AsciiByteLength(s: string)
    requires IsAscii(s)
    ensures ByteLength(s) == |s|
  {
    if |s| > 0 {
      AsciiByteLength(s[..|s| - 1]);
    }
  }

  const EmptyIdText := "ID cannot be empty"
  const ShortIdText := "ID must be at least 8 characters long"

  /** Validate: the empty identifier and identifiers shorter than 8 bytes are refused. */
  function Validate(id: ID): (r: Option<Error>)
    ensures r.None? <==> ByteLength(id.raw) >= 8
    ensures IsEmpty(id) ==> r == Some(Formatted(EmptyIdText))
    ensures !IsEmpty(id) && ByteLength(id.raw) < 8 ==> r == Some(Formatted(ShortIdText))
    ensures |id.raw| >= 8 ==> r.None?
  {
    if IsEmpty(id) then Some(Formatted(EmptyIdText))
    else if ByteLength(id.raw) < 8 then Some(Formatted(ShortIdText))
    else None
  }

  /** For the ASCII identifiers the generator produces, Validate is a plain length check. */
  lemma ValidateAscii(id: ID)
    requires IsAscii(id.raw)
    ensures Validate(id).None? <==> |id.raw| >= 8
  {
    AsciiByteLength(id.raw);
  }

  // ----- Base 16 encoding, lowercase alphabet -----

  /** The digit for a value below 16: "0".."9" then "a".."f". */
  function HexDigit(v: nat): (c: char)
    requires v < 16
    ensures '0' <= c <= '9' || 'a' <= c <= 'f'
  {
    if v < 10 then (48 + v) as char else (97 + v - 10) as char
  }

  predicate IsHexDigit(c: char)
  {
    '0' <= c <= '9' || 'a' <= c <= 'f'
  }

  function HexValue(c: char): (v: nat)
    requires IsHexDigit(c)
    ensures v < 16 && HexDigit(v) == c
  {
    if c <= '9' then c as int - 48 else c as int - 97 + 10
  }

  lemma HexValueOfDigit(v: nat)
    requires v < 16
    ensures HexValue(HexDigit(v)) == v
  {
  }

  /** hex.EncodeToString: two digits per byte, high nibble first. */
  function HexEncode(b: seq<byte>): (s: string)
    ensures |s| == 2 * |b|
    ensures forall i :: 0 <= i < |s| ==> IsHexDigit(s[i])
  {
    if |b| == 0 then []
    else [HexDigit(b[0] as nat / 16), HexDigit(b[0] as nat % 16)] + HexEncode(b[1..])
  }

  function HexDecode(s: string): (b: seq<byte>)
    requires |s| % 2 == 0
    requires forall i :: 0 <= i < |s| ==> IsHexDigit(s[i])
    ensures 2 * |b| == |s|
  {
    if |s| == 0 then []
    else [(HexValue(s[0]) * 16 + HexValue(s[1])) as byte] + HexDecode(s[2..])
  }

  /** Decoding the encoding gives back the bytes, so the encoding is injective. */
  lemma {:induction false} HexRoundTrip(b: seq<byte>)
    ensures HexDecode(HexEncode(b)) == b
  {
    if |b| > 0 {
      var s := HexEncode(b);
      var hi, lo := b[0] as nat / 16, b[0] as nat % 16;
      HexValueOfDigit(hi);
      HexValueOfDigit(lo);
      assert s[2..] == HexEncode(b[1..]);
      HexRoundTrip(b[1..]);
    }
  }

  lemma HexEncodeInjective(a: seq<byte>, b: seq<byte>)
    requires HexEncode(a) == HexEncode(b)
    ensures a == b
  {
    HexRoundTrip(a);
    HexRoundTrip(b);
  }

  // ----- Decimal rendering for the fallback identifiers -----

  function DecimalDigit(v: nat): char
    requires v < 10
  {
    (48 + v) as char
  }

  /** `%d` of a non-negative number: its decimal digits, no leading zeros. */
  function Decimal(n: nat): (s: string)
    ensures |s| >= 1
    ensures forall i :: 0 <= i < |s| ==> '0' <= s[i] <= '9'
  {
    if n < 10 then [DecimalDigit(n)] else Decimal(n / 10) + [DecimalDigit(n % 10)]
  }

  function ParseDecimal(s: string): nat
    requires forall i :: 0 <= i < |s| ==> '0' <= s[i] <= '9'
  {
    if |s| == 0 then 0 else ParseDecimal(s[..|s| - 1]) * 10 + (s[|s| - 1] as int - 48)
  }

  lemma {:induction false} DecimalRoundTrip(n: nat)
    ensures ParseDecimal(Decimal(n)) == n
  {
    if n >= 10 {
      var s := Decimal(n);
      assert s[..|s| - 1] == Decimal(n / 10);
      DecimalRoundTrip(n / 10);
    }
  }

  // ----- Generation -----

  /** generateCounter: the counter goes up by one and its new value is returned. */
  function GenerateCounter(g: IdGen): (r: (nat, IdGen))
    ensures r.0 > g.counter && r.1.counter == r.0
    ensures r.0 == g.counter + 1
  {
    (g.counter + 1, IdGen(g.counter + 1))
  }

  const FallbackPrefix := "id_"

  function FallbackID(n: nat): ID
  {
    ID(FallbackPrefix + Decimal(n))
  }

  /** Distinct counter values give distinct fallback identifiers. */
  lemma FallbackIDsDistinct(a: nat, b: nat)
    requires a != b
    ensures FallbackID(a) != FallbackID(b)
  {
    if FallbackID(a) == FallbackID(b) {
      var sa, sb := FallbackPrefix + Decimal(a), FallbackPrefix + Decimal(b);
      assert sa[3..] == Decimal(a) && sb[3..] == Decimal(b);
      DecimalRoundTrip(a);
      DecimalRoundTrip(b);
      assert false;
    }
  }

  /** NewID: the hex encoding of the random bytes, or the next fallback
      identifier when the random source fails. */
  function NewID(src: Entropy, g: IdGen): (r: (ID, IdGen))
    requires WellFormedEntropy(src)
    ensures src.Random? ==> r.1 == g && |r.0.raw| == 32 && Validate(r.0).None?
    ensures src.Random? ==> (forall i :: 0 <= i < |r.0.raw| ==> IsHexDigit(r.0.raw[i]))
                            && HexDecode(r.0.raw) == src.bytes
    ensures src.ReadFailed? ==> r.1.counter == g.counter + 1 && r.0 == FallbackID(r.1.counter)
  {
    match src
    case Random(bytes) =>
      HexRoundTrip(bytes);
      (ID(HexEncode(bytes)), g)
    case ReadFailed =>
      var (n, g') := GenerateCounter(g);
      (ID(FallbackPrefix + Decimal(n)), g')
  }

  /** Two successive calls never yield the same identifier, except when the
      random source hands out the same 16 bytes twice. */
  lemma SuccessiveIDsDistinct(src1: Entropy, src2: Entropy, g: IdGen)
    requires WellFormedEntropy(src1) && WellFormedEntropy(src2)
    requires !(src1.Random? && src2.Random? && src1.bytes == src2.bytes)
    ensures NewID(src1, g).0 != NewID(src2, NewID(src1, g).1).0
  {
    var (id1, g1) := NewID(src1, g);
    var (id2, g2) := NewID(src2, g1);
    if src1.ReadFailed? && src2.ReadFailed? {
      FallbackIDsDistinct(g.counter + 1, g.counter + 2);
    } else if src1.Random? && src2.Random? {
      // each identifier decodes to its own bytes, and the bytes differ
      assert HexDecode(id1.raw) != HexDecode(id2.raw);
    } else {
      // one identifier is hex digits throughout, the other has "_" third
      assert id1.raw[2] != id2.raw[2];
    }
  }

  function Pow10(k: nat): (p: nat)
    ensures p >= 1
  {
    if k == 0 then 1 else 10 * Pow10(k - 1)
  }

  /** A number has at most k decimal digits exactly when it is below 10^k. */
  lemma {:induction false} DecimalLength(n: nat, k: nat)
    requires k >= 1
    ensures |Decimal(n)| <= k <==> n < Pow10(k)
  {
    if k >= 2 {
      assert Pow10(k) == 10 * Pow10(k - 1);
    }
    if n >= 10 {
      assert |Decimal(n)| == |Decimal(n / 10)| + 1;
      if k >= 2 {
        DecimalLength(n / 10, k - 1);
        assert n / 10 < Pow10(k - 1) <==> n < 10 * Pow10(k - 1);
      }
    }
  }

  /** Validate accepts a fallback identifier exactly from counter value 10000
      on: below it "id_" and the digits make fewer than 8 characters, so the
      generator's own Validate refuses the first 9999 fallbacks. */
  lemma FallbackValidateThreshold(n: nat)
    ensures Validate(FallbackID(n)).None? <==> n >= 10000
    ensures n < 10000 ==> Validate(FallbackID(n)) == Some(Formatted(ShortIdText))
  {
    var s := FallbackPrefix + Decimal(n);
    assert IsAscii(s) by {
      forall i | 0 <= i < |s| ensures s[i] as int < 0x80 {
        if i >= 3 {
          assert s[i] == Decimal(n)[i - 3];
        }
      }
    }
    ValidateAscii(FallbackID(n));
    assert Pow10(4) == 10000 by {
      assert Pow10(1) == 10;
      assert Pow10(2) == 100;
      assert Pow10(3) == 1000;
    }
    DecimalLength(n, 4);
  }
}
