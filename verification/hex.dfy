/** Hexadecimal text and the fixed-width words (hashes, addresses) built from
    it, as the go-ethereum and Chainlink helpers called by the tester handle
    them: `hex.EncodeToString`, `hex.DecodeString`, `hexutil.Encode`,
    `common.FromHex`, `common.HexToHash`, `common.HexToAddress` and the
    `RemoveHexPrefix` / `AddHexPrefix` utilities. Only their visible effect is
    modelled. */
module Hex {
  import opened GoTypes

  const Zero: byte := 48      // '0'
  const LowerX: byte := 120   // 'x'
  const UpperX: byte := 88    // 'X'

  /** The `0x` marker written in front of hexadecimal text. */
  const HexPrefix: GoString := [Zero, LowerX]

  const HashLength := 32
  const AddressLength := 20

  /** `common.Hash`: a 32-byte word. */
  type Hash = s: seq<byte> | |s| == HashLength witness Zeros(HashLength)

  /** `common.Address`: a 20-byte word. */
  type Address = s: seq<byte> | |s| == AddressLength witness Zeros(AddressLength)

  predicate IsHexDigit(c: byte) {
    (48 <= c <= 57) || (97 <= c <= 102) || (65 <= c <= 70)
  }

  /** Text made only of hexadecimal digits, of either case. */
  predicate IsHexText(s: GoString) {
    forall i | 0 <= i < |s| :: IsHexDigit(s[i])
  }

  function DigitValue(c: byte): (v: nat)
    requires IsHexDigit(c)
    ensures v < 16
  {
    if c <= 57 then c as int - 48 else if c >= 97 then c as int - 87 else c as int - 55
  }

  /** The lower-case digit Go's encoder writes for a nibble. */
  function Digit(n: nat): (c: byte)
    requires n < 16
    ensures IsHexDigit(c) && DigitValue(c) == n
  {
    if n < 10 then (48 + n) as byte else (87 + n) as byte
  }

  /** `hex.EncodeToString`: two lower-case digits per byte, high nibble first. */
  function Encode(b: seq<byte>): (h: GoString)
    ensures |h| == 2 * |b|
    ensures IsHexText(h)
  {
    if b == [] then []
    else [Digit(b[0] as int / 16), Digit(b[0] as int % 16)] + Encode(b[1..])
  }

  /** `hex.DecodeString` with its error dropped, as `common.FromHex` does:
      the bytes decoded before the first pair that is not two hex digits. */
  function Decode(s: GoString): (b: seq<byte>)
    ensures |b| <= |s| / 2
  {
    if |s| < 2 || !IsHexDigit(s[0]) || !IsHexDigit(s[1]) then []
    else [(16 * DigitValue(s[0]) + DigitValue(s[1])) as byte] + Decode(s[2..])
  }

  /** `hexutil.Encode`: `0x` followed by the lower-case digits. `FromHex`
      reads the text back as the bytes it came from. */
  function EncodeWithPrefix(b: seq<byte>): (s: GoString)
    ensures |s| == 2 + 2 * |b|
    ensures HasHexPrefix(s) && IsHexText(s[2..])
    ensures FromHex(s) == b
  {
    var s := HexPrefix + Encode(b);
    assert s[2..] == Encode(b);
    DecodeEncode(b);
    s
  }

  /** `0x` or `0X` at the start of the text. */
  predicate HasHexPrefix(s: GoString) {
    |s| >= 2 && s[0] == Zero && (s[1] == LowerX || s[1] == UpperX)
  }

  /** Chainlink's `RemoveHexPrefix`. */
  function RemoveHexPrefix(s: GoString): (r: GoString)
    ensures HasHexPrefix(s) ==> s == s[..2] + r
    ensures !HasHexPrefix(s) ==> r == s
  {
    if HasHexPrefix(s) then s[2..] else s
  }

  /** Chainlink's `AddHexPrefix`: prepends `0x` unless the text is at least two
      bytes long and already starts with `0x` in either case. */
  function AddHexPrefix(s: GoString): (r: GoString)
    ensures HasHexPrefix(r)
    ensures HasHexPrefix(s) ==> r == s
    ensures !HasHexPrefix(s) ==> r == HexPrefix + s
  {
    if |s| < 2 || !HasHexPrefix(s) then HexPrefix + s else s
  }

  /** `common.FromHex`: drop one `0x`/`0X` prefix, put a `0` in front of text
      of odd length, then decode. */
  function FromHex(s: GoString): (b: seq<byte>)
    ensures !HasHexPrefix(s) && |s| % 2 == 0 ==> b == Decode(s)
    ensures !HasHexPrefix(s) && |s| % 2 == 1 ==> b == Decode([Zero] + s)
    ensures HasHexPrefix(s) && |s| % 2 == 0 ==> b == Decode(s[2..])
    ensures HasHexPrefix(s) && |s| % 2 == 1 ==> b == Decode([Zero] + s[2..])
  {
    var t := if HasHexPrefix(s) then s[2..] else s;
    var u := if |t| % 2 == 1 then [Zero] + t else t;
    Decode(u)
  }

  /** `SetBytes` of go-ethereum's fixed-width words: keep the last `n` bytes of
      `b` and fill the word from the left with zeros. */
  function FitWord(b: seq<byte>, n: nat): (w: seq<byte>)
    ensures |w| == n
    ensures |b| <= n ==> w[n - |b|..] == b && forall i | 0 <= i < n - |b| :: w[i] == 0
    ensures |b| > n ==> w == b[|b| - n..]
  {
    if |b| > n then b[|b| - n..] else Zeros(n - |b|) + b
  }

  /** `common.HexToHash`: the bytes `FromHex` reads, cropped from the left
      when longer than 32 and padded with zeros on the left when shorter. */
  function HexToHash(s: GoString): (w: Hash)
    ensures var b := FromHex(s); |b| <= HashLength ==>
      w[HashLength - |b|..] == b && forall i | 0 <= i < HashLength - |b| :: w[i] == 0
    ensures var b := FromHex(s); |b| > HashLength ==> w == b[|b| - HashLength..]
  {
    FitWord(FromHex(s), HashLength)
  }

  /** `common.HexToAddress`; it never fails, whatever the text. The bytes
      `FromHex` reads are cropped from the left when longer than 20 and
      padded with zeros on the left when shorter. */
  function HexToAddress(s: GoString): (a: Address)
    ensures var b := FromHex(s); |b| <= AddressLength ==>
      a[AddressLength - |b|..] == b && forall i | 0 <= i < AddressLength - |b| :: a[i] == 0
    ensures var b := FromHex(s); |b| > AddressLength ==> a == b[|b| - AddressLength..]
  {
    FitWord(FromHex(s), AddressLength)
  }

  /** Hex text of an even number of digits, at most 40, with or without
      `0x`, gives its bytes right-aligned in the address. */
  lemma HexToAddressOfHexText(s: GoString)
    requires IsHexText(RemoveHexPrefix(s)) && |RemoveHexPrefix(s)| % 2 == 0
    requires |RemoveHexPrefix(s)| <= 2 * AddressLength
    ensures HexToAddress(s) == Zeros(AddressLength - |RemoveHexPrefix(s)| / 2) + Decode(RemoveHexPrefix(s))
  {
    DecodeLength(RemoveHexPrefix(s));
  }

  /** Decoding undoes encoding. */
  lemma {:induction false} DecodeEncode(b: seq<byte>)
    ensures Decode(Encode(b)) == b
  {
    if b != [] {
      var h := Encode(b);
      assert h[2..] == Encode(b[1..]);
      DecodeEncode(b[1..]);
    }
  }

  /** Hex text of even length decodes to half as many bytes. */
  lemma {:induction false} DecodeLength(s: GoString)
    requires IsHexText(s) && |s| % 2 == 0
    ensures |Decode(s)| == |s| / 2
  {
    if |s| >= 2 {
      DecodeLength(s[2..]);
    }
  }

  /** The first `2k` digits of the encoding of `b` are the encoding of the
      first `k` bytes of `b`. */
  lemma {:induction false} EncodePrefix(b: seq<byte>, k: nat)
    requires k <= |b|
    ensures Encode(b)[..2 * k] == Encode(b[..k])
  {
    if k > 0 {
      EncodePrefix(b[1..], k - 1);
      assert b[..k][1..] == b[1..][..k - 1];
      assert Encode(b)[..2 * k] == Encode(b)[..2] + Encode(b[1..])[..2 * (k - 1)];
    }
  }

  /** Encoding distributes over concatenation. */
  lemma {:induction false} EncodeAppend(a: seq<byte>, b: seq<byte>)
    ensures Encode(a + b) == Encode(a) + Encode(b)
  {
    if a == [] {
      assert a + b == b;
    } else {
      assert (a + b)[1..] == a[1..] + b;
      EncodeAppend(a[1..], b);
    }
  }

  /** Zero bytes encode to `0` digits only. */
  lemma {:induction false} EncodeZeros(n: nat)
    ensures forall i | 0 <= i < 2 * n :: Encode(Zeros(n))[i] == Zero
  {
    if n > 0 {
      assert Zeros(n)[1..] == Zeros(n - 1);
      EncodeZeros(n - 1);
    }
  }

  /** A word written as `0x` and its own encoding reads back as itself. */
  lemma HexToHashOfEncoding(b: seq<byte>)
    requires |b| == HashLength
    ensures HexToHash(HexPrefix + Encode(b)) == b
  {
    var s := HexPrefix + Encode(b);
    assert HasHexPrefix(s) && s[2..] == Encode(b);
    DecodeEncode(b);
    assert FitWord(b, HashLength) == Zeros(0) + b;
  }
}
