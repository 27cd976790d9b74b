/** Normalisation of the watched contract addresses. Addresses on the XDC
    network are written with an `xdc` prefix where Ethereum writes `0x`; the
    tester rewrites them with `strings.Replace(a, "xdc", "0x", 1)` before
    decoding them to 20-byte addresses. */
module AddressNormalisation {
  import opened GoTypes
  import opened Hex

  /** The XDC network's address prefix, `xdc`. */
  const Xdc: GoString := [120, 100, 99]

  /** `pat` occurs in `s` starting at position `i`. */
  predicate OccursAt(s: GoString, pat: GoString, i: int) {
    0 <= i && i + |pat| <= |s| && s[i..i + |pat|] == pat
  }

  /** The first occurrence of `pat` in `s` at position `i` or later. */
  function IndexFrom(s: GoString, pat: GoString, i: nat): (r: Option<nat>)
    ensures r.Some? ==> i <= r.value && OccursAt(s, pat, r.value)
    ensures r.Some? ==> forall j | i <= j < r.value :: !OccursAt(s, pat, j)
    ensures r.None? ==> forall j | i <= j :: !OccursAt(s, pat, j)
    decreases |s| - i
  {
    if i + |pat| > |s| then None
    else if s[i..i + |pat|] == pat then Some(i)
    else IndexFrom(s, pat, i + 1)
  }

  /** `strings.Index`: the position of the first occurrence of `pat` in `s`. */
  function Index(s: GoString, pat: GoString): (r: Option<nat>)
    ensures r.Some? ==> OccursAt(s, pat, r.value)
    ensures r.Some? ==> forall j | 0 <= j < r.value :: !OccursAt(s, pat, j)
    ensures r.None? ==> forall j :: !OccursAt(s, pat, j)
  {
    IndexFrom(s, pat, 0)
  }

  /** `strings.Replace(s, pat, rep, 1)`: the first occurrence of `pat`, and
      only that one, becomes `rep`; byte for byte, so case-sensitive. Text
      without `pat` is returned as it is. */
  function ReplaceFirst(s: GoString, pat: GoString, rep: GoString): (r: GoString)
    ensures (forall j :: !OccursAt(s, pat, j)) ==> r == s
    ensures forall j | OccursAt(s, pat, j) && (forall k | 0 <= k < j :: !OccursAt(s, pat, k)) ::
      r == s[..j] + rep + s[j + |pat|..]
  {
    if pat == rep then
      assert forall j | OccursAt(s, pat, j) :: s == s[..j] + rep + s[j + |pat|..] by {
        forall j | OccursAt(s, pat, j) ensures s == s[..j] + rep + s[j + |pat|..] {
          assert s == s[..j] + s[j..j + |pat|] + s[j + |pat|..];
        }
      }
      s
    else match Index(s, pat)
      case None => s
      case Some(j) => s[..j] + rep + s[j + |pat|..]
  }

  /** The normalisation as the tester writes it (line 216): the first `xdc`
      anywhere in the text becomes `0x`, everything before and after it,
      later `xdc`s included, is kept, and text without `xdc` is unchanged. */
  function NormaliseAddress(a: GoString): (r: GoString)
    ensures (forall j :: !OccursAt(a, Xdc, j)) ==> r == a
    ensures forall j | OccursAt(a, Xdc, j) && (forall k | 0 <= k < j :: !OccursAt(a, Xdc, k)) ::
      r == a[..j] + HexPrefix + a[j + 3..]
  {
    ReplaceFirst(a, Xdc, HexPrefix)
  }

  /** The normalisation the tester evidently intends: an `xdc` prefix, and
      only a prefix, becomes `0x`. */
  function NormaliseXdcPrefix(a: GoString): (r: GoString)
    ensures |a| >= 3 && a[..3] == Xdc ==> r == HexPrefix + a[3..]
    ensures !(|a| >= 3 && a[..3] == Xdc) ==> r == a
  {
    if |a| >= 3 && a[..3] == Xdc then HexPrefix + a[3..] else a
  }

  /** `xdc` followed by hex text becomes `0x` followed by the same text. */
  lemma XdcPrefixReplaced(h: GoString)
    ensures NormaliseAddress(Xdc + h) == HexPrefix + h
  {
    var a := Xdc + h;
    assert OccursAt(a, Xdc, 0);
    assert a[3..] == h;
  }

  /** `0x` followed by hex digits that do not start with `dc` holds no `xdc`. */
  lemma HexAddressHasNoXdc(h: GoString)
    requires IsHexText(h)
    requires !(|h| >= 2 && h[0] == 100 && h[1] == 99)
    ensures forall j :: !OccursAt(HexPrefix + h, Xdc, j)
  {
    var a := HexPrefix + h;
    forall j | 0 <= j && j + 3 <= |a|
      ensures !OccursAt(a, Xdc, j)
    {
      if j == 0 {
        assert a[j..j + 3][0] == Zero;
      } else if j == 1 {
        assert a[j..j + 3] == [LowerX, h[0], h[1]];
      } else if j >= 2 {
        assert a[j..j + 3][0] == h[j - 2] && IsHexDigit(h[j - 2]);
      }
    }
  }

  /** As written, `xdc` + H and `0x` + H normalise to the same text when the
      hex digits H do not start with `dc`. */
  lemma XdcAndHexPrefixAgree(h: GoString)
    requires IsHexText(h)
    requires !(|h| >= 2 && h[0] == 100 && h[1] == 99)
    ensures NormaliseAddress(Xdc + h) == HexPrefix + h
    ensures NormaliseAddress(HexPrefix + h) == HexPrefix + h
  {
    XdcPrefixReplaced(h);
    HexAddressHasNoXdc(h);
  }

  /** As written, an ordinary `0x` address whose digits start with `dc` has
      its `x` taken for the start of `xdc`: `0xdc…` becomes `00x…`, and that
      decodes to the zero address. */
  lemma HexDcAddressBecomesZero(r: GoString)
    ensures NormaliseAddress(HexPrefix + [100, 99] + r) == [Zero, Zero, LowerX] + r
    ensures HexToAddress(NormaliseAddress(HexPrefix + [100, 99] + r)) == Zeros(AddressLength)
  {
    HexDcRewritten(r);
    ZeroZeroXIsZeroAddress(r);
  }

  /** The first `xdc` in `0xdc…` starts at the `x`. */
  lemma HexDcRewritten(r: GoString)
    ensures NormaliseAddress(HexPrefix + [100, 99] + r) == [Zero, Zero, LowerX] + r
  {
    var a := HexPrefix + [100, 99] + r;
    assert a[1..4] == Xdc;
    assert !OccursAt(a, Xdc, 0) by { assert a[0] != 120; }
    assert OccursAt(a, Xdc, 1);
    assert forall k | 0 <= k < 1 :: !OccursAt(a, Xdc, k);
    assert NormaliseAddress(a) == a[..1] + HexPrefix + a[4..];
    assert a[..1] == [Zero] && a[4..] == r;
  }

  /** `00x…` decodes to one zero byte at most: the `x` stops the decoder. */
  lemma ZeroZeroXIsZeroAddress(r: GoString)
    ensures HexToAddress([Zero, Zero, LowerX] + r) == Zeros(AddressLength)
  {
    var n := [Zero, Zero, LowerX] + r;
    assert !HasHexPrefix(n);
    var u := if |n| % 2 == 1 then [Zero] + n else n;
    assert u[0] == Zero && u[1] == Zero;
    assert u[2..][0] == LowerX || u[2..][1] == LowerX;
    assert Decode(u[2..]) == [];
    assert Decode(u) == [0];
    assert FromHex(n) == [0];
    assert FitWord([0], AddressLength) == Zeros(AddressLength);
  }

  /** `0xdc` followed by 38 hex digits reads as an address whose first byte
      is `0xdc`. */
  lemma HexDcAddressLeadingByte(r: GoString)
    requires IsHexText(r) && |r| == 38
    ensures HexToAddress(HexPrefix + [100, 99] + r)[0] == 0xdc
  {
    var h := [100, 99] + r;
    var s := HexPrefix + h;
    assert s == HexPrefix + [100, 99] + r;
    assert HasHexPrefix(s) && s[2..] == h;
    assert h[2..] == r;
    DecodeLength(r);
    assert Decode(h) == [0xdc] + Decode(r);
    assert |FromHex(s)| == AddressLength;
  }

  /** The same digits behind `xdc` keep their leading byte `0xdc`. */
  lemma XdcDcAddressKeepsLeadingByte(r: GoString)
    requires IsHexText(r) && |r| == 38
    ensures HexToAddress(NormaliseAddress(Xdc + [100, 99] + r))[0] == 0xdc
  {
    var h := [100, 99] + r;
    XdcPrefixReplaced(h);
    assert Xdc + h == Xdc + [100, 99] + r;
    assert HexPrefix + h == HexPrefix + [100, 99] + r;
    HexDcAddressLeadingByte(r);
  }

  /** The finding: as written, the `xdc` and `0x` spellings of one address
      decode to different addresses whenever its digits start with `dc`. */
  lemma XdcAndHexPrefixDisagreeOnDc(r: GoString)
    requires IsHexText(r) && |r| == 38
    ensures HexToAddress(NormaliseAddress(Xdc + [100, 99] + r))
         != HexToAddress(NormaliseAddress(HexPrefix + [100, 99] + r))
  {
    XdcDcAddressKeepsLeadingByte(r);
    HexDcAddressBecomesZero(r);
  }

  /** The corrected normalisation maps both spellings of every address to the
      same `0x` text. */
  lemma XdcPrefixNormalisationAgrees(h: GoString)
    ensures NormaliseXdcPrefix(Xdc + h) == HexPrefix + h
    ensures NormaliseXdcPrefix(HexPrefix + h) == HexPrefix + h
  {
    assert (Xdc + h)[..3] == Xdc && (Xdc + h)[3..] == h;
    assert (HexPrefix + h)[0] != Xdc[0];
  }

  /** The corrected normalisation agrees with the tester's whenever the
      address starts with `xdc` or holds no `xdc` at all, which covers every
      `xdc` address and every `0x` address whose digits do not start with `dc`. */
  lemma XdcPrefixNormalisationMatchesSource(a: GoString)
    requires (|a| >= 3 && a[..3] == Xdc) || forall j :: !OccursAt(a, Xdc, j)
    ensures NormaliseXdcPrefix(a) == NormaliseAddress(a)
  {
    if |a| >= 3 && a[..3] == Xdc {
      assert a == Xdc + a[3..];
      XdcPrefixReplaced(a[3..]);
    }
  }
}
