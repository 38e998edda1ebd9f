/**
  Content fingerprints: the normal form, cut to its first 400 bytes, hashed
  with SHA-256 and written as lower-case hexadecimal. The hash itself is an
  opaque function onto 32-byte digests.
 */
module Fingerprint {
  import opened Wrappers
  import opened Text
  import opened Normalizer

  type byte = x: int | 0 <= x < 256

  type Digest = s: seq<byte> | |s| == 32 witness seq(32, _ => 0)

  /** The primitives the pipeline uses but this model does not define. */
  datatype Primitives = Primitives(scrubbers: Scrubbers, sha256: seq<byte> -> Digest)

  /** Only this many leading bytes of the normal form are hashed. */
  const FingerprintWindow: nat := 400

  predicate IsLowerHex(c: char) {
    '0' <= c <= '9' || 'a' <= c <= 'f'
  }

  function HexDigit(d: int): char
    requires 0 <= d < 16
  {
    if d < 10 then ('0' as int + d) as char else ('a' as int + d - 10) as char
  }

  /** Go's `fromHexChar`: both letter cases are accepted. */
  function HexValue(c: char): Option<int> {
    if '0' <= c <= '9' then Some(c as int - '0' as int)
    else if 'a' <= c <= 'f' then Some(c as int - 'a' as int + 10)
    else if 'A' <= c <= 'F' then Some(c as int - 'A' as int + 10)
    else None
  }

  /** `hex.EncodeToString`: two lower-case digits per byte, high nibble first. */
  function HexEncode(bs: seq<byte>): (r: string)
    ensures |r| == 2 * |bs|
    ensures forall i :: 0 <= i < |r| ==> IsLowerHex(r[i])
  {
    if bs == [] then [] else [HexDigit(bs[0] / 16), HexDigit(bs[0] % 16)] + HexEncode(bs[1..])
  }

  /** `hex.DecodeString`: fails on an odd length or a non-hex character. */
  function HexDecode(s: string): (r: Option<seq<byte>>)
    ensures r.Some? ==> 2 * |r.value| == |s|
  {
    if s == [] then Some([])
    else if |s| == 1 then None
    else match (HexValue(s[0]), HexValue(s[1]), HexDecode(s[2..]))
      case (Some(hi), Some(lo), Some(rest)) => Some([(hi * 16 + lo) as byte] + rest)
      case _ => None
  }

  /** Decoding recovers the encoded bytes. */
  lemma {:induction false} HexRoundTrip(bs: seq<byte>)
    ensures HexDecode(HexEncode(bs)) == Some(bs)
  {
    if bs != [] {
      HexRoundTrip(bs[1..]);
      var e := HexEncode(bs);
      assert e[2..] == HexEncode(bs[1..]);
      assert [bs[0]] + bs[1..] == bs;
    }
  }

  /** Distinct byte strings have distinct hexadecimal forms. */
  lemma HexEncodeInjective(a: seq<byte>, b: seq<byte>)
    ensures HexEncode(a) == HexEncode(b) <==> a == b
  {
    HexRoundTrip(a);
    HexRoundTrip(b);
  }

  predicate IsAscii(s: string) {
    forall i :: 0 <= i < |s| ==> s[i] as int < 128
  }

  /** `[]byte(s)` for an ASCII string: one byte per character. */
  function AsciiBytes(s: string): seq<byte>
    requires IsAscii(s)
  {
    seq(|s|, i requires 0 <= i < |s| => s[i] as int as byte)
  }

  /** A normal form is plain ASCII, and so is every prefix of it. */
  lemma CanonicalPrefixIsAscii(s: string, n: nat)
    requires Canonical(s) && n <= |s|
    ensures IsAscii(s[..n])
  {
    assert forall k :: 0 <= k < n ==> s[..n][k] == s[k];
  }

  /** The text that is hashed: the normal form, cut to the window. */
  function FingerprintInput(p: Primitives, messageText: string): (r: string)
    ensures IsAscii(r)
    ensures |r| <= FingerprintWindow && |r| <= |Normalize(p.scrubbers, messageText)|
    ensures r == Normalize(p.scrubbers, messageText)[..|r|]
    ensures |r| < FingerprintWindow ==> r == Normalize(p.scrubbers, messageText)
  {
    var normalized := Normalize(p.scrubbers, messageText);
    var n := if |normalized| > FingerprintWindow then FingerprintWindow else |normalized|;
    CanonicalPrefixIsAscii(normalized, n);
    normalized[..n]
  }

  /** `computeFingerprint`: 64 lower-case hex digits that decode to the digest of the window. */
  function ComputeFingerprint(p: Primitives, messageText: string): (r: string)
    ensures |r| == 64
    ensures forall i :: 0 <= i < |r| ==> IsLowerHex(r[i])
    ensures HexDecode(r) == Some(p.sha256(AsciiBytes(FingerprintInput(p, messageText))))
  {
    var window := FingerprintInput(p, messageText);
    var digest := p.sha256(AsciiBytes(window));
    HexRoundTrip(digest);
    HexEncode(digest)
  }

  /** Two texts get the same fingerprint exactly when their windows hash to the same digest. */
  lemma FingerprintsAgreeIffDigestsAgree(p: Primitives, a: string, b: string)
    ensures ComputeFingerprint(p, a) == ComputeFingerprint(p, b)
        <==> p.sha256(AsciiBytes(FingerprintInput(p, a))) == p.sha256(AsciiBytes(FingerprintInput(p, b)))
  {
    HexEncodeInjective(p.sha256(AsciiBytes(FingerprintInput(p, a))), p.sha256(AsciiBytes(FingerprintInput(p, b))));
  }

  /**
    Texts whose normal forms agree on the first 400 characters (or agree
    outright when shorter) share a fingerprint: differences in letter case,
    punctuation, spacing, deleted URLs and anything past the window are ignored.
   */
  lemma SameWindowSameFingerprint(p: Primitives, a: string, b: string)
    requires var na, nb := Normalize(p.scrubbers, a), Normalize(p.scrubbers, b);
      na == nb || (|na| >= FingerprintWindow && |nb| >= FingerprintWindow && na[..FingerprintWindow] == nb[..FingerprintWindow])
    ensures ComputeFingerprint(p, a) == ComputeFingerprint(p, b)
  {
    assert FingerprintInput(p, a) == FingerprintInput(p, b);
  }

  /** Letter case never changes a fingerprint. */
  lemma FingerprintIgnoresCase(p: Primitives, a: string, b: string)
    requires Lower(a) == Lower(b)
    ensures ComputeFingerprint(p, a) == ComputeFingerprint(p, b)
  {
    SameWindowSameFingerprint(p, a, b);
  }
}
