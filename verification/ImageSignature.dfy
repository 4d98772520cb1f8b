/** auth-service: what the first bytes of an upload say it is. */
module ImageSignature {
  type Byte = x: int | 0 <= x < 256

  const SIGNATURE_BYTES := 12

  const PNG: seq<Byte> := [0x89, 0x50, 0x4e, 0x47, 0x0d, 0x0a, 0x1a, 0x0a]
  const JPEG: seq<Byte> := [0xff, 0xd8, 0xff]
  const RIFF: seq<Byte> := [0x52, 0x49, 0x46, 0x46]
  const WEBP: seq<Byte> := [0x57, 0x45, 0x42, 0x50]

  /** A byte past the end of the file is `undefined` and equals nothing. */
  predicate StartsWith(bytes: seq<Byte>, signature: seq<Byte>, offset: nat) {
    forall i | 0 <= i < |signature| :: offset + i < |bytes| && bytes[offset + i] == signature[i]
  }

  predicate MatchesImageSignature(contentType: string, bytes: seq<Byte>) {
    if contentType == "image/png" then StartsWith(bytes, PNG, 0)
    else if contentType == "image/jpeg" then StartsWith(bytes, JPEG, 0)
    else if contentType == "image/webp" then StartsWith(bytes, RIFF, 0) && StartsWith(bytes, WEBP, 8)
    else false
  }

  function FirstBytes(bytes: seq<Byte>, count: nat): seq<Byte> {
    if |bytes| <= count then bytes else bytes[..count]
  }

  lemma StartsWithIsASlice(bytes: seq<Byte>, signature: seq<Byte>, offset: nat)
    ensures StartsWith(bytes, signature, offset) && signature != []
       <==> signature != [] && offset + |signature| <= |bytes| && bytes[offset..offset + |signature|] == signature
  {
    if StartsWith(bytes, signature, offset) && signature != [] {
      var last := |signature| - 1;
      assert bytes[offset + last] == signature[last];
      assert bytes[offset..offset + |signature|] == signature;
    }
    if offset + |signature| <= |bytes| && bytes[offset..offset + |signature|] == signature {
      forall i | 0 <= i < |signature| ensures bytes[offset + i] == signature[i] {
        assert bytes[offset..offset + |signature|][i] == signature[i];
      }
    }
  }

  predicate IsText(bytes: seq<Byte>, text: string) {
    |bytes| == |text| && forall i | 0 <= i < |text| :: bytes[i] == text[i] as int
  }

  /** The three formats in terms of the file's leading slices: PNG by section 3.1 of RFC 2083, WebP by
      section 2.4 of RFC 9649 (four bytes of file size between the two tags). */
  lemma Formats(bytes: seq<Byte>)
    ensures MatchesImageSignature("image/png", bytes)
       <==> |bytes| >= 8 && bytes[0..8] == [137, 80, 78, 71, 13, 10, 26, 10]
    ensures MatchesImageSignature("image/jpeg", bytes) <==> |bytes| >= 3 && bytes[0..3] == [255, 216, 255]
    ensures MatchesImageSignature("image/webp", bytes)
       <==> |bytes| >= 12 && IsText(bytes[0..4], "RIFF") && IsText(bytes[8..12], "WEBP")
    ensures forall contentType | contentType !in {"image/png", "image/jpeg", "image/webp"} ::
              !MatchesImageSignature(contentType, bytes)
  {
    StartsWithIsASlice(bytes, PNG, 0);
    StartsWithIsASlice(bytes, JPEG, 0);
    StartsWithIsASlice(bytes, RIFF, 0);
    StartsWithIsASlice(bytes, WEBP, 8);
  }

  lemma PrefixSuffices(bytes: seq<Byte>, signature: seq<Byte>, offset: nat, count: nat)
    requires offset + |signature| <= count
    ensures StartsWith(FirstBytes(bytes, count), signature, offset) <==> StartsWith(bytes, signature, offset)
  {
  }

  /** Reading SIGNATURE_BYTES of a file gives the answer of the whole file, and no file is of two types. */
  lemma TwelveBytesSuffice(contentType: string, otherType: string, bytes: seq<Byte>)
    ensures MatchesImageSignature(contentType, FirstBytes(bytes, SIGNATURE_BYTES))
            <==> MatchesImageSignature(contentType, bytes)
    ensures MatchesImageSignature(contentType, bytes) && MatchesImageSignature(otherType, bytes) ==>
              contentType == otherType
  {
    PrefixSuffices(bytes, PNG, 0, SIGNATURE_BYTES);
    PrefixSuffices(bytes, JPEG, 0, SIGNATURE_BYTES);
    PrefixSuffices(bytes, RIFF, 0, SIGNATURE_BYTES);
    PrefixSuffices(bytes, WEBP, 8, SIGNATURE_BYTES);
    if MatchesImageSignature(contentType, bytes) && MatchesImageSignature(otherType, bytes) {
      Formats(bytes);
      assert |bytes| >= 8 ==> bytes[0..8][0] == bytes[0];
      assert |bytes| >= 4 ==> bytes[0..4][0] == bytes[0];
      assert bytes[0..3][0] == bytes[0];
    }
  }

  /** Fewer would not do: for every smaller count, some file is misjudged by its first `count` bytes. */
  lemma NoFewerBytesSuffice(count: nat) returns (bytes: seq<Byte>)
    requires count < SIGNATURE_BYTES
    ensures MatchesImageSignature("image/webp", bytes)
    ensures !MatchesImageSignature("image/webp", FirstBytes(bytes, count))
  {
    bytes := RIFF + [0, 0, 0, 0] + WEBP;
    forall i | 0 <= i < 4 ensures bytes[8 + i] == WEBP[i] {}
    assert !StartsWith(FirstBytes(bytes, count), WEBP, 8) by {
      assert WEBP[3] == 0x50 && |FirstBytes(bytes, count)| < 12;
    }
  }
}
