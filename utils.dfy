/** Conversion of a DER SubjectPublicKeyInfo holding a NIST P-256 point into the
    ECC public blob that the Windows CNG key import expects
    (Utilities/Utils.cs). */
module Utils {
  import opened Wrappers

  newtype byte = b: int | 0 <= b < 256

  /** The decoded `Secp256R1Prefix`: the 26 bytes of ASN.1 header of a P-256
      SubjectPublicKeyInfo (section 4.1 of RFC 5280, section 2 of RFC 5480),
        30 59            SEQUENCE, 89 bytes
          30 13          SEQUENCE (AlgorithmIdentifier), 19 bytes
            06 07 ...    OID 1.2.840.10045.2.1 (id-ecPublicKey)
            06 08 ...    OID 1.2.840.10045.3.1.7 (secp256r1)
          03 42 00       BIT STRING, 66 bytes, no unused bits
      followed by 04, the uncompressed-point marker of section 2.3.3 of SEC 1:
      27 bytes in all. */
  const Secp256R1Prefix: seq<byte> :=
    [0x30, 0x59, 0x30, 0x13, 0x06, 0x07, 0x2A, 0x86, 0x48, 0xCE, 0x3D, 0x02, 0x01,
     0x06, 0x08, 0x2A, 0x86, 0x48, 0xCE, 0x3D, 0x03, 0x01, 0x07, 0x03, 0x42, 0x00, 0x04]

  /** The BCRYPT_ECCKEY_BLOB header: the magic "ECS1" (ECDSA P-256 public key)
      followed by the key size in bytes, 32, as a little-endian 32-bit word. */
  const CngBlobPrefix: seq<byte> := [0x45, 0x43, 0x53, 0x31, 0x20, 0, 0, 0]

  /** Length of a P-256 SubjectPublicKeyInfo, and of the X || Y coordinates. */
  const SpkiLength := 91
  const CoordinatesLength := 64

  /** The value of four bytes read as a little-endian unsigned word. */
  function LittleEndian32(b: seq<byte>): nat
    requires |b| == 4
  {
    b[0] as nat + 0x100 * b[1] as nat + 0x1_0000 * b[2] as nat + 0x100_0000 * b[3] as nat
  }

  /** The layout the two constants are meant to have: the DER lengths add up to
      91 bytes, the prefix ends in the uncompressed-point marker, the CNG header
      is "ECS1" followed by the key size 32. */
  lemma ConstantsLayout()
    ensures |Secp256R1Prefix| == 27 && |CngBlobPrefix| == 8
    ensures 2 + Secp256R1Prefix[1] as int == SpkiLength
    ensures |Secp256R1Prefix| + CoordinatesLength == SpkiLength
    ensures Secp256R1Prefix[24] as int == 1 + 1 + CoordinatesLength
    ensures Secp256R1Prefix[26] == 0x04
    ensures CngBlobPrefix[..4] == [0x45, 0x43, 0x53, 0x31]   // 'E' 'C' 'S' '1'
    ensures LittleEndian32(CngBlobPrefix[4..]) == CoordinatesLength / 2
  {
  }

  /** The conversion as a function on byte sequences: `None` stands for the
      InvalidOperationException thrown for a wrong length or a wrong prefix. */
  function EccPublicBlob(spki: seq<byte>): (r: Option<seq<byte>>)
    ensures r.Some? <==> |spki| == SpkiLength && spki[..|Secp256R1Prefix|] == Secp256R1Prefix
    ensures r.Some? ==> |r.value| == |CngBlobPrefix| + CoordinatesLength
  {
    if |spki| != SpkiLength then None
    else if spki[..|Secp256R1Prefix|] != Secp256R1Prefix then None
    else Some(CngBlobPrefix + spki[|Secp256R1Prefix|..])
  }

  /** The inverse direction: the SubjectPublicKeyInfo that carries the point of
      a CNG blob. */
  function SpkiOfBlob(blob: seq<byte>): seq<byte>
    requires |blob| >= |CngBlobPrefix|
  {
    Secp256R1Prefix + blob[|CngBlobPrefix|..]
  }

  /** A well-formed CNG blob for a P-256 public key. */
  predicate IsEccPublicBlob(blob: seq<byte>) {
    |blob| == |CngBlobPrefix| + CoordinatesLength && blob[..|CngBlobPrefix|] == CngBlobPrefix
  }

  /** On success the blob is the CNG header followed by input bytes [27, 91) in
      order: X is bytes [8, 40) and Y is bytes [40, 72). */
  lemma BlobLayout(spki: seq<byte>)
    requires EccPublicBlob(spki).Some?
    ensures IsEccPublicBlob(EccPublicBlob(spki).value)
    ensures EccPublicBlob(spki).value[8..40] == spki[27..59]    // X
    ensures EccPublicBlob(spki).value[40..72] == spki[59..91]   // Y
  {
    var blob := EccPublicBlob(spki).value;
    assert blob == CngBlobPrefix + spki[27..];
    assert blob[..8] == CngBlobPrefix;
  }

  /** No byte of the key is lost: the SubjectPublicKeyInfo is recovered from the
      blob. */
  lemma BlobRoundTrip(spki: seq<byte>)
    requires EccPublicBlob(spki).Some?
    ensures SpkiOfBlob(EccPublicBlob(spki).value) == spki
  {
    var blob := EccPublicBlob(spki).value;
    assert blob[8..] == spki[27..];
    assert spki == spki[..27] + spki[27..];
  }

  /** Every well-formed blob is produced by exactly one valid key. */
  lemma SpkiRoundTrip(blob: seq<byte>)
    requires IsEccPublicBlob(blob)
    ensures EccPublicBlob(SpkiOfBlob(blob)) == Some(blob)
  {
    var spki := SpkiOfBlob(blob);
    assert spki[..27] == Secp256R1Prefix;
    assert spki[27..] == blob[8..];
    assert blob == blob[..8] + blob[8..];
  }

  /** Buffer.BlockCopy: copies `count` bytes of `src` from `srcOffset` into `dst`
      at `dstOffset`; `src` is read as a snapshot, as BlockCopy behaves even when
      the two ranges overlap. */
  method BlockCopy(src: seq<byte>, srcOffset: nat, dst: array<byte>, dstOffset: nat, count: nat)
    requires srcOffset + count <= |src| && dstOffset + count <= dst.Length
    modifies dst
    ensures dst[..] == old(dst[..dstOffset]) + src[srcOffset..srcOffset + count] + old(dst[dstOffset + count..])
  {
    for i := 0 to count
      invariant forall k :: 0 <= k < dst.Length ==>
        dst[k] == if dstOffset <= k < dstOffset + i then src[srcOffset + k - dstOffset] else old(dst[k])
    {
      dst[dstOffset + i] := src[srcOffset + i];
    }
    assert dst[..] == old(dst[..dstOffset]) + src[srcOffset..srcOffset + count] + old(dst[dstOffset + count..]);
  }

  /** Utils.ConvertSecp256R1PublicKeyToEccPublicBlob, on the base64-decoded key:
      the two guards run before anything is allocated; on success a fresh
      72-byte array is filled by two block copies. The input is not modified
      (there is no modifies clause). */
  method ConvertSecp256R1PublicKeyToEccPublicBlob(subjectPublicKeyInfo: array<byte>) returns (r: Option<array<byte>>)
    ensures r.None? <==> EccPublicBlob(subjectPublicKeyInfo[..]).None?
    ensures r.Some? ==> fresh(r.value) && Some(r.value[..]) == EccPublicBlob(subjectPublicKeyInfo[..])
  {
    if subjectPublicKeyInfo.Length != SpkiLength {
      return None;
    }
    var prefix := Secp256R1Prefix;
    if subjectPublicKeyInfo[..|prefix|] != prefix {
      return None;
    }
    var cngBlob := new byte[|CngBlobPrefix| + CoordinatesLength];
    BlockCopy(CngBlobPrefix, 0, cngBlob, 0, |CngBlobPrefix|);
    BlockCopy(subjectPublicKeyInfo[..], |Secp256R1Prefix|, cngBlob, |CngBlobPrefix|, CoordinatesLength);
    assert cngBlob[..] == CngBlobPrefix + subjectPublicKeyInfo[..][|Secp256R1Prefix|..];
    r := Some(cngBlob);
  }
}
