/** Shared vocabulary: optional values, byte strings, and the KMS resource attributes
    that both the PKCS #11 library and the fake KMS server talk about. */
module Basics {

  datatype Option<+T> = None | Some(value: T)

  type byte = b: int | 0 <= b < 256
  type Bytes = seq<byte>

  /** CK_OBJECT_HANDLE; 0 is CK_INVALID_HANDLE. */
  type Handle = nat

  /** What iterating over a paged listing delivers: some items, then possibly one error. */
  datatype Stream<+T> = Stream(items: seq<T>, failed: bool)

  datatype Purpose =
    | PurposeUnspecified | EncryptDecrypt | AsymmetricSign | AsymmetricDecrypt
    | RawEncryptDecrypt | Mac

  datatype ProtectionLevel = ProtectionUnspecified | Software | Hsm | OtherProtection

  datatype VersionState =
    | StateUnspecified | PendingGeneration | Enabled | Disabled | DestroyScheduled | Destroyed

  datatype Algorithm =
    | AlgorithmUnspecified
    | GoogleSymmetricEncryption
    | Aes128Gcm | Aes256Gcm | Aes128Ctr | Aes256Ctr | Aes128Cbc | Aes256Cbc
    | RsaDecryptOaep2048Sha256 | RsaDecryptOaep3072Sha256
    | RsaDecryptOaep4096Sha256 | RsaDecryptOaep4096Sha512
    | EcSignP224Sha256 | EcSignP256Sha256 | EcSignP384Sha384 | EcSignP521Sha512
    | RsaSignPkcs1With2048Sha256 | RsaSignPkcs1With3072Sha256
    | RsaSignPkcs1With4096Sha256 | RsaSignPkcs1With4096Sha512
    | RsaSignPss2048Sha256 | RsaSignPss3072Sha256 | RsaSignPss4096Sha256 | RsaSignPss4096Sha512
    | RsaSignRawPkcs1With2048 | RsaSignRawPkcs1With3072 | RsaSignRawPkcs1With4096
    | HmacSha1 | HmacSha224 | HmacSha256 | HmacSha384 | HmacSha512
    | OtherAlgorithm(number: nat)
}
