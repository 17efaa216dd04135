/** What packing and unpacking a wire payload can refuse. */
module WireErrors {
  import opened ByteStrings

  datatype WireError =
    | InvalidDhPublicKey(len: nat)
    | KemTooLarge(len: nat)
    | PqFieldTooLarge(len: nat)
    | InvalidPqFieldType(fieldType: u8)
    | TooShort(len: nat)
    | PqxdhFlagWithoutCiphertext
    | KemIdentityWithoutHandshake
    | KemIdentityObjectSize(len: nat)
    | RetiredSuite(suite: u16)
    | PqKeyIndexWithoutEpoch(index: u32)
    | NonCanonicalKeyIndex
}
