/** The code the record builders call but that is not part of this model: the ABI parser,
    the JSON serializer, the formatting of addresses and identifiers, and the timestamp and
    decimal helpers. Each is a total function handed to the builders, so every contract
    below says which collaborator a field comes from without fixing what it computes. */
module Collaborators {
  import opened Wrappers
  import opened RustTypes
  import Api = ApiTypes
  import Json

  /** The `Display` (`to_string`) and `to_hex_literal` renderings the rows store. */
  datatype Formatter = Formatter(
    addressToString: Api.Address -> string,
    addressToHexLiteral: Api.Address -> string,
    identifierToString: Api.Identifier -> string,
    entryFunctionIdToString: Api.EntryFunctionId -> string)

  /** `serde_json::to_value` on the three ABI element types; its `unwrap` never panics here. */
  datatype Serializer = Serializer(
    functionToValue: Api.MoveFunction -> Json.Value,
    moduleIdToValue: Api.MoveModuleId -> Json.Value,
    structToValue: Api.MoveStruct -> Json.Value)

  /** The error `try_parse_abi` reports. */
  datatype AbiError = AbiError(message: string)

  /** `MoveModuleBytecode::try_parse_abi`: parses the bytes and fills in the ABI, or fails. */
  datatype AbiParser = AbiParser(
    tryParseAbi: Api.MoveModuleBytecode -> Result<Api.MoveModuleBytecode, AbiError>)

  /** `u64_to_bigdecimal`, `parse_timestamp` (microseconds) and `parse_timestamp_secs`
      (seconds); the last two also receive the transaction version they are logged under. */
  datatype Util = Util(
    u64ToBigdecimal: u64 -> BigDecimal,
    parseTimestamp: (u64, i64) -> NaiveDateTime,
    parseTimestampSecs: (u64, i64) -> NaiveDateTime)
}

/** The signature rows of a user transaction, and the decoder that produces them. */
module Signatures {
  import opened Wrappers
  import opened RustTypes
  import Api = ApiTypes

  /** One row of the signatures table: the version and signer it belongs to, the scheme
      it was decoded from, and the remaining decoded columns kept opaque. */
  datatype Signature = Signature(
    transaction_version: i64,
    signer: string,
    signature_type: string,
    columns: seq<string>)

  /** The error `Signature::from_user_transaction` reports. */
  datatype SignatureError = SignatureError(message: string)

  /** `Signature::get_signature_type` and `Signature::from_user_transaction`, the latter
      given the signature, the sender's `to_string` and the transaction version. */
  datatype SignatureDecoder = SignatureDecoder(
    getSignatureType: Api.TransactionSignature -> string,
    fromUserTransaction: (Api.TransactionSignature, string, i64) -> Result<seq<Signature>, SignatureError>)
}
