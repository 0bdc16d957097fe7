/** The values of the Aptos node API (`aptos_api_types`) that the record builders read.
    Only the fields the builders touch are spelled out; whatever else a value carries only
    reaches a row through one of the collaborators of module Collaborators, and is kept
    opaque here. */
module ApiTypes {
  import opened Wrappers
  import opened RustTypes
  import Json

  /** An account address (`Address`, wrapping a 32-byte `AccountAddress`). */
  datatype Address = Address(bytes: seq<u8>)

  /** A Move identifier (`IdentifierWrapper`). */
  datatype Identifier = Identifier(text: string)

  /** `MoveModuleId`: the address a module is published under and its name. */
  datatype MoveModuleId = MoveModuleId(address: Address, name: Identifier)

  /** `MoveFunction`, one function a module exposes; its visibility, type parameters,
      parameter and return types are kept as the opaque `rest`. */
  datatype MoveFunction = MoveFunction(name: Identifier, rest: seq<u8>)

  /** `MoveStruct`, one struct a module declares; its abilities, type parameters and
      fields are kept as the opaque `rest`. */
  datatype MoveStruct = MoveStruct(name: Identifier, rest: seq<u8>)

  /** `MoveModule`, the ABI of a module, each collection in declaration order. */
  datatype MoveModule = MoveModule(
    address: Address,
    name: Identifier,
    friends: seq<MoveModuleId>,
    exposed_functions: seq<MoveFunction>,
    structs: seq<MoveStruct>)

  /** `MoveModuleBytecode`: the module's bytes and, once parsed, its ABI. */
  datatype MoveModuleBytecode = MoveModuleBytecode(bytecode: seq<u8>, abi: Option<MoveModule>)

  /** The write-set change that publishes a module. */
  datatype WriteModule = WriteModule(address: Address, data: MoveModuleBytecode)

  /** The write-set change that deletes a module. */
  datatype DeleteModule = DeleteModule(address: Address, module_id: MoveModuleId)

  /** `EntryFunctionId`, printed as `address::module::function`. */
  datatype EntryFunctionId = EntryFunctionId(module_id: MoveModuleId, name: Identifier)

  /** `TransactionPayload` (the entry function's `function` field is `function_id` here); the contents of the non-entry-function variants are opaque. */
  datatype TransactionPayload =
    | EntryFunctionPayload(function_id: EntryFunctionId, type_arguments: seq<string>, arguments: seq<Json.Value>)
    | ScriptPayload(code: seq<u8>, type_arguments: seq<string>, arguments: seq<Json.Value>)
    | ModuleBundlePayload(modules: seq<MoveModuleBytecode>)
    | WriteSetPayload(write_set: seq<u8>)

  /** `TransactionSignature`, one variant per signature scheme; the keys and signatures
      each carries are decoded by `Signature::from_user_transaction` and kept opaque here. */
  datatype TransactionSignature =
    | Ed25519Signature(raw: seq<u8>)
    | MultiEd25519Signature(raw: seq<u8>)
    | MultiAgentSignature(raw: seq<u8>)

  /** `UserTransactionRequest`: what the sender signed, and the signature if any. */
  datatype UserTransactionRequest = UserTransactionRequest(
    sender: Address,
    sequence_number: u64,
    max_gas_amount: u64,
    gas_unit_price: u64,
    expiration_timestamp_secs: u64,
    payload: TransactionPayload,
    signature: Option<TransactionSignature>)

  /** `TransactionInfo`; of its fields only the ledger version is read. */
  datatype TransactionInfo = TransactionInfo(version: u64)

  /** `UserTransaction`: the executed transaction and its block timestamp in microseconds. */
  datatype UserTransaction = UserTransaction(
    info: TransactionInfo,
    request: UserTransactionRequest,
    timestamp: u64)
}
