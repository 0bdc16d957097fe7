/** Rows of the `move_modules` table: one per module published or deleted by a write-set
    change, keyed by (transaction_version, write_set_change_index). Publishing decodes the
    module's ABI tolerantly: a failed or ABI-less parse leaves the metadata out, and such a
    row is still a live module, never a deletion. */
module MoveModules {
  import opened Wrappers
  import opened RustTypes
  import Json
  import Api = ApiTypes
  import opened Collaborators

  /** A row of the table. */
  datatype MoveModule = MoveModule(
    transaction_version: i64,
    write_set_change_index: i64,
    name: string,
    address: string,
    bytecode: Option<seq<u8>>,
    exposed_functions: Option<Json.Value>,
    friends: Option<Json.Value>,
    structs: Option<Json.Value>,
    is_deleted: bool,
    inserted_at: NaiveDateTime)

  /** What a successful ABI decode yields. */
  datatype MoveModuleByteCodeParsed = MoveModuleByteCodeParsed(
    address: string,
    name: string,
    bytecode: seq<u8>,
    exposed_functions: Json.Value,
    friends: Json.Value,
    structs: Json.Value)

  /** `j` is a JSON array holding, in order, the serialization of each element of `xs`. */
  predicate SerializedInOrder<T>(j: Json.Value, xs: seq<T>, toValue: T -> Json.Value) {
    && j.Array?
    && |j.items| == |xs|
    && forall i :: 0 <= i < |xs| ==> j.items[i] == toValue(xs[i])
  }

  /** The bytecode and the three metadata columns are all present or all absent. */
  predicate MetadataAllOrNothing(m: MoveModule) {
    && m.exposed_functions.Some? == m.bytecode.Some?
    && m.friends.Some? == m.bytecode.Some?
    && m.structs.Some? == m.bytecode.Some?
  }

  /** The table's invariant: metadata is all-or-nothing, and a deleted module has none. */
  predicate WellFormed(m: MoveModule) {
    MetadataAllOrNothing(m) && (m.is_deleted ==> m.bytecode.None?)
  }

  /** `xs.iter().map(toValue).collect()`: one serialized value per element, order kept. */
  function SerializeEach<T>(xs: seq<T>, toValue: T -> Json.Value): (r: seq<Json.Value>)
    ensures |r| == |xs|
    ensures forall i :: 0 <= i < |xs| ==> r[i] == toValue(xs[i])
  {
    if xs == [] then [] else [toValue(xs[0])] + SerializeEach(xs[1..], toValue)
  }

  /** `convert_move_module`: flattens an ABI, serializing its three collections. */
  function ConvertMoveModule(fmt: Formatter, ser: Serializer, move_module: Api.MoveModule, bytecode: seq<u8>)
    : (r: MoveModuleByteCodeParsed)
    ensures r.address == fmt.addressToString(move_module.address)
    ensures r.name == fmt.identifierToString(move_module.name)
    ensures r.bytecode == bytecode
    ensures SerializedInOrder(r.exposed_functions, move_module.exposed_functions, ser.functionToValue)
    ensures SerializedInOrder(r.friends, move_module.friends, ser.moduleIdToValue)
    ensures SerializedInOrder(r.structs, move_module.structs, ser.structToValue)
  {
    MoveModuleByteCodeParsed(
      address := fmt.addressToString(move_module.address),
      name := fmt.identifierToString(move_module.name),
      bytecode := bytecode,
      exposed_functions := Json.Array(SerializeEach(move_module.exposed_functions, ser.functionToValue)),
      friends := Json.Array(SerializeEach(move_module.friends, ser.moduleIdToValue)),
      structs := Json.Array(SerializeEach(move_module.structs, ser.structToValue)))
  }

  /** `convert_move_module_bytecode`: one parse attempt; a parse error and a parse without
      an ABI both give `None` (the warning it logs is not modelled). Otherwise the ABI is
      flattened together with the bytecode the parse returned. */
  function ConvertMoveModuleBytecode(parser: AbiParser, fmt: Formatter, ser: Serializer, mmb: Api.MoveModuleBytecode)
    : (r: Option<MoveModuleByteCodeParsed>)
    ensures r.None? <==> parser.tryParseAbi(mmb).Err? || parser.tryParseAbi(mmb).value.abi.None?
    ensures r.Some? ==>
      var parsed := parser.tryParseAbi(mmb).value;
      r.value == ConvertMoveModule(fmt, ser, parsed.abi.value, parsed.bytecode)
  {
    match parser.tryParseAbi(mmb)
    case Err(_) => None
    case Ok(parsed) => parsed.abi.Map(move_module => ConvertMoveModule(fmt, ser, move_module, parsed.bytecode))
  }

  /** `from_write_module`: the row of a published module. The address is the event's,
      whatever the decode gives; name, bytecode and metadata come from the decode, or are
      empty and absent when it gave `None`. */
  function FromWriteModule(
    parser: AbiParser, fmt: Formatter, ser: Serializer,
    write_module: Api.WriteModule, write_set_change_index: i64, transaction_version: i64,
    inserted_at: NaiveDateTime)
    : (r: MoveModule)
    ensures r.transaction_version == transaction_version
    ensures r.write_set_change_index == write_set_change_index
    ensures r.inserted_at == inserted_at
    ensures !r.is_deleted
    ensures r.address == fmt.addressToString(write_module.address)
    ensures match ConvertMoveModuleBytecode(parser, fmt, ser, write_module.data)
      case None =>
        && r.name == ""
        && r.bytecode.None? && r.exposed_functions.None? && r.friends.None? && r.structs.None?
      case Some(d) =>
        && r.name == d.name
        && r.bytecode == Some(d.bytecode)
        && r.exposed_functions == Some(d.exposed_functions)
        && r.friends == Some(d.friends)
        && r.structs == Some(d.structs)
    ensures WellFormed(r)
  {
    var parsed_data := ConvertMoveModuleBytecode(parser, fmt, ser, write_module.data);
    MoveModule(
      transaction_version := transaction_version,
      write_set_change_index := write_set_change_index,
      name := parsed_data.Map((d: MoveModuleByteCodeParsed) => d.name).UnwrapOr(""),
      address := fmt.addressToString(write_module.address),
      bytecode := parsed_data.Map((d: MoveModuleByteCodeParsed) => d.bytecode),
      exposed_functions := parsed_data.Map((d: MoveModuleByteCodeParsed) => d.exposed_functions),
      friends := parsed_data.Map((d: MoveModuleByteCodeParsed) => d.friends),
      structs := parsed_data.Map((d: MoveModuleByteCodeParsed) => d.structs),
      is_deleted := false,
      inserted_at := inserted_at)
  }

  /** `from_delete_module`: the row of a deleted module, named and addressed by the event. */
  function FromDeleteModule(
    fmt: Formatter, delete_module: Api.DeleteModule, write_set_change_index: i64,
    transaction_version: i64, inserted_at: NaiveDateTime)
    : (r: MoveModule)
    ensures r.transaction_version == transaction_version
    ensures r.write_set_change_index == write_set_change_index
    ensures r.inserted_at == inserted_at
    ensures r.is_deleted
    ensures r.name == fmt.identifierToString(delete_module.module_id.name)
    ensures r.address == fmt.addressToString(delete_module.address)
    ensures r.bytecode.None? && r.exposed_functions.None? && r.friends.None? && r.structs.None?
    ensures WellFormed(r)
  {
    MoveModule(
      transaction_version := transaction_version,
      write_set_change_index := write_set_change_index,
      name := fmt.identifierToString(delete_module.module_id.name),
      address := fmt.addressToString(delete_module.address),
      bytecode := None,
      exposed_functions := None,
      friends := None,
      structs := None,
      is_deleted := true,
      inserted_at := inserted_at)
  }

  /** A published module whose ABI decodes: every column comes from the parsed ABI and the
      bytes the parser returned, each metadata array one entry per ABI element, in order. */
  lemma PublishedAbiFlattened(
    parser: AbiParser, fmt: Formatter, ser: Serializer,
    write_module: Api.WriteModule, index: i64, version: i64, now: NaiveDateTime)
    requires parser.tryParseAbi(write_module.data).Ok?
    requires parser.tryParseAbi(write_module.data).value.abi.Some?
    ensures
      var parsed := parser.tryParseAbi(write_module.data).value;
      var abi := parsed.abi.value;
      var r := FromWriteModule(parser, fmt, ser, write_module, index, version, now);
      && !r.is_deleted
      && r.name == fmt.identifierToString(abi.name)
      && r.address == fmt.addressToString(write_module.address)
      && r.bytecode == Some(parsed.bytecode)
      && r.exposed_functions.Some? && SerializedInOrder(r.exposed_functions.value, abi.exposed_functions, ser.functionToValue)
      && r.friends.Some? && SerializedInOrder(r.friends.value, abi.friends, ser.moduleIdToValue)
      && r.structs.Some? && SerializedInOrder(r.structs.value, abi.structs, ser.structToValue)
  {
  }

  /** A published module whose ABI does not decode, for either reason, is still recorded as
      live, at the event's address, with an empty name and no bytecode or metadata, even
      though the event carried bytes. */
  lemma UndecodableModuleStaysLive(
    parser: AbiParser, fmt: Formatter, ser: Serializer,
    write_module: Api.WriteModule, index: i64, version: i64, now: NaiveDateTime)
    requires parser.tryParseAbi(write_module.data).Err? || parser.tryParseAbi(write_module.data).value.abi.None?
    ensures
      var r := FromWriteModule(parser, fmt, ser, write_module, index, version, now);
      && !r.is_deleted
      && r.name == ""
      && r.address == fmt.addressToString(write_module.address)
      && r.bytecode.None? && r.exposed_functions.None? && r.friends.None? && r.structs.None?
  {
  }

  /** The bytecode and the three metadata columns of a published row are all present
      exactly when the decode succeeded, and all absent otherwise. */
  lemma MetadataPresentIffDecoded(
    parser: AbiParser, fmt: Formatter, ser: Serializer,
    write_module: Api.WriteModule, index: i64, version: i64, now: NaiveDateTime)
    ensures
      var r := FromWriteModule(parser, fmt, ser, write_module, index, version, now);
      var decoded := ConvertMoveModuleBytecode(parser, fmt, ser, write_module.data).Some?;
      && (r.bytecode.Some? <==> decoded)
      && (r.exposed_functions.Some? <==> decoded)
      && (r.friends.Some? <==> decoded)
      && (r.structs.Some? <==> decoded)
  {
  }

  /** Every row either builder produces satisfies the table's invariant. */
  lemma BuildersKeepWellFormed(
    parser: AbiParser, fmt: Formatter, ser: Serializer,
    write_module: Api.WriteModule, delete_module: Api.DeleteModule,
    index: i64, version: i64, now: NaiveDateTime)
    ensures WellFormed(FromWriteModule(parser, fmt, ser, write_module, index, version, now))
    ensures WellFormed(FromDeleteModule(fmt, delete_module, index, version, now))
  {
  }

  /** Decode failure is never confused with deletion: no published row equals a deleted one. */
  lemma PublishIsNeverDeletion(
    parser: AbiParser, fmt: Formatter, ser: Serializer,
    write_module: Api.WriteModule, delete_module: Api.DeleteModule,
    index: i64, version: i64, now: NaiveDateTime, index': i64, version': i64, now': NaiveDateTime)
    ensures FromWriteModule(parser, fmt, ser, write_module, index, version, now)
         != FromDeleteModule(fmt, delete_module, index', version', now')
  {
  }

  /** Apart from `inserted_at`, each row depends only on its inputs, not on the clock. */
  lemma RowsIgnoreClock(
    parser: AbiParser, fmt: Formatter, ser: Serializer,
    write_module: Api.WriteModule, delete_module: Api.DeleteModule,
    index: i64, version: i64, now: NaiveDateTime, now': NaiveDateTime)
    ensures FromWriteModule(parser, fmt, ser, write_module, index, version, now).(inserted_at := now')
         == FromWriteModule(parser, fmt, ser, write_module, index, version, now')
    ensures FromDeleteModule(fmt, delete_module, index, version, now).(inserted_at := now')
         == FromDeleteModule(fmt, delete_module, index, version, now')
  {
  }
}
