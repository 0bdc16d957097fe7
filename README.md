# Aptos indexer record builders

A Dafny model of two record builders of the Aptos indexer. Each one flattens a value of the
node API into storage rows:

- `MoveModule::from_write_module` and `from_delete_module` turn a module publish or a
  module delete (a write-set change) into a row of `move_modules`. Publishing decodes the
  module's ABI through `convert_move_module_bytecode` and `convert_move_module`. A decode
  that fails, or that yields no ABI, gives a live row with an empty name and no bytecode or
  metadata. It is never treated as a deletion.
- `UserTransaction::from_transaction` turns an executed user transaction into a row of
  `user_transactions` plus the rows of its signatures.

Everything is modelled as datatypes and pure functions, as in the source. The code the
builders call whose source is not part of this model gets no model of its own. That is
the ABI parser, the JSON serializer, address and identifier formatting, signature
decoding, and the timestamp and decimal helpers. Each is a total function-typed field of a collaborator datatype
(module `Collaborators`, plus `Signatures` for the signature decoder), and the builders take
it as a parameter. So each contract says which collaborator a column comes from and with
which arguments. The wall clock behind `inserted_at` is a parameter too.

Rust's `as i64` on a `u64` is modelled explicitly (`RustTypes.U64AsI64`) as a
two's-complement reinterpretation. Values at or above 2^63 wrap to negatives.

Files: `common.dfy` (Option/Result, fixed-width integers and casts, the chrono and
bigdecimal values, JSON values), `api_types.dfy` (the API values read),
`collaborators.dfy` (the external functions and the signature row),
`move_modules.dfy`, `user_transactions.dfy`.

The rows are datatypes with the source's columns: `MoveModules.MoveModule`
(crates/indexer/src/models/move_modules.rs:15-27), `MoveModules.MoveModuleByteCodeParsed`
(crates/indexer/src/models/move_modules.rs:29-36) and `UserTransactions.UserTransaction`
(crates/indexer/src/models/user_transactions.rs:23-34). The predicate
`MoveModules.WellFormed` is the `move_modules` table's invariant: the bytecode and the three
metadata columns are all present or all absent, and a deleted module has none of them.

Two behaviours of the source that the model keeps:

- The bytes stored for a decoded module are the bytes that `try_parse_abi` returned, not
  the event's own bytes.
- A signature that fails to decode is not returned as an explicit failure. It panics
  through `unwrap`. The model writes that panic as an `Err` result that carries no row at
  all.

## Model

| member | source | states |
|---|---|---|
| MoveModules.SerializeEach | crates/indexer/src/models/move_modules.rs:108-122 | `iter().map(to_value).collect()`: the result has one entry per source element, and entry i is the serialization of element i, so order is kept |
| MoveModules.ConvertMoveModule | crates/indexer/src/models/move_modules.rs:100-124 | address and name are the formatted ABI address and name, the bytecode is passed through unchanged, and each of exposed_functions, friends and structs is a JSON array serializing its ABI collection element by element, in order |
| MoveModules.ConvertMoveModuleBytecode | crates/indexer/src/models/move_modules.rs:81-98 | `None` exactly when the parse fails or succeeds without an ABI; otherwise the conversion of the parsed ABI together with the bytecode the parse returned |
| MoveModules.FromWriteModule | crates/indexer/src/models/move_modules.rs:39-60 | never deleted; the address is always the event's; version, index and inserted_at are passed through; a `None` decode gives name "" and all four optional columns absent; a decode `Some(d)` gives d's name and all four columns present with d's values; the row is well formed |
| MoveModules.FromDeleteModule | crates/indexer/src/models/move_modules.rs:62-79 | always deleted, with bytecode, exposed_functions, friends and structs absent whatever the input; name and address come from the delete event; version, index and inserted_at are passed through |
| MoveModules.PublishedAbiFlattened | crates/indexer/src/models/move_modules.rs:44-57 | when the parse yields an ABI, the published row is live, named by the ABI, addressed by the event, holds the parsed bytes, and holds each metadata array as the in-order serialization of the ABI's collection |
| MoveModules.UndecodableModuleStaysLive | crates/indexer/src/models/move_modules.rs:44-57 | when the parse fails or has no ABI, the published row is still live, at the event's address, with an empty name and no bytecode or metadata, although the event carried bytes |
| MoveModules.MetadataPresentIffDecoded | crates/indexer/src/models/move_modules.rs:53-56 | each of a published row's bytecode, exposed_functions, friends and structs is present exactly when the decode succeeded |
| MoveModules.BuildersKeepWellFormed | crates/indexer/src/models/move_modules.rs:39-79 | every row from either builder keeps the table's invariant: metadata all-or-nothing, and none on a deleted module |
| MoveModules.PublishIsNeverDeletion | crates/indexer/src/models/move_modules.rs:57-76 | no published row equals any deleted row: decode failure is never confused with deletion |
| MoveModules.RowsIgnoreClock | crates/indexer/src/models/move_modules.rs:45-78 | building a module row twice from the same event gives rows that differ only in inserted_at |
| UserTransactions.FromTransaction | crates/indexer/src/models/user_transactions.rs:37-74 | fails exactly when a signature is present and its decode fails, and then no row is returned; version is the info's version cast to i64, and that same value is passed to both timestamp conversions and to the signature decoder; sender is the hex literal of the request's sender; sequence_number is the cast sequence number; max_gas_amount and gas_unit_price are u64_to_bigdecimal of the request's fields; with no signature the type tag is "" and there are no signature rows; with a signature the tag is its get_signature_type and the rows are exactly the decoder's; entry_function_id_str is the function identifier for an entry-function payload and "" for every other variant |
| UserTransactions.UnsignedTransactionHasNoSignatures | crates/indexer/src/models/user_transactions.rs:42-72 | a transaction without a signature always converts, with an empty signature type and no signature rows |
| UserTransactions.VersionIsTheKey | crates/indexer/src/models/user_transactions.rs:38 | below 2^63 the key equals the info's version; beyond that it wraps, but distinct versions still give distinct keys |
| UserTransactions.EntryFunctionIdOnlyForEntryFunctions | crates/indexer/src/models/user_transactions.rs:58-63 | a non-empty entry_function_id_str implies an entry-function payload |
| UserTransactions.ConversionIgnoresClock | crates/indexer/src/models/user_transactions.rs:37-74 | converting the same transaction twice gives the same outcome and the same error, or rows equal apart from inserted_at together with the same signature rows |
| RustTypes.U64AsI64 | crates/indexer/src/models/user_transactions.rs:38-49 | `as i64` on a u64 keeps the value modulo 2^64, is non-negative exactly below 2^63, and keeps the value unchanged there |
| RustTypes.U64AsI64RoundTrip | crates/indexer/src/models/user_transactions.rs:38 | reading the cast's bits back as a u64 gives the original value |
| RustTypes.U64AsI64Injective | crates/indexer/src/models/user_transactions.rs:38 | distinct u64 values cast to distinct i64 values |

## Left out

- The external functions are parameters with no model of their own. These are
  `try_parse_abi`, `serde_json::to_value`, address and identifier `to_string` and
  `to_hex_literal`, `Signature::get_signature_type` and `Signature::from_user_transaction`,
  and `u64_to_bigdecimal`, `parse_timestamp` and `parse_timestamp_secs`. Their code is not
  part of this model. So nothing is proved about what they compute: not the
  `0x1::coin::transfer` rendering, not the lossless decimal widening, and not any timestamp
  clamp bound.
- The serializer is total. The panic of its `unwrap` is not modelled.
- The `aptos_logger::warn!` diagnostic on a failed ABI decode is not modelled. It has no
  effect on the result.
- `chrono::Utc::now()` becomes the `inserted_at` parameter.
- API values model only the fields the builders read, for example the version of
  `TransactionInfo` and a single opaque byte string for each signature scheme. Signature
  rows expose the version, signer and type, and the rest of their columns are opaque,
  because signatures.rs is not part of this model.
- JSON numbers are integers only. No builder here produces a number.
- Diesel derives, the table bindings and the `belongs_to` associations are persistence
  plumbing and are not modelled.
- UserTransactions.FromTransaction: the source panics when a present signature fails to
  decode. The model returns `Err` instead, with no partial row.
