/** Rows of the `user_transactions` table: one per executed user transaction, keyed by its
    ledger version, returned together with the rows of its signatures. A signature that is
    present but cannot be decoded aborts the whole conversion, so no partial row escapes. */
module UserTransactions {
  import opened Wrappers
  import opened RustTypes
  import Api = ApiTypes
  import opened Collaborators
  import opened Signatures

  /** A row of the table. */
  datatype UserTransaction = UserTransaction(
    version: i64,
    parent_signature_type: string,
    sender: string,
    sequence_number: i64,
    max_gas_amount: BigDecimal,
    expiration_timestamp_secs: NaiveDateTime,
    gas_unit_price: BigDecimal,
    timestamp: NaiveDateTime,
    inserted_at: NaiveDateTime,
    entry_function_id_str: string)

  /** `from_transaction`. The `Err` result stands for the panic of `unwrap` on a signature
      that fails to decode; `inserted_at` is the clock reading the source takes itself. */
  function FromTransaction(
    fmt: Formatter, util: Util, decoder: SignatureDecoder,
    txn: Api.UserTransaction, inserted_at: NaiveDateTime)
    : (r: Result<(UserTransaction, seq<Signature>), SignatureError>)
    // Only a present, undecodable signature fails.
    ensures r.Err? <==>
      && txn.request.signature.Some?
      && decoder.fromUserTransaction(
           txn.request.signature.value, fmt.addressToString(txn.request.sender),
           U64AsI64(txn.info.version)).Err?
    // The key is the version of the transaction's info, and every conversion logged under
    // a version, as well as the signature rows, uses that same value.
    ensures r.Ok? ==> r.value.0.version == U64AsI64(txn.info.version)
    ensures r.Ok? ==>
      && r.value.0.expiration_timestamp_secs
         == util.parseTimestampSecs(txn.request.expiration_timestamp_secs, r.value.0.version)
      && r.value.0.timestamp == util.parseTimestamp(txn.timestamp, r.value.0.version)
    ensures r.Ok? ==>
      && r.value.0.sender == fmt.addressToHexLiteral(txn.request.sender)
      && r.value.0.sequence_number == U64AsI64(txn.request.sequence_number)
    ensures r.Ok? ==>
      && r.value.0.max_gas_amount == util.u64ToBigdecimal(txn.request.max_gas_amount)
      && r.value.0.gas_unit_price == util.u64ToBigdecimal(txn.request.gas_unit_price)
    ensures r.Ok? ==> r.value.0.inserted_at == inserted_at
    // The entry function's identifier for that payload variant, and "" for every other.
    ensures r.Ok? ==>
      if txn.request.payload.EntryFunctionPayload? then
        r.value.0.entry_function_id_str == fmt.entryFunctionIdToString(txn.request.payload.function_id)
      else
        r.value.0.entry_function_id_str == ""
    // No signature: an empty type tag and no signature rows.
    ensures r.Ok? && txn.request.signature.None? ==>
      r.value.0.parent_signature_type == "" && r.value.1 == []
    // A signature: its type tag, and exactly the rows its decoder produced.
    ensures r.Ok? && txn.request.signature.Some? ==>
      && r.value.0.parent_signature_type == decoder.getSignatureType(txn.request.signature.value)
      && Ok(r.value.1) == decoder.fromUserTransaction(
           txn.request.signature.value, fmt.addressToString(txn.request.sender), r.value.0.version)
  {
    var version := U64AsI64(txn.info.version);
    var request := txn.request;
    var row := UserTransaction(
      version := version,
      parent_signature_type := request.signature.Map(decoder.getSignatureType).UnwrapOr(""),
      sender := fmt.addressToHexLiteral(request.sender),
      sequence_number := U64AsI64(request.sequence_number),
      max_gas_amount := util.u64ToBigdecimal(request.max_gas_amount),
      expiration_timestamp_secs := util.parseTimestampSecs(request.expiration_timestamp_secs, version),
      gas_unit_price := util.u64ToBigdecimal(request.gas_unit_price),
      timestamp := util.parseTimestamp(txn.timestamp, version),
      inserted_at := inserted_at,
      entry_function_id_str :=
        match request.payload
        case EntryFunctionPayload(function_id, _, _) => fmt.entryFunctionIdToString(function_id)
        case _ => "");
    match request.signature
    case None => Ok((row, []))
    case Some(s) =>
      match decoder.fromUserTransaction(s, fmt.addressToString(request.sender), version)
      case Err(e) => Err(e)
      case Ok(signatures) => Ok((row, signatures))
  }

  /** A transaction without a signature always converts, with an empty type tag and no
      signature rows. */
  lemma UnsignedTransactionHasNoSignatures(
    fmt: Formatter, util: Util, decoder: SignatureDecoder,
    txn: Api.UserTransaction, now: NaiveDateTime)
    requires txn.request.signature.None?
    ensures
      var r := FromTransaction(fmt, util, decoder, txn, now);
      r.Ok? && r.value.0.parent_signature_type == "" && r.value.1 == []
  {
  }

  /** Within the range of `i64` the key is the info's version itself; beyond it the key
      wraps, yet distinct versions still give distinct keys. */
  lemma VersionIsTheKey(
    fmt: Formatter, util: Util, decoder: SignatureDecoder,
    txn: Api.UserTransaction, txn': Api.UserTransaction, now: NaiveDateTime, now': NaiveDateTime)
    requires FromTransaction(fmt, util, decoder, txn, now).Ok?
    requires FromTransaction(fmt, util, decoder, txn', now').Ok?
    ensures txn.info.version as int < TWO_63 ==>
      FromTransaction(fmt, util, decoder, txn, now).value.0.version as int == txn.info.version as int
    ensures FromTransaction(fmt, util, decoder, txn, now).value.0.version
         == FromTransaction(fmt, util, decoder, txn', now').value.0.version
        ==> txn.info.version == txn'.info.version
  {
  }

  /** Only the entry-function payload yields a non-empty `entry_function_id_str`. */
  lemma EntryFunctionIdOnlyForEntryFunctions(
    fmt: Formatter, util: Util, decoder: SignatureDecoder,
    txn: Api.UserTransaction, now: NaiveDateTime)
    requires FromTransaction(fmt, util, decoder, txn, now).Ok?
    requires FromTransaction(fmt, util, decoder, txn, now).value.0.entry_function_id_str != ""
    ensures txn.request.payload.EntryFunctionPayload?
  {
  }

  /** Converting the same transaction twice gives the same outcome, rows equal apart from
      `inserted_at`. */
  lemma ConversionIgnoresClock(
    fmt: Formatter, util: Util, decoder: SignatureDecoder,
    txn: Api.UserTransaction, now: NaiveDateTime, now': NaiveDateTime)
    ensures
      var r := FromTransaction(fmt, util, decoder, txn, now);
      var r' := FromTransaction(fmt, util, decoder, txn, now');
      && r.Ok? == r'.Ok?
      && (r.Ok? ==> r.value.0.(inserted_at := now') == r'.value.0 && r.value.1 == r'.value.1)
      && (r.Err? ==> r.error == r'.error)
  {
  }
}
