/** Shared data model of the bridge module: addresses, coins, the bridge
    messages, oracle claims and statuses, events, errors, and the foreign
    library functions (Bech32 address codec, coin parsing) the core calls. */
module BridgeTypes {

  datatype Option<+T> = None | Some(value: T) {
    predicate IsFailure() { None? }
    function PropagateFailure<U>(): Option<U> requires None? { None }
    function Extract(): T requires Some? { value }
  }

  datatype Result<+T, +E> = Success(value: T) | Failure(error: E) {
    predicate IsFailure() { Failure? }
    function PropagateFailure<U>(): Result<U, E> requires Failure? { Failure(error) }
    function Extract(): T requires Success? { value }
  }

  newtype byte = x: int | 0 <= x < 256

  /** `sdk.ValAddress` and `sdk.AccAddress` are byte slices; the empty slice
      is Go's zero value. */
  type ValAddress = seq<byte>
  type AccAddress = seq<byte>

  /** One `sdk.Coin`; `sdk.Coins` is a list of them. */
  datatype Coin = Coin(denom: string, amount: nat)
  type Coins = seq<Coin>

  /** A key/value pair: the attributes of an event (`kv.Pair`). */
  datatype Pair = Pair(key: string, value: string)

  datatype Event = Event(eventType: string, attributes: seq<Pair>)

  /** The errors the core produces or passes on. Errors made by collaborators
      that are not modelled (the oracle, the library decoders) are any value
      of this type. */
  datatype Error =
    | DecodeFailure(cause: string)        // a Bech32 or coin string that does not parse
    | JSONMarshalling(detail: string)     // ErrJSONMarshalling, wrapped with a message
    | InvalidClaimType                    // ErrInvalidClaimType
    | UnknownRequest(detail: string)      // sdkerrors.ErrUnknownRequest, wrapped with a message
    | InsufficientFunds
    | InvalidCoins
    | UnknownModule(name: string)
    | BlockedAddress(address: AccAddress)
    | NoPermission(name: string)
    | OracleFailure(cause: string)

  /** The bridge's transaction messages. */
  datatype MsgPegClaim = MsgPegClaim(
    address: ValAddress, mainchainTxHash: string, toAddress: AccAddress, amount: Coins)

  datatype MsgUnpeg = MsgUnpeg(address: AccAddress, mainchainAddress: string)

  datatype MsgUnpegNotCosignedClaim = MsgUnpegNotCosignedClaim(
    address: ValAddress, txHash: string, notCosignedValidators: seq<ValAddress>)

  datatype MsgInvitationNotCosignedClaim = MsgInvitationNotCosignedClaim(
    address: ValAddress, txHash: string, mainchainAddress: string, firstCosignerAddress: ValAddress)

  /** `oracle.Claim`: the claim id, the voting validator and the content string. */
  datatype Claim = Claim(id: string, validatorAddress: ValAddress, content: string)

  datatype StatusText = PendingStatusText | SuccessStatusText | FailedStatusText

  /** `oracle.Status`: the prophecy's status and, once decided, its final claim. */
  datatype Status = Status(text: StatusText, finalClaim: string)

  /** The text form of a status, as emitted in events. */
  function StatusString(t: StatusText): (s: string)
    ensures s != ""
  {
    match t
    case PendingStatusText => "pending"
    case SuccessStatusText => "success"
    case FailedStatusText => "failed"
  }

  /** The foreign library calls of the core: Bech32 decoding
      (`sdk.ValAddressFromBech32`, `sdk.AccAddressFromBech32`), the addresses'
      `String()` methods and `sdk.ParseCoins`. They are not re-implemented;
      the model is parametric in them. On an error Go returns the zero value
      with the error, which the `Failure` case stands for. */
  datatype Library = Library(
    valAddressFromBech32: string -> Result<ValAddress, Error>,
    accAddressFromBech32: string -> Result<AccAddress, Error>,
    valAddressString: ValAddress -> string,
    accAddressString: AccAddress -> string,
    parseCoins: string -> Result<Coins, Error>)

  /** The text of an address as its `String()` method gives it: "" for the
      empty address, the Bech32 text otherwise. */
  function ValAddressText(lib: Library, a: ValAddress): string {
    if |a| == 0 then "" else lib.valAddressString(a)
  }

  function AccAddressText(lib: Library, a: AccAddress): string {
    if |a| == 0 then "" else lib.accAddressString(a)
  }

  /** The value a Go decoder call leaves in its target: the decoded value,
      or the zero value when it failed. */
  function ValueOr<T>(r: Result<T, Error>, zero: T): (v: T)
    ensures r.Success? ==> v == r.value
    ensures r.Failure? ==> v == zero
  {
    if r.Success? then r.value else zero
  }

  /** The `err` a Go decoder call returns. */
  function ErrorOf<T>(r: Result<T, Error>): (e: Option<Error>)
    ensures e.None? <==> r.Success?
    ensures r.Failure? ==> e == Some(r.error)
  {
    if r.Success? then None else Some(r.error)
  }

  /** `sdk.AddrLen`. The relayer configures only the Bech32 prefixes and no
      address verifier (cmd/pxbrelayer/main.go:38-43). The chain node, where
      claims are decoded, is assumed to be configured the same way, so the
      SDK's `FromBech32` decoders refuse every decoded address of another
      length. */
  const AddrLen: nat := 20

  /** An address as the SDK's decoders can return it: empty (the zero value)
      or `AddrLen` bytes. */
  predicate WellFormedAddress(a: seq<byte>) {
    |a| == 0 || |a| == AddrLen
  }

  /** The SDK's Bech32 codec as the relayer configures it, and as the chain
      node is assumed to: a non-empty
      address prints to non-empty text, and decoding that text gives the
      address back when it has `AddrLen` bytes and fails otherwise (the
      length check that follows the Bech32 decode). */
  ghost predicate Bech32RoundTrip(lib: Library) {
    && (forall a: ValAddress {:trigger lib.valAddressString(a)} :: |a| > 0 ==>
          && lib.valAddressString(a) != ""
          && (|a| == AddrLen ==> lib.valAddressFromBech32(lib.valAddressString(a)) == Success(a))
          && (|a| != AddrLen ==> lib.valAddressFromBech32(lib.valAddressString(a)).Failure?))
    && (forall a: AccAddress {:trigger lib.accAddressString(a)} :: |a| > 0 ==>
          && lib.accAddressString(a) != ""
          && (|a| == AddrLen ==> lib.accAddressFromBech32(lib.accAddressString(a)) == Success(a))
          && (|a| != AddrLen ==> lib.accAddressFromBech32(lib.accAddressString(a)).Failure?))
  }

  /** The `String()` methods print every non-empty address to non-empty
      text, and no two addresses to the same text: Bech32 is an injective
      encoding of the bytes, whatever their length. */
  ghost predicate AddressTextInjective(lib: Library) {
    && (forall a: ValAddress {:trigger lib.valAddressString(a)} :: |a| > 0 ==> lib.valAddressString(a) != "")
    && (forall a: ValAddress, b: ValAddress {:trigger lib.valAddressString(a), lib.valAddressString(b)} ::
          |a| > 0 && |b| > 0 && lib.valAddressString(a) == lib.valAddressString(b) ==> a == b)
    && (forall a: AccAddress {:trigger lib.accAddressString(a)} :: |a| > 0 ==> lib.accAddressString(a) != "")
    && (forall a: AccAddress, b: AccAddress {:trigger lib.accAddressString(a), lib.accAddressString(b)} ::
          |a| > 0 && |b| > 0 && lib.accAddressString(a) == lib.accAddressString(b) ==> a == b)
  }
}
