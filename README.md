# ProxiMax peg zone bridge — a Dafny model

This project models the core of the ProxiMax peg zone's bridge. The peg zone is a Cosmos SDK chain. Its relayer watches events. It translates them into bridge messages, and validators sign those messages. On chain, the bridge module turns each message into an oracle claim and settles claims that reach consensus. Settlement mints coins for peg-ins, and the module also burns and locks coins. The model has four parts:

- **The relayer's event translators** (`parser.dfy`, module `EventParser`).
  - `PegClaimEventToCosmosMsg` and `UnpegNotCosignedClaimEventToCosmosMsg` are imperative methods with the source's loop over the attributes.
  - Inside the second is the inner loop over comma-separated validator addresses. It is `AppendValidators`, which exits early at the first bad address.
  - Each method is proved equal to a specification function. For example, `PegClaimFromAttributes` says which attribute each field comes from.
  - The source's quirks are lemmas about those functions:
    - the last occurrence of a key wins;
    - unknown keys are ignored;
    - there is no required-key check;
    - `err` holds only the latest decode's outcome;
    - the shadowed inner `err` silently truncates the validator list;
    - validator lists accumulate.
- **The claim codec** (`json.dfy`, module `Json`, and `claim.dfy`, module `ClaimCodec`).
  - A message becomes an oracle claim: its id, its validator, and the message's JSON as content.
  - A content string is read back into a message.
  - The JSON is a flat object, written the way Go's `encoding/json` writes it:
    - string escaping per section 7 of RFC 8259, including Go's `\u` escapes for `<`, `>`, `&`, U+2028 and U+2029;
    - `sdk.Int` amounts as quoted decimals;
    - a nil slice as `null`;
    - the empty address as `""`.
  - The round trip, the injectivity of contents, and the rejection of malformed input are proved for each of the three message kinds.
- **The keeper's settlement logic** (`keeper.dfy`, module `BridgeKeeper`).
  - `ProcessClaim`, `ProcessSuccessfulClaim`, `ProcessBurn` and `ProcessLock` are methods of a `Keeper` class. That class holds a supply keeper and an oracle keeper.
  - These two collaborators are in-memory classes (`supply.dfy`, module `Supply`) with the signatures of `expected_keepers.go`:
    - the supply store has per-account balances, the bridge module account's balance and the total supply;
    - the oracle records every claim it gets and answers with a status.
  - Each method is proved against a pure function on the store's `Ledger` value. The properties are proved about those functions:
    - error before mutation;
    - each operation's net effect;
    - which failures abort (a Go `panic`);
    - conservation of supply (the supply of each denomination equals what the module account and all accounts hold).
- **The message handler** (`handler.dfy`, module `Handler`).
  - `Dispatch` is the routing of `NewHandler`, as a function of the keeper's answers. It routes on the message variant.
  - The `MsgHandler` class's `Handle` method creates a fresh `EventManager` for each message. Its `handleMsg*` methods call an abstract keeper and emit events step by step.
  - The methods are proved against `Dispatch`. What the handler promises is proved about `Dispatch`:
    - unknown messages are rejected;
    - errors propagate;
    - settlement happens exactly when the status is Success;
    - the exact event lists.

`types.dfy` (module `BridgeTypes`) holds the shared data model:

- addresses, coins, key/value pairs and events;
- the four bridge messages;
- oracle claims and statuses;
- the error codes.

It also holds the `Library` datatype, which bundles the foreign library calls the core depends on:

- Bech32 decoding of validator and account addresses;
- the addresses' `String()` methods;
- `sdk.ParseCoins`.

The model does not re-implement those calls. Every operation takes them as a parameter. The claim lemmas assume one of two things about them. `Bech32RoundTrip` describes the SDK's codec as the relayer configures it, with the Bech32 prefixes and no address verifier (`cmd/pxbrelayer/main.go:38-43`). Claims are decoded on the chain node, whose configuration is not part of this model; it is assumed to use the same prefixes and no address verifier. Under it, a non-empty address prints to non-empty text. Decoding that text gives the address back when it has 20 bytes (`sdk.AddrLen`) and fails otherwise, because of the length check after the Bech32 decode. `AddressTextInjective` says only that printing is injective, which Bech32 is for every length. `SdkCodecExists` shows that one library can satisfy both.

Three properties one might expect of such a bridge do not hold in the code, and the model follows the code:

- **Settlement is not idempotent.** One would expect a replayed claim to be a no-op. `ProcessSuccessfulClaim` keeps no settlement record, so settling the same claim twice pays twice. `SettleTwicePaysTwice` states this.
- **An invalid claim type is not fatal.** One would expect an unknown claim type to halt as an invariant violation. The code returns `ErrInvalidClaimType` as an ordinary error before anything is minted. Only a failed transfer after a successful mint, or a failed burn after a successful transfer, is fatal: it is a `panic`, modelled as the completion `Aborted`.
- **Translation does not check its input.** One would expect translation to fail on a missing key and to report which field was malformed. The code has no required-key check. It returns the decoder's error as it is. It drops the validator addresses' errors.

## Model

| member | source | states |
|---|---|---|
| EventParser.PegClaimEventToCosmosMsg | cmd/pxbrelayer/txs/parser.go:12-42 | the loop returns exactly `PegClaimFromAttributes`: each field is taken from the last attribute with its key (zero value when absent, zero value when its decode failed). The error is that of the last decoded attribute. |
| EventParser.PegClaimIgnoresUnknownKeys | cmd/pxbrelayer/txs/parser.go:19-35 | removing every attribute whose key is not recognised leaves the result unchanged |
| EventParser.PegClaimLastOccurrenceWins | cmd/pxbrelayer/txs/parser.go:19-35 | for a key that occurs several times, the field takes the value of its last occurrence |
| EventParser.PegClaimErrorFromLastDecode | cmd/pxbrelayer/txs/parser.go:17-39 | the result succeeds iff the last `cosmos_sender`/`to_address`/`amount` attribute decodes, so an earlier failure is cleared by a later success. Otherwise its error is returned. |
| EventParser.PegClaimNoRequiredKeys | cmd/pxbrelayer/txs/parser.go:13-41 | without any decoded attribute a message is always built, with empty sender, receiver and amount |
| EventParser.PegClaimAbsentFieldsAreZero | cmd/pxbrelayer/txs/parser.go:13-41 | with no error, each key that is absent leaves its own field at the zero value (empty sender, tx hash "", empty receiver, no coins), whatever else is present |
| EventParser.PegClaimTxHashVerbatim | cmd/pxbrelayer/txs/parser.go:26-28 | wherever the last `mainchain_tx_hash` attribute stands, it neither causes nor clears an error: a failure is the result without it, and a success is that result with its value as the tx hash, copied verbatim |
| EventParser.Split | cmd/pxbrelayer/txs/parser.go:61 | `strings.Split` on one character: at least one piece, no piece contains the separator, and joining the pieces gives the input back |
| EventParser.SplitJoin | cmd/pxbrelayer/txs/parser.go:61 | splitting a join of separator-free pieces gives the pieces back |
| EventParser.DecodedPrefix | cmd/pxbrelayer/txs/parser.go:61-67 | the result is the longest prefix of the pieces whose addresses all decode, decoded; the next piece, if any, fails to decode |
| EventParser.AppendValidators | cmd/pxbrelayer/txs/parser.go:61-67 | the inner loop appends exactly the decoded longest decodable prefix of the pieces and stops at the first bad address |
| EventParser.UnpegNotCosignedClaimEventToCosmosMsg | cmd/pxbrelayer/txs/parser.go:44-76 | the loop returns exactly `NotCosignedFromAttributes`: sender and tx hash from their last attributes, validators accumulated from every list attribute, error only from the last `cosmos_sender` |
| EventParser.NotCosignedValidatorsTruncate | cmd/pxbrelayer/txs/parser.go:60-68 | one `not_cosigned_validators` attribute adds the longest decodable prefix of its list and never changes the error |
| EventParser.NotCosignedValidatorsAccumulate | cmd/pxbrelayer/txs/parser.go:47-68 | the validators of a concatenation of attributes are the concatenation of the two parts' validators |
| EventParser.NotCosignedIgnoresUnknownKeys | cmd/pxbrelayer/txs/parser.go:50-70 | removing every attribute whose key is not recognised leaves the result unchanged |
| EventParser.NotCosignedErrorFromLastSender | cmd/pxbrelayer/txs/parser.go:54-73 | the result succeeds iff the last `cosmos_sender` decodes; on failure its error is returned, on success the address is its decoding |
| EventParser.NotCosignedNoRequiredKeys | cmd/pxbrelayer/txs/parser.go:45-75 | without a `cosmos_sender` the translation always succeeds, with the empty address, whatever the validator lists hold |
| EventParser.NotCosignedValidatorsAbsent | cmd/pxbrelayer/txs/parser.go:47 | without a `not_cosigned_validators` attribute the validator list is empty |
| EventParser.NotCosignedAbsentFieldsAreZero | cmd/pxbrelayer/txs/parser.go:45-75 | with no error, each key that is absent leaves its own field at the zero value (empty sender, tx hash "", no validators), whatever else is present |
| EventParser.NotCosignedTxHashVerbatim | cmd/pxbrelayer/txs/parser.go:57-59 | wherever the last `tx_hash` attribute stands, it neither causes nor clears an error: a failure is the result without it, and a success is that result with its value as the tx hash, copied verbatim |
| Json.StringRoundTrip | x/proximax-bridge/internal/types/claim.go:14 | a string literal written with Go's escaping reads back as the same string, followed by the text after it |
| Json.ShowNatRoundTrip | x/proximax-bridge/internal/types/claim.go:14 | the decimal text of an amount parses back to the amount |
| Json.Expect | x/proximax-bridge/internal/types/claim.go:52 | matching fixed text succeeds iff the input starts with it, and the unread text is what follows it |
| ClaimCodec.ReadableIffWellFormed | cmd/pxbrelayer/main.go:38-43 | with the SDK's codec (the relayer's configuration, assumed on the node too), an address's printed text decodes back to it iff the address is empty or has 20 bytes |
| ClaimCodec.SdkCodecExists | cmd/pxbrelayer/main.go:38-43 | some library satisfies both `Bech32RoundTrip` and `AddressTextInjective`, so the lemmas that assume them are not vacuous |
| ClaimCodec.ValAddressRoundTrip | x/proximax-bridge/internal/types/claim.go:14 | with the SDK's codec, a written validator address reads back as the same address iff it is empty or has 20 bytes; an address of any other length is refused |
| ClaimCodec.AccAddressRoundTrip | x/proximax-bridge/internal/types/claim.go:14 | with the SDK's codec, a written account address reads back as the same address iff it is empty or has 20 bytes; an address of any other length is refused |
| ClaimCodec.CoinsRoundTrip | x/proximax-bridge/internal/types/claim.go:14 | a written coin list (`null` when empty) reads back as the same list |
| ClaimCodec.ValAddressesRoundTrip | x/proximax-bridge/internal/types/claim.go:25 | with the SDK's codec, a written validator list (`null` when empty) reads back as the same list iff every address in it is well formed; otherwise it is refused |
| ClaimCodec.PegClaimObjectRoundTrip | x/proximax-bridge/internal/types/claim.go:14 | with the SDK's codec, the JSON object of a peg claim reads back as the message, leaving the text after it, iff its two addresses are well formed; otherwise it is refused |
| ClaimCodec.NotCosignedClaimObjectRoundTrip | x/proximax-bridge/internal/types/claim.go:25 | with the SDK's codec, the JSON object of a not-cosigned claim reads back as the message iff its sender and every listed validator are well formed; otherwise it is refused |
| ClaimCodec.InvitationClaimObjectRoundTrip | x/proximax-bridge/internal/types/claim.go:36 | with the SDK's codec, the JSON object of an invitation claim reads back as the message iff its two addresses are well formed; otherwise it is refused |
| ClaimCodec.PegClaimObjectReadBack | x/proximax-bridge/internal/types/claim.go:14 | for any library that reads back the message's addresses, the JSON object of a peg claim reads back as the message |
| ClaimCodec.NotCosignedClaimObjectReadBack | x/proximax-bridge/internal/types/claim.go:25 | for any library that reads back the message's addresses, the JSON object of a not-cosigned claim reads back as the message |
| ClaimCodec.InvitationClaimObjectReadBack | x/proximax-bridge/internal/types/claim.go:36 | for any library that reads back the message's addresses, the JSON object of an invitation claim reads back as the message |
| ClaimCodec.CreateOracleClaimFromMsgPegClaim | x/proximax-bridge/internal/types/claim.go:12-21 | the claim's id is the mainchain tx hash and its validator is the message's address |
| ClaimCodec.CreateOracleClaimFromMsgUnpegNotCosignedClaim | x/proximax-bridge/internal/types/claim.go:23-32 | the claim's id is the tx hash and its validator is the message's address |
| ClaimCodec.CreateOracleClaimFromMsgInvitationNotCosignedClaim | x/proximax-bridge/internal/types/claim.go:34-43 | the claim's id is the tx hash and its validator is the message's address |
| ClaimCodec.CreateMsgPegClaimFromOracleString | x/proximax-bridge/internal/types/claim.go:48-57 | fails iff the string is not exactly one peg-claim object, and then with an ErrJSONMarshalling "failed to parse claim" error |
| ClaimCodec.CreateMsgUnpegNotCosignedClaimFromOracleString | x/proximax-bridge/internal/types/claim.go:62-71 | fails iff the string is not exactly one not-cosigned-claim object, and then with an ErrJSONMarshalling "failed to parse claim" error |
| ClaimCodec.CreateMsgInvitationNotCosignedClaimFromOracleString | x/proximax-bridge/internal/types/claim.go:76-85 | fails iff the string is not exactly one invitation-claim object, and then with an ErrJSONMarshalling "failed to parse claim" error |
| ClaimCodec.PegClaimRoundTrip | x/proximax-bridge/internal/types/claim.go:12-57 | with the SDK's codec, decoding the content of a peg claim's oracle claim gives the message back when its addresses are empty or 20 bytes long, and fails with ErrJSONMarshalling otherwise |
| ClaimCodec.NotCosignedClaimRoundTrip | x/proximax-bridge/internal/types/claim.go:23-71 | with the SDK's codec, decoding the content of a not-cosigned claim's oracle claim gives the message back when its sender and all listed validators are well formed, and fails with ErrJSONMarshalling otherwise |
| ClaimCodec.InvitationClaimRoundTrip | x/proximax-bridge/internal/types/claim.go:34-85 | with the SDK's codec, decoding the content of an invitation claim's oracle claim gives the message back when its two addresses are well formed, and fails with ErrJSONMarshalling otherwise |
| ClaimCodec.PegClaimContentInjective | x/proximax-bridge/internal/types/claim.go:12-21 | when printing addresses is injective, two peg claims with the same content string are the same message, whatever the addresses' lengths |
| ClaimCodec.NotCosignedClaimContentInjective | x/proximax-bridge/internal/types/claim.go:23-32 | when printing addresses is injective, two not-cosigned claims with the same content string are the same message, whatever the addresses' lengths |
| ClaimCodec.InvitationClaimContentInjective | x/proximax-bridge/internal/types/claim.go:34-43 | when printing addresses is injective, two invitation claims with the same content string are the same message, whatever the addresses' lengths |
| ClaimCodec.TrailingTextRejected | x/proximax-bridge/internal/types/claim.go:48-85 | with the SDK's codec, the model's strict reader refuses with ErrJSONMarshalling any written content string followed by further text, for each kind |
| ClaimCodec.NonObjectRejected | x/proximax-bridge/internal/types/claim.go:48-85 | the model's strict reader refuses with ErrJSONMarshalling a string whose first character is not `{`, the empty string among them, for each kind |
| Supply.Mint | x/proximax-bridge/internal/types/expected_keepers.go:29 | succeeds iff the module is the bridge's, it may mint, and the coins are valid. Another module name is an unknown module. On success the module account and the supply grow by the amount, and the accounts are untouched. |
| Supply.Burn | x/proximax-bridge/internal/types/expected_keepers.go:30 | succeeds iff the module is the bridge's, it may burn, the coins are valid, and the module account and supply hold them. On success both shrink by the amount, and the accounts are untouched. |
| Supply.SendModuleToAccount | x/proximax-bridge/internal/types/expected_keepers.go:27 | succeeds iff the module is the bridge's, the recipient is not blocked, the coins are valid, and the module holds them. A blocked recipient is refused by address. On success the recipient gains and the module loses the amount, nothing else changes, and the supply is unchanged. |
| Supply.SendAccountToModule | x/proximax-bridge/internal/types/expected_keepers.go:28 | succeeds iff the module is the bridge's, the coins are valid, and the sender holds them. On success the sender loses and the module gains the amount, nothing else changes, and the supply is unchanged. |
| Supply.MintConserves | x/proximax-bridge/internal/types/expected_keepers.go:29 | a mint keeps supply equal to module plus accounts, per denomination |
| Supply.BurnConserves | x/proximax-bridge/internal/types/expected_keepers.go:30 | a burn keeps supply equal to module plus accounts, per denomination |
| Supply.SendModuleToAccountConserves | x/proximax-bridge/internal/types/expected_keepers.go:27 | a module-to-account send keeps supply equal to module plus accounts |
| Supply.SendAccountToModuleConserves | x/proximax-bridge/internal/types/expected_keepers.go:28 | an account-to-module send keeps supply equal to module plus accounts |
| Supply.ConservedSupplyCoversModule | x/proximax-bridge/internal/types/expected_keepers.go:30 | in a conserved store the supply covers whatever the module account holds |
| Supply.SupplyKeeper.MintCoins | x/proximax-bridge/internal/types/expected_keepers.go:29 | applies `Mint`, leaving the store unchanged on error, and keeps conservation |
| Supply.SupplyKeeper.BurnCoins | x/proximax-bridge/internal/types/expected_keepers.go:30 | applies `Burn`, leaving the store unchanged on error, and keeps conservation |
| Supply.SupplyKeeper.SendCoinsFromModuleToAccount | x/proximax-bridge/internal/types/expected_keepers.go:27 | applies `SendModuleToAccount`, leaving the store unchanged on error, and keeps conservation |
| Supply.SupplyKeeper.SendCoinsFromAccountToModule | x/proximax-bridge/internal/types/expected_keepers.go:28 | applies `SendAccountToModule`, leaving the store unchanged on error, and keeps conservation |
| Supply.OracleKeeper.ProcessClaim | x/proximax-bridge/internal/types/expected_keepers.go:36 | records the claim and answers with its decision on the claims seen before |
| BridgeKeeper.SubmitClaim | x/proximax-bridge/internal/keeper/keeper.go:39-46 | a conversion error is returned and the oracle sees nothing; otherwise the oracle's own answer is returned and it has seen the converted claim |
| BridgeKeeper.Keeper.ProcessClaim | x/proximax-bridge/internal/keeper/keeper.go:39-46 | returns and records exactly what `SubmitClaim` says |
| BridgeKeeper.Settle | x/proximax-bridge/internal/keeper/keeper.go:49-75 | a settlement that returns an error leaves the store as it was |
| BridgeKeeper.Keeper.ProcessSuccessfulClaim | x/proximax-bridge/internal/keeper/keeper.go:49-75 | decode, mint (LockText only), send, in that order: the new store and the outcome are `Settle`'s, and conservation is kept |
| BridgeKeeper.SettleUndecodable | x/proximax-bridge/internal/keeper/keeper.go:50-53 | a claim string that does not decode returns the decode error, with nothing minted or sent |
| BridgeKeeper.SettleInvalidClaimType | x/proximax-bridge/internal/keeper/keeper.go:57-66 | a claim type other than LockText returns ErrInvalidClaimType, with nothing minted or sent |
| BridgeKeeper.SettleMintFailure | x/proximax-bridge/internal/keeper/keeper.go:58-66 | a failed mint returns its error and no transfer is attempted |
| BridgeKeeper.SettleAbortsAfterMint | x/proximax-bridge/internal/keeper/keeper.go:68-72 | the call aborts only when the transfer after a successful mint fails. It aborts with that transfer's error and leaves the minted coins in the module account. |
| BridgeKeeper.SettleNetEffect | x/proximax-bridge/internal/keeper/keeper.go:58-74 | a completed settlement gives the receiver +amount and the supply +amount. The module account is unchanged per denomination, and no other account changes. |
| BridgeKeeper.SettleConserves | x/proximax-bridge/internal/keeper/keeper.go:49-75 | settlement keeps supply equal to module plus accounts, however it ends |
| BridgeKeeper.SettleTwicePaysTwice | x/proximax-bridge/internal/keeper/keeper.go:49-75 | settling the same claim string twice pays the receiver twice the amount |
| BridgeKeeper.BurnFrom | x/proximax-bridge/internal/keeper/keeper.go:78-90 | a burn that returns an error leaves the store as it was |
| BridgeKeeper.Keeper.ProcessBurn | x/proximax-bridge/internal/keeper/keeper.go:78-90 | send to the module, then burn: the new store and the outcome are `BurnFrom`'s, and conservation is kept |
| BridgeKeeper.BurnTransferFailure | x/proximax-bridge/internal/keeper/keeper.go:79-83 | a failed account-to-module transfer returns its error and burns nothing |
| BridgeKeeper.BurnNetEffect | x/proximax-bridge/internal/keeper/keeper.go:78-90 | a completed burn gives the sender −amount and the supply −amount, with the module unchanged and no other account changed. An aborted burn leaves the transferred coins in the module account. |
| BridgeKeeper.BurnAbortsOnlyWithoutPermission | x/proximax-bridge/internal/keeper/keeper.go:85-87 | in a conserved store the burn after a successful transfer fails only for want of burn permission |
| BridgeKeeper.BurnConservesSupply | x/proximax-bridge/internal/keeper/keeper.go:78-90 | a burn keeps supply equal to module plus accounts, however it ends |
| BridgeKeeper.LockFrom | x/proximax-bridge/internal/keeper/keeper.go:93-95 | a lock never aborts, and one that returns an error leaves the store as it was |
| BridgeKeeper.Keeper.ProcessLock | x/proximax-bridge/internal/keeper/keeper.go:93-95 | one transfer: the new store is `LockFrom`'s, the error is its failure, and conservation is kept |
| BridgeKeeper.LockNetEffect | x/proximax-bridge/internal/keeper/keeper.go:93-95 | a lock gives the sender −amount and the module +amount, leaves the supply and other accounts unchanged, and fails iff the transfer fails |
| BridgeKeeper.LockConserves | x/proximax-bridge/internal/keeper/keeper.go:93-95 | a lock keeps supply equal to module plus accounts |
| Handler.Dispatch | x/proximax-bridge/handler.go:16-35 | handling a message only appends to the keeper's call log, and a successful result carries every event emitted into the message's event manager |
| Handler.UnroutedMessageRejected | x/proximax-bridge/handler.go:31-33 | a message with no case, the invitation claim among them, fails with ErrUnknownRequest naming the module and the type, and calls no keeper method |
| Handler.KeeperCalledOnlyForClaims | x/proximax-bridge/handler.go:18-34 | the keeper is called iff the message is a peg claim or a not-cosigned claim |
| Handler.PegClaimErrorPropagates | x/proximax-bridge/handler.go:42-45 | an error from `ProcessPegClaim` is returned as it is, with no settlement; the event manager holds only what that keeper call emitted |
| Handler.PegClaimSettlesIffSuccess | x/proximax-bridge/handler.go:46-50 | `ProcessSuccessfulPegClaim(status.FinalClaim)` is called iff the status is Success, and its error is the handler's error. Otherwise the handler succeeds. |
| Handler.PegClaimEventsInOrder | x/proximax-bridge/handler.go:52-71 | a successful peg claim carries the events its keeper calls emitted into the shared context (the claim's, then the settlement's when the status is Success), followed by exactly three handler events, in order: message (module, sender), create_claim (mainchain tx hash, receiver) and prophecy_status (status text) |
| Handler.UnpegOnlyEmits | x/proximax-bridge/handler.go:74-95 | an unpeg calls no keeper method and carries exactly the message event and the unpeg event (sender, mainchain receiver) |
| Handler.NotCosignedClaimFollowsPegPattern | x/proximax-bridge/handler.go:97-121 | a not-cosigned claim returns the keeper's error as it is. It settles iff the status is Success, and the settlement's error is the handler's error. On success it carries the events its keeper calls emitted, followed by the single message event. |
| Handler.EventManager.EmitEvents | x/proximax-bridge/handler.go:52-69 | the emitted events are appended, in order, to those already emitted |
| Handler.Keeper.ProcessPegClaim | x/proximax-bridge/handler.go:42 | answers from the keeper's responses, logs the call, and appends the call's events to the context's event manager |
| Handler.Keeper.ProcessSuccessfulPegClaim | x/proximax-bridge/handler.go:47 | answers from the keeper's responses, logs the call, and appends the call's events to the context's event manager |
| Handler.Keeper.ProcessUnpegNotCosignedClaim | x/proximax-bridge/handler.go:101 | answers from the keeper's responses, logs the call, and appends the call's events to the context's event manager |
| Handler.Keeper.ProcessSuccessfulUnpegNotCosignedClaim | x/proximax-bridge/handler.go:106 | answers from the keeper's responses, logs the call, and appends the call's events to the context's event manager |
| Handler.MsgHandler.Handle | x/proximax-bridge/handler.go:15-36 | with a fresh event manager per message, the result and the keeper's calls are `Dispatch`'s, so the result holds only this message's events |
| Handler.MsgHandler.HandleMsgPegClaim | x/proximax-bridge/handler.go:39-72 | makes the calls of `PegClaimStep` and appends the step's events, the keeper's included, to the manager. On error it returns the step's error; on success it returns all of the manager's events. |
| Handler.MsgHandler.HandleMsgUnpeg | x/proximax-bridge/handler.go:74-95 | appends the unpeg events and returns all of the manager's events |
| Handler.MsgHandler.HandleMsgUnpegNotCosignedClaim | x/proximax-bridge/handler.go:97-121 | makes the calls of `NotCosignedClaimStep` and appends the step's events, the keeper's included, to the manager. On error it returns the step's error; on success it returns all of the manager's events. |

## Left out

- `cmd/pxbrelayer/main.go` is not part of this model. It covers the relayer's command line, key store, signing, subscription and process wiring. These are I/O, and its argument checks are empty-string tests.
- The relay loop is not in any file of the core. This covers its retry, back-off and deduplication behaviour.
- Oracle vote tallying and the consensus threshold belong to the external oracle module. The oracle is a recorder with a decision function of the claims seen so far.
- `OracleKeeper.GetProphecy` and `SupplyKeeper.SetModuleAccount` are in the collaborator interfaces. The core never calls them.
- Bech32 decoding and printing, and `sdk.ParseCoins`, are foreign library calls. They are parameters (`Library`), not implementations.
- `EthBridgeClaim`, `ClaimType`, `LockText`, `CreateOracleClaimFromEthClaim`, `CreateOracleClaimFromOracleString` and `ModuleName` are defined in files that are not part of this model. They are opaque types and parameters (`KeeperEnv`, `HandlerConfig`).
- The module's event type names and attribute keys are defined outside the core. So are the text of `AttributeValueCategory` and of the status strings. The model's strings for them are stand-ins; only the SDK's `message`, `module` and `sender` are the SDK's own.
- The invitation claim's type name in the unknown-request message is taken to be `types.MsgInvitationNotCosignedClaim`, the form `%T` prints.
- The messages' JSON field names and field order are not in the shown files. The encoder uses the relayer's attribute keys. For the invitation claim it uses the TypeScript client's field names, plus `tx_hash`.
- The decoders read the encoder's fields in the encoder's order, with no whitespace. Within that layout they also accept:
  - `[]` for an empty list, where the encoder writes `null`;
  - every short escape of section 7 of RFC 8259, `\/`, `\b` and `\f` included;
  - `\u` escapes in upper-case hex;
  - amounts with leading zeros, such as `"007"`.
- Go's `json.Unmarshal` accepts more, which the model's decoders refuse:
  - other field orders, unknown fields and whitespace;
  - object keys in any letter case, since Go matches them case-insensitively;
  - signed amounts such as `"-5"`, which `sdk.Int` reads with `big.Int`'s text parser, where the model's amounts are natural numbers read from digits only;
  - `\u` surrogate pairs, nested values and other number forms;
  - invalid UTF-8, which Go decodes leniently.
- An `sdk.Int` is signed and limited to 255 bits. The model's amounts are natural numbers with no such limit.
- The events the keeper emits into the shared context (those of the SDK's bank transfers, for example) are abstract: `KeeperResponses.emitted` gives them for each call. `keeper.dfy`'s own `Keeper` does not produce them.
- ClaimCodec.PegClaimRoundTrip: strings are modelled as Unicode text, but Go's tx hashes, mainchain addresses and coin denominations are byte strings. Go's `json.Marshal` writes each invalid UTF-8 byte as `\ufffd`. So in Go the round trip and injectivity hold only for valid UTF-8: two peg claims whose tx hashes are the bytes `"\xff"` and `"\xfe"` share a content string, and neither reads back as itself. The same holds for `NotCosignedClaimRoundTrip`, `InvitationClaimRoundTrip`, the three `*ContentInjective` lemmas and the three `*ObjectRoundTrip` lemmas.
- ClaimCodec.TrailingTextRejected: Go's `json.Unmarshal` accepts white space after the object, such as a final newline. The model's reader refuses any trailing text, white space included.
- ClaimCodec.NonObjectRejected: Go's `json.Unmarshal` accepts white space before the object, and accepts a top-level `null`, which leaves the zero message. The model's reader refuses every string whose first character is not `{`.
- ClaimCodec.CreateMsgPegClaimFromOracleString: Go's `json.Unmarshal` has no required-field check. So `{}`, an object missing some fields, and a top-level `null` decode to the zero message (or a partly filled one) with a nil error. The model refuses them with ErrJSONMarshalling; `NonObjectRejected` states this for `null`. The same holds for the other two `CreateMsg*FromOracleString` functions.
- ClaimCodec.CreateMsgPegClaimFromOracleString: on failure it returns a `Failure` without Go's zero message beside it, and its error omits the wrapped `encoding/json` message text.
- ClaimCodec.CreateMsgUnpegNotCosignedClaimFromOracleString: on failure it returns a `Failure` without Go's zero message beside it, and its error omits the wrapped `encoding/json` message text.
- ClaimCodec.CreateMsgInvitationNotCosignedClaimFromOracleString: on failure it returns a `Failure` without Go's zero message beside it, and its error omits the wrapped `encoding/json` message text.
- ClaimCodec.CreateOracleClaimFromMsgPegClaim: the `json.Marshal` error branch is left out, because marshalling these plain structs cannot fail. The same holds for the other two `CreateOracleClaimFromMsg*` functions.
- Determinism of claim creation comes from Dafny itself: equal messages give equal claims because the codec is a function. The converse is the `*ContentInjective` lemmas.
- BridgeKeeper.Keeper.ProcessClaim: on a conversion error it returns a `Failure`, without Go's zero `oracle.Status` beside it.
- EventParser.PegClaimEventToCosmosMsg: on error it returns a `Failure`, where Go returns a nil message pointer. The same holds for `UnpegNotCosignedClaimEventToCosmosMsg`.
- `NewMsgPegClaim` and `NewMsgUnpegNotCosignedClaim` are defined in a file that is not part of this model. The translators assume they are plain field-by-field constructors.
- A `panic` is modelled as the completion `Aborted`, with the store as it was at that moment. The host rolls back the transaction after a panic, and that rollback is outside the core.
- The supply fake's failure modes are a choice that makes every branch of the keeper reachable:
  - an unknown module name;
  - a missing mint or burn permission;
  - invalid coins;
  - insufficient funds;
  - a blocked recipient.
- The two error codes of `errors.go` (invalid mainchain tx hash, invalid mainchain address) are not used by the core.
- The context's logger, store key and codec are unused by the modelled operations.
