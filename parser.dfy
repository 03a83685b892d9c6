/** The relayer's translation of chain-event attributes into bridge messages
    (cmd/pxbrelayer/txs/parser.go). Each translator is a single pass over the
    attributes that overwrites local variables; the pass is specified by
    functions that say, for each field, which attribute it comes from. */
module EventParser {
  import opened BridgeTypes

  const KeyCosmosSender := "cosmos_sender"
  const KeyMainchainTxHash := "mainchain_tx_hash"
  const KeyToAddress := "to_address"
  const KeyAmount := "amount"
  const KeyTxHash := "tx_hash"
  const KeyNotCosignedValidators := "not_cosigned_validators"

  /** The peg-claim keys whose value is decoded, and so set `err`. */
  const PegDecodedKeys: set<string> := {KeyCosmosSender, KeyToAddress, KeyAmount}
  /** Every key the peg-claim translator recognises. */
  const PegKeys: set<string> := PegDecodedKeys + {KeyMainchainTxHash}
  /** Every key the not-cosigned-claim translator recognises. */
  const NotCosignedKeys: set<string> := {KeyCosmosSender, KeyTxHash, KeyNotCosignedValidators}

  // ---------------------------------------------------------------------
  // Splitting a list on a separator (strings.Split with a one-character
  // separator) and its inverse.

  function Join(parts: seq<string>, sep: char): string
    requires |parts| > 0
  {
    if |parts| == 1 then parts[0] else parts[0] + [sep] + Join(parts[1..], sep)
  }

  /** The pieces of `s` between separators; an empty `s` gives one empty
      piece, as in Go. Joining the pieces gives `s` back. */
  function Split(s: string, sep: char): (parts: seq<string>)
    ensures |parts| > 0
    ensures Join(parts, sep) == s
    ensures forall i :: 0 <= i < |parts| ==> sep !in parts[i]
    decreases |s|
  {
    if |s| == 0 then [""]
    else
      var rest := Split(s[1..], sep);
      if s[0] == sep then
        assert ([""] + rest)[1..] == rest;
        [""] + rest
      else
        var parts := [[s[0]] + rest[0]] + rest[1..];
        assert |rest| > 1 ==> parts[1..] == rest[1..] && Join(rest, sep) == rest[0] + [sep] + Join(rest[1..], sep);
        assert s == [s[0]] + s[1..];
        parts
  }

  /** The longest prefix of `s` without `sep`. */
  function TakeUntil(s: string, sep: char): string
    decreases |s|
  {
    if |s| == 0 || s[0] == sep then "" else [s[0]] + TakeUntil(s[1..], sep)
  }

  lemma {:induction false} TakeUntilPiece(a: string, b: string, sep: char)
    requires sep !in a
    requires b == "" || b[0] == sep
    ensures TakeUntil(a + b, sep) == a
    decreases |a|
  {
    if |a| > 0 {
      assert (a + b)[1..] == a[1..] + b;
      TakeUntilPiece(a[1..], b, sep);
      assert a == [a[0]] + a[1..];
    } else {
      assert a + b == b;
    }
  }

  /** The first piece of a join is everything before its first separator,
      and there is a separator exactly when there are further pieces. */
  lemma JoinFirstPiece(ps: seq<string>, sep: char)
    requires |ps| > 0
    requires forall i :: 0 <= i < |ps| ==> sep !in ps[i]
    ensures TakeUntil(Join(ps, sep), sep) == ps[0]
    ensures |ps| > 1 <==> sep in Join(ps, sep)
    ensures |ps| > 1 ==> Join(ps[1..], sep) == Join(ps, sep)[|ps[0]| + 1..]
  {
    if |ps| == 1 {
      TakeUntilPiece(ps[0], "", sep);
      assert ps[0] + "" == ps[0];
    } else {
      var rest := [sep] + Join(ps[1..], sep);
      assert Join(ps, sep) == ps[0] + rest;
      TakeUntilPiece(ps[0], rest, sep);
      assert Join(ps, sep)[|ps[0]|] == sep;
    }
  }

  /** Joining is injective on pieces free of the separator. */
  lemma {:induction false} JoinInjective(ps: seq<string>, qs: seq<string>, sep: char)
    requires |ps| > 0 && |qs| > 0
    requires forall i :: 0 <= i < |ps| ==> sep !in ps[i]
    requires forall i :: 0 <= i < |qs| ==> sep !in qs[i]
    requires Join(ps, sep) == Join(qs, sep)
    ensures ps == qs
    decreases |ps|
  {
    JoinFirstPiece(ps, sep);
    JoinFirstPiece(qs, sep);
    if |ps| > 1 {
      JoinInjective(ps[1..], qs[1..], sep);
      assert ps == [ps[0]] + ps[1..];
      assert qs == [qs[0]] + qs[1..];
    }
  }

  /** Splitting what was joined gives the pieces back. */
  lemma SplitJoin(ps: seq<string>, sep: char)
    requires |ps| > 0
    requires forall i :: 0 <= i < |ps| ==> sep !in ps[i]
    ensures Split(Join(ps, sep), sep) == ps
  {
    JoinInjective(Split(Join(ps, sep), sep), ps, sep);
  }

  // ---------------------------------------------------------------------
  // Which attribute a field comes from.

  /** The last attribute whose key is in `keys`, if any. */
  function LastIn(attrs: seq<Pair>, keys: set<string>): (r: Option<Pair>)
    ensures r.Some? ==> r.value in attrs && r.value.key in keys
    decreases |attrs|
  {
    if |attrs| == 0 then None
    else if attrs[|attrs| - 1].key in keys then Some(attrs[|attrs| - 1])
    else LastIn(attrs[..|attrs| - 1], keys)
  }

  lemma {:induction false} LastInConcat(a: seq<Pair>, b: seq<Pair>, keys: set<string>)
    ensures LastIn(a + b, keys) == if LastIn(b, keys).Some? then LastIn(b, keys) else LastIn(a, keys)
    decreases |b|
  {
    if |b| == 0 {
      assert a + b == a;
    } else {
      assert (a + b)[..|a + b| - 1] == a + b[..|b| - 1];
      LastInConcat(a, b[..|b| - 1], keys);
    }
  }

  /** No attribute has a key in `keys` exactly when there is no last one. */
  lemma {:induction false} LastInNone(attrs: seq<Pair>, keys: set<string>)
    ensures LastIn(attrs, keys).None? <==> forall i :: 0 <= i < |attrs| ==> attrs[i].key !in keys
    decreases |attrs|
  {
    if |attrs| > 0 {
      var init := attrs[..|attrs| - 1];
      LastInNone(init, keys);
      assert forall i :: 0 <= i < |init| ==> init[i] == attrs[i];
    }
  }

  /** When a key occurs several times, the last occurrence is the one read. */
  lemma LastOccurrenceWins(pre: seq<Pair>, p: Pair, post: seq<Pair>, keys: set<string>)
    requires p.key in keys
    requires forall i :: 0 <= i < |post| ==> post[i].key !in keys
    ensures LastIn(pre + [p] + post, keys) == Some(p)
  {
    LastInNone(post, keys);
    LastInConcat(pre + [p], post, keys);
  }

  function LastValue(attrs: seq<Pair>, key: string): Option<string> {
    match LastIn(attrs, {key})
    case None => None
    case Some(p) => Some(p.value)
  }

  /** A field copied verbatim: the last value given for the key, or "". */
  function TextField(attrs: seq<Pair>, key: string): string {
    match LastValue(attrs, key)
    case None => ""
    case Some(v) => v
  }

  /** A decoded field: what decoding the last value for the key left in the
      variable (the zero value when it failed), or the zero value when the
      key is absent. */
  function DecodedField<T>(attrs: seq<Pair>, key: string, decode: string -> Result<T, Error>, zero: T): T {
    match LastValue(attrs, key)
    case None => zero
    case Some(v) => ValueOr(decode(v), zero)
  }

  /** Only the attributes whose key is in `keys`, in their order. */
  function Recognised(attrs: seq<Pair>, keys: set<string>): (r: seq<Pair>)
    decreases |attrs|
  {
    if |attrs| == 0 then []
    else
      var last := attrs[|attrs| - 1];
      Recognised(attrs[..|attrs| - 1], keys) + (if last.key in keys then [last] else [])
  }

  lemma {:induction false} LastInRecognised(attrs: seq<Pair>, keys: set<string>, known: set<string>)
    requires keys <= known
    ensures LastIn(Recognised(attrs, known), keys) == LastIn(attrs, keys)
    decreases |attrs|
  {
    if |attrs| > 0 {
      var init, last := attrs[..|attrs| - 1], attrs[|attrs| - 1];
      LastInRecognised(init, keys, known);
      LastInConcat(Recognised(init, known), if last.key in known then [last] else [], keys);
      if last.key in known {
        assert LastIn([last], keys) == if last.key in keys then Some(last) else LastIn([last][..0], keys);
      }
    }
  }

  // ---------------------------------------------------------------------
  // PegClaimEventToCosmosMsg

  /** The error one peg-claim attribute leaves in `err`. */
  function PegDecodeError(lib: Library, p: Pair): Option<Error> {
    if p.key == KeyCosmosSender then ErrorOf(lib.valAddressFromBech32(p.value))
    else if p.key == KeyToAddress then ErrorOf(lib.accAddressFromBech32(p.value))
    else if p.key == KeyAmount then ErrorOf(lib.parseCoins(p.value))
    else None
  }

  /** The final `err`: that of the last decoded attribute, if any. */
  function PegClaimError(lib: Library, attrs: seq<Pair>): Option<Error> {
    match LastIn(attrs, PegDecodedKeys)
    case None => None
    case Some(p) => PegDecodeError(lib, p)
  }

  /** What the peg-claim translator returns for `attrs`. */
  function PegClaimFromAttributes(lib: Library, attrs: seq<Pair>): Result<MsgPegClaim, Error> {
    var err := PegClaimError(lib, attrs);
    if err.Some? then Failure(err.value)
    else Success(MsgPegClaim(
      DecodedField(attrs, KeyCosmosSender, lib.valAddressFromBech32, []),
      TextField(attrs, KeyMainchainTxHash),
      DecodedField(attrs, KeyToAddress, lib.accAddressFromBech32, []),
      DecodedField(attrs, KeyAmount, lib.parseCoins, [])))
  }

  method PegClaimEventToCosmosMsg(lib: Library, attributes: seq<Pair>) returns (r: Result<MsgPegClaim, Error>)
    ensures r == PegClaimFromAttributes(lib, attributes)
  {
    var cosmosSender: ValAddress := [];
    var mainchainTxHash: string := "";
    var toAddress: AccAddress := [];
    var amount: Coins := [];
    var err: Option<Error> := None;
    for i := 0 to |attributes|
      invariant cosmosSender == DecodedField(attributes[..i], KeyCosmosSender, lib.valAddressFromBech32, [])
      invariant mainchainTxHash == TextField(attributes[..i], KeyMainchainTxHash)
      invariant toAddress == DecodedField(attributes[..i], KeyToAddress, lib.accAddressFromBech32, [])
      invariant amount == DecodedField(attributes[..i], KeyAmount, lib.parseCoins, [])
      invariant err == PegClaimError(lib, attributes[..i])
    {
      assert attributes[..i + 1][..i] == attributes[..i];
      var key, val := attributes[i].key, attributes[i].value;
      if key == KeyCosmosSender {
        var decoded := lib.valAddressFromBech32(val);
        cosmosSender, err := ValueOr(decoded, []), ErrorOf(decoded);
      } else if key == KeyMainchainTxHash {
        mainchainTxHash := val;
      } else if key == KeyToAddress {
        var decoded := lib.accAddressFromBech32(val);
        toAddress, err := ValueOr(decoded, []), ErrorOf(decoded);
      } else if key == KeyAmount {
        var decoded := lib.parseCoins(val);
        amount, err := ValueOr(decoded, []), ErrorOf(decoded);
      }
    }
    assert attributes[..|attributes|] == attributes;
    if err.Some? {
      return Failure(err.value);
    }
    return Success(MsgPegClaim(cosmosSender, mainchainTxHash, toAddress, amount));
  }

  /** Attributes with keys the translator does not know change nothing. */
  lemma PegClaimIgnoresUnknownKeys(lib: Library, attrs: seq<Pair>)
    ensures PegClaimFromAttributes(lib, Recognised(attrs, PegKeys)) == PegClaimFromAttributes(lib, attrs)
  {
    LastInRecognised(attrs, PegDecodedKeys, PegKeys);
    LastInRecognised(attrs, {KeyCosmosSender}, PegKeys);
    LastInRecognised(attrs, {KeyMainchainTxHash}, PegKeys);
    LastInRecognised(attrs, {KeyToAddress}, PegKeys);
    LastInRecognised(attrs, {KeyAmount}, PegKeys);
  }

  /** A field takes its value from the last attribute with its key. */
  lemma PegClaimLastOccurrenceWins(lib: Library, pre: seq<Pair>, p: Pair, post: seq<Pair>)
    requires p.key in PegKeys
    requires forall i :: 0 <= i < |post| ==> post[i].key != p.key
    ensures var r := PegClaimFromAttributes(lib, pre + [p] + post);
      && (p.key == KeyCosmosSender && r.Success? ==> r.value.address == ValueOr(lib.valAddressFromBech32(p.value), []))
      && (p.key == KeyMainchainTxHash && r.Success? ==> r.value.mainchainTxHash == p.value)
      && (p.key == KeyToAddress && r.Success? ==> r.value.toAddress == ValueOr(lib.accAddressFromBech32(p.value), []))
      && (p.key == KeyAmount && r.Success? ==> r.value.amount == ValueOr(lib.parseCoins(p.value), []))
  {
    LastOccurrenceWins(pre, p, post, {p.key});
  }

  /** The outcome is decided by the last decoded attribute alone: an earlier
      failure is cleared by a later successful decode, and a later failure
      is the error returned. */
  lemma PegClaimErrorFromLastDecode(lib: Library, pre: seq<Pair>, p: Pair, post: seq<Pair>)
    requires p.key in PegDecodedKeys
    requires forall i :: 0 <= i < |post| ==> post[i].key !in PegDecodedKeys
    ensures PegClaimFromAttributes(lib, pre + [p] + post).Success? <==> PegDecodeError(lib, p).None?
    ensures PegDecodeError(lib, p).Some? ==>
      PegClaimFromAttributes(lib, pre + [p] + post) == Failure(PegDecodeError(lib, p).value)
  {
    LastOccurrenceWins(pre, p, post, PegDecodedKeys);
  }

  /** There is no required-key check: without decoded attributes the
      translation succeeds, with zero values in the decoded fields. */
  lemma PegClaimNoRequiredKeys(lib: Library, attrs: seq<Pair>)
    requires forall i :: 0 <= i < |attrs| ==> attrs[i].key !in PegDecodedKeys
    ensures PegClaimFromAttributes(lib, attrs) == Success(MsgPegClaim([], TextField(attrs, KeyMainchainTxHash), [], []))
  {
    LastInNone(attrs, PegDecodedKeys);
    LastInNone(attrs, {KeyCosmosSender});
    LastInNone(attrs, {KeyToAddress});
    LastInNone(attrs, {KeyAmount});
  }

  /** No attribute carries the key. */
  predicate KeyAbsent(attrs: seq<Pair>, key: string) {
    forall i :: 0 <= i < |attrs| ==> attrs[i].key != key
  }

  /** Each missing key leaves its own field at the zero value, whatever
      other attributes are present. */
  lemma PegClaimAbsentFieldsAreZero(lib: Library, attrs: seq<Pair>)
    ensures var r := PegClaimFromAttributes(lib, attrs);
      r.Success? ==>
        && (KeyAbsent(attrs, KeyCosmosSender) ==> r.value.address == [])
        && (KeyAbsent(attrs, KeyMainchainTxHash) ==> r.value.mainchainTxHash == "")
        && (KeyAbsent(attrs, KeyToAddress) ==> r.value.toAddress == [])
        && (KeyAbsent(attrs, KeyAmount) ==> r.value.amount == [])
  {
    LastInNone(attrs, {KeyCosmosSender});
    LastInNone(attrs, {KeyMainchainTxHash});
    LastInNone(attrs, {KeyToAddress});
    LastInNone(attrs, {KeyAmount});
  }

  /** An attribute whose key is not looked for does not change which
      attribute is last. */
  lemma LastInSkip(pre: seq<Pair>, p: Pair, post: seq<Pair>, keys: set<string>)
    requires p.key !in keys
    ensures LastIn(pre + [p] + post, keys) == LastIn(pre + post, keys)
  {
    LastInConcat(pre + [p], post, keys);
    LastInConcat(pre, [p], keys);
    LastInConcat(pre, post, keys);
    assert [p][..0] == [];
  }

  /** The last `mainchain_tx_hash` is copied verbatim, wherever it stands:
      it neither causes nor clears an error, and every other field is what
      the attributes without it give. */
  lemma PegClaimTxHashVerbatim(lib: Library, pre: seq<Pair>, v: string, post: seq<Pair>)
    requires KeyAbsent(post, KeyMainchainTxHash)
    ensures var r := PegClaimFromAttributes(lib, pre + [Pair(KeyMainchainTxHash, v)] + post);
      var without := PegClaimFromAttributes(lib, pre + post);
      && (r.Success? <==> without.Success?)
      && (r.Failure? ==> r == without)
      && (r.Success? ==> r.value == without.value.(mainchainTxHash := v))
  {
    var p := Pair(KeyMainchainTxHash, v);
    LastOccurrenceWins(pre, p, post, {KeyMainchainTxHash});
    LastInSkip(pre, p, post, PegDecodedKeys);
    LastInSkip(pre, p, post, {KeyCosmosSender});
    LastInSkip(pre, p, post, {KeyToAddress});
    LastInSkip(pre, p, post, {KeyAmount});
  }

  // ---------------------------------------------------------------------
  // UnpegNotCosignedClaimEventToCosmosMsg

  /** The longest prefix of `parts` that decodes, decoded: decoding stops at
      the first address that fails. */
  function DecodedPrefix(lib: Library, parts: seq<string>): (r: seq<ValAddress>)
    ensures |r| <= |parts|
    ensures forall i :: 0 <= i < |r| ==> lib.valAddressFromBech32(parts[i]) == Success(r[i])
    ensures |r| < |parts| ==> lib.valAddressFromBech32(parts[|r|]).Failure?
    decreases |parts|
  {
    if |parts| == 0 then []
    else
      var d := lib.valAddressFromBech32(parts[0]);
      if d.Failure? then []
      else
        var rest := DecodedPrefix(lib, parts[1..]);
        assert forall i :: 0 < i < |parts| ==> parts[i] == parts[1..][i - 1];
        [d.value] + rest
  }

  lemma {:induction false} DecodedPrefixAppend(lib: Library, parts: seq<string>, p: string)
    requires |DecodedPrefix(lib, parts)| == |parts|
    requires lib.valAddressFromBech32(p).Success?
    ensures DecodedPrefix(lib, parts + [p]) == DecodedPrefix(lib, parts) + [lib.valAddressFromBech32(p).value]
    decreases |parts|
  {
    if |parts| > 0 {
      assert (parts + [p])[1..] == parts[1..] + [p];
      DecodedPrefixAppend(lib, parts[1..], p);
    }
  }

  lemma {:induction false} DecodedPrefixCut(lib: Library, parts: seq<string>, j: nat)
    requires j < |parts|
    requires |DecodedPrefix(lib, parts[..j])| == j
    requires lib.valAddressFromBech32(parts[j]).Failure?
    ensures DecodedPrefix(lib, parts) == DecodedPrefix(lib, parts[..j])
    decreases j
  {
    if j > 0 {
      assert parts[..j][0] == parts[0];
      assert parts[..j][1..] == parts[1..][..j - 1];
      DecodedPrefixCut(lib, parts[1..], j - 1);
    }
  }

  /** The validators gathered from every `not_cosigned_validators`
      attribute, in order: the list is appended to and never reset. */
  function NotCosignedValidators(lib: Library, attrs: seq<Pair>): seq<ValAddress>
    decreases |attrs|
  {
    if |attrs| == 0 then []
    else
      var last := attrs[|attrs| - 1];
      NotCosignedValidators(lib, attrs[..|attrs| - 1]) +
        (if last.key == KeyNotCosignedValidators then DecodedPrefix(lib, Split(last.value, ',')) else [])
  }

  /** The final `err`: only `cosmos_sender` sets it; the validators' decode
      errors go to a shadowing variable. */
  function NotCosignedError(lib: Library, attrs: seq<Pair>): Option<Error> {
    match LastValue(attrs, KeyCosmosSender)
    case None => None
    case Some(v) => ErrorOf(lib.valAddressFromBech32(v))
  }

  /** What the not-cosigned-claim translator returns for `attrs`. */
  function NotCosignedFromAttributes(lib: Library, attrs: seq<Pair>): Result<MsgUnpegNotCosignedClaim, Error> {
    var err := NotCosignedError(lib, attrs);
    if err.Some? then Failure(err.value)
    else Success(MsgUnpegNotCosignedClaim(
      DecodedField(attrs, KeyCosmosSender, lib.valAddressFromBech32, []),
      TextField(attrs, KeyTxHash),
      NotCosignedValidators(lib, attrs)))
  }

  /** The inner loop over the comma-separated addresses: each one that
      decodes is appended, and the first that does not ends the loop. Its
      decode error is dropped. */
  method AppendValidators(lib: Library, acc: seq<ValAddress>, parts: seq<string>) returns (r: seq<ValAddress>)
    ensures r == acc + DecodedPrefix(lib, parts)
  {
    r := acc;
    var j := 0;
    while j < |parts|
      invariant 0 <= j <= |parts|
      invariant |DecodedPrefix(lib, parts[..j])| == j
      invariant r == acc + DecodedPrefix(lib, parts[..j])
    {
      var valAddress := lib.valAddressFromBech32(parts[j]);
      if valAddress.Failure? {
        DecodedPrefixCut(lib, parts, j);
        break;
      }
      DecodedPrefixAppend(lib, parts[..j], parts[j]);
      assert parts[..j + 1] == parts[..j] + [parts[j]];
      r := r + [valAddress.value];
      j := j + 1;
    }
    assert parts[..|parts|] == parts;
  }

  method UnpegNotCosignedClaimEventToCosmosMsg(lib: Library, attributes: seq<Pair>)
    returns (r: Result<MsgUnpegNotCosignedClaim, Error>)
    ensures r == NotCosignedFromAttributes(lib, attributes)
  {
    var address: ValAddress := [];
    var txHash: string := "";
    var notCosignedValidators: seq<ValAddress> := [];
    var err: Option<Error> := None;
    for i := 0 to |attributes|
      invariant address == DecodedField(attributes[..i], KeyCosmosSender, lib.valAddressFromBech32, [])
      invariant txHash == TextField(attributes[..i], KeyTxHash)
      invariant notCosignedValidators == NotCosignedValidators(lib, attributes[..i])
      invariant err == NotCosignedError(lib, attributes[..i])
    {
      assert attributes[..i + 1][..i] == attributes[..i];
      var key, val := attributes[i].key, attributes[i].value;
      if key == KeyCosmosSender {
        var decoded := lib.valAddressFromBech32(val);
        address, err := ValueOr(decoded, []), ErrorOf(decoded);
      } else if key == KeyTxHash {
        txHash := val;
      } else if key == KeyNotCosignedValidators {
        notCosignedValidators := AppendValidators(lib, notCosignedValidators, Split(val, ','));
      }
    }
    assert attributes[..|attributes|] == attributes;
    if err.Some? {
      return Failure(err.value);
    }
    return Success(MsgUnpegNotCosignedClaim(address, txHash, notCosignedValidators));
  }

  /** Repeated `not_cosigned_validators` attributes accumulate. */
  lemma {:induction false} NotCosignedValidatorsAccumulate(lib: Library, a: seq<Pair>, b: seq<Pair>)
    ensures NotCosignedValidators(lib, a + b) == NotCosignedValidators(lib, a) + NotCosignedValidators(lib, b)
    decreases |b|
  {
    if |b| == 0 {
      assert a + b == a;
    } else {
      assert (a + b)[..|a + b| - 1] == a + b[..|b| - 1];
      NotCosignedValidatorsAccumulate(lib, a, b[..|b| - 1]);
    }
  }

  /** One `not_cosigned_validators` attribute contributes the longest
      decodable prefix of its comma-separated list, and a bad address in it
      is never reported as an error. */
  lemma NotCosignedValidatorsTruncate(lib: Library, attrs: seq<Pair>, v: string)
    ensures var p := Pair(KeyNotCosignedValidators, v);
      && NotCosignedValidators(lib, attrs + [p]) == NotCosignedValidators(lib, attrs) + DecodedPrefix(lib, Split(v, ','))
      && NotCosignedError(lib, attrs + [p]) == NotCosignedError(lib, attrs)
  {
    var p := Pair(KeyNotCosignedValidators, v);
    assert (attrs + [p])[..|attrs|] == attrs;
  }

  lemma {:induction false} NotCosignedValidatorsRecognised(lib: Library, attrs: seq<Pair>, known: set<string>)
    requires KeyNotCosignedValidators in known
    ensures NotCosignedValidators(lib, Recognised(attrs, known)) == NotCosignedValidators(lib, attrs)
    decreases |attrs|
  {
    if |attrs| > 0 {
      var init, last := attrs[..|attrs| - 1], attrs[|attrs| - 1];
      NotCosignedValidatorsRecognised(lib, init, known);
      var tail := if last.key in known then [last] else [];
      NotCosignedValidatorsAccumulate(lib, Recognised(init, known), tail);
      if last.key in known {
        assert [last][..0] == [];
      }
    }
  }

  /** Attributes with keys the translator does not know change nothing. */
  lemma NotCosignedIgnoresUnknownKeys(lib: Library, attrs: seq<Pair>)
    ensures NotCosignedFromAttributes(lib, Recognised(attrs, NotCosignedKeys)) == NotCosignedFromAttributes(lib, attrs)
  {
    LastInRecognised(attrs, {KeyCosmosSender}, NotCosignedKeys);
    LastInRecognised(attrs, {KeyTxHash}, NotCosignedKeys);
    NotCosignedValidatorsRecognised(lib, attrs, NotCosignedKeys);
  }

  /** The outcome is decided by the last `cosmos_sender` alone; without one
      the translation always succeeds, whatever the validator lists hold. */
  lemma NotCosignedErrorFromLastSender(lib: Library, pre: seq<Pair>, v: string, post: seq<Pair>)
    requires forall i :: 0 <= i < |post| ==> post[i].key != KeyCosmosSender
    ensures var r := NotCosignedFromAttributes(lib, pre + [Pair(KeyCosmosSender, v)] + post);
      && (r.Success? <==> lib.valAddressFromBech32(v).Success?)
      && (r.Failure? ==> r.error == lib.valAddressFromBech32(v).error)
      && (r.Success? ==> r.value.address == lib.valAddressFromBech32(v).value)
  {
    LastOccurrenceWins(pre, Pair(KeyCosmosSender, v), post, {KeyCosmosSender});
  }

  lemma NotCosignedNoRequiredKeys(lib: Library, attrs: seq<Pair>)
    requires forall i :: 0 <= i < |attrs| ==> attrs[i].key != KeyCosmosSender
    ensures NotCosignedFromAttributes(lib, attrs) ==
      Success(MsgUnpegNotCosignedClaim([], TextField(attrs, KeyTxHash), NotCosignedValidators(lib, attrs)))
  {
    LastInNone(attrs, {KeyCosmosSender});
  }

  /** Without a `not_cosigned_validators` attribute the list is empty. */
  lemma {:induction false} NotCosignedValidatorsAbsent(lib: Library, attrs: seq<Pair>)
    requires KeyAbsent(attrs, KeyNotCosignedValidators)
    ensures NotCosignedValidators(lib, attrs) == []
    decreases |attrs|
  {
    if |attrs| > 0 {
      NotCosignedValidatorsAbsent(lib, attrs[..|attrs| - 1]);
    }
  }

  /** Each missing key leaves its own field at the zero value, whatever
      other attributes are present. */
  lemma NotCosignedAbsentFieldsAreZero(lib: Library, attrs: seq<Pair>)
    ensures var r := NotCosignedFromAttributes(lib, attrs);
      r.Success? ==>
        && (KeyAbsent(attrs, KeyCosmosSender) ==> r.value.address == [])
        && (KeyAbsent(attrs, KeyTxHash) ==> r.value.txHash == "")
        && (KeyAbsent(attrs, KeyNotCosignedValidators) ==> r.value.notCosignedValidators == [])
  {
    LastInNone(attrs, {KeyCosmosSender});
    LastInNone(attrs, {KeyTxHash});
    if KeyAbsent(attrs, KeyNotCosignedValidators) {
      NotCosignedValidatorsAbsent(lib, attrs);
    }
  }

  /** The tx hash is the last `tx_hash` value, copied verbatim, and a
      `tx_hash` attribute neither causes nor clears an error. */
  lemma NotCosignedTxHashVerbatim(lib: Library, pre: seq<Pair>, v: string, post: seq<Pair>)
    requires KeyAbsent(post, KeyTxHash)
    ensures var r := NotCosignedFromAttributes(lib, pre + [Pair(KeyTxHash, v)] + post);
      var without := NotCosignedFromAttributes(lib, pre + post);
      && (r.Success? <==> without.Success?)
      && (r.Failure? ==> r == without)
      && (r.Success? ==> r.value == without.value.(txHash := v))
  {
    var p := Pair(KeyTxHash, v);
    LastOccurrenceWins(pre, p, post, {KeyTxHash});
    LastInSkip(pre, p, post, {KeyCosmosSender});
    NotCosignedValidatorsAccumulate(lib, pre + [p], post);
    NotCosignedValidatorsAccumulate(lib, pre, [p]);
    NotCosignedValidatorsAccumulate(lib, pre, post);
    assert [p][..0] == [];
  }
}
