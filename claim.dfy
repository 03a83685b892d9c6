/** Oracle claims made from bridge messages, and messages read back from a
    claim's content string (x/proximax-bridge/internal/types/claim.go). The
    content is the message as a flat JSON object, written with Go's
    encoding/json conventions: addresses as their Bech32 text ("" for the
    empty address), coins as objects with a quoted decimal amount, and a
    nil list as `null`. */
module ClaimCodec {
  import opened BridgeTypes
  import opened Json

  /** The message that wraps every decoding failure. */
  const ParseClaimFailure: string := "failed to parse claim"

  // ---------------------------------------------------------------------
  // Addresses

  function EncodeValAddress(lib: Library, a: ValAddress): string {
    JsonString(ValAddressText(lib, a))
  }

  function EncodeAccAddress(lib: Library, a: AccAddress): string {
    JsonString(AccAddressText(lib, a))
  }

  /** An address literal: "" is the empty address, anything else must be
      Bech32 text. */
  function ParseValAddress(lib: Library, t: string): (r: Option<(ValAddress, string)>)
    ensures r.Some? ==> |r.value.1| < |t|
  {
    match ParseString(t)
    case None => None
    case Some((s, rest)) =>
      if s == "" then Some(([], rest))
      else match lib.valAddressFromBech32(s)
        case Failure(_) => None
        case Success(a) => Some((a, rest))
  }

  function ParseAccAddress(lib: Library, t: string): (r: Option<(AccAddress, string)>)
    ensures r.Some? ==> |r.value.1| < |t|
  {
    match ParseString(t)
    case None => None
    case Some((s, rest)) =>
      if s == "" then Some(([], rest))
      else match lib.accAddressFromBech32(s)
        case Failure(_) => None
        case Success(a) => Some((a, rest))
  }

  /** The library reads the address's printed text back as the address:
      what every address of a message needs for its claim to round-trip. */
  ghost predicate ValReadable(lib: Library, a: ValAddress) {
    |a| == 0 || (lib.valAddressString(a) != "" && lib.valAddressFromBech32(lib.valAddressString(a)) == Success(a))
  }

  ghost predicate AccReadable(lib: Library, a: AccAddress) {
    |a| == 0 || (lib.accAddressString(a) != "" && lib.accAddressFromBech32(lib.accAddressString(a)) == Success(a))
  }

  /** With the SDK's codec, the addresses read back are exactly the
      well-formed ones. */
  lemma ReadableIffWellFormed(lib: Library, a: seq<byte>)
    requires Bech32RoundTrip(lib)
    ensures ValReadable(lib, a) <==> WellFormedAddress(a)
    ensures AccReadable(lib, a) <==> WellFormedAddress(a)
  {
  }

  lemma ValAddressReadBack(lib: Library, a: ValAddress, rest: string)
    requires ValReadable(lib, a)
    ensures ParseValAddress(lib, EncodeValAddress(lib, a) + rest) == Some((a, rest))
  {
    StringRoundTrip(ValAddressText(lib, a), rest);
  }

  lemma AccAddressReadBack(lib: Library, a: AccAddress, rest: string)
    requires AccReadable(lib, a)
    ensures ParseAccAddress(lib, EncodeAccAddress(lib, a) + rest) == Some((a, rest))
  {
    StringRoundTrip(AccAddressText(lib, a), rest);
  }

  /** With the SDK's codec, a written address reads back iff it is well
      formed; an address of another length is refused. */
  lemma ValAddressRoundTrip(lib: Library, a: ValAddress, rest: string)
    requires Bech32RoundTrip(lib)
    ensures WellFormedAddress(a) ==> ParseValAddress(lib, EncodeValAddress(lib, a) + rest) == Some((a, rest))
    ensures !WellFormedAddress(a) ==> ParseValAddress(lib, EncodeValAddress(lib, a) + rest) == None
  {
    StringRoundTrip(ValAddressText(lib, a), rest);
  }

  lemma AccAddressRoundTrip(lib: Library, a: AccAddress, rest: string)
    requires Bech32RoundTrip(lib)
    ensures WellFormedAddress(a) ==> ParseAccAddress(lib, EncodeAccAddress(lib, a) + rest) == Some((a, rest))
    ensures !WellFormedAddress(a) ==> ParseAccAddress(lib, EncodeAccAddress(lib, a) + rest) == None
  {
    StringRoundTrip(AccAddressText(lib, a), rest);
  }

  /** Regrouping a concatenation, stated over opaque parts so that the text
      of literals does not enter the proof. */
  lemma Regroup(a: string, b: string, c: string, d: string)
    ensures a + b + c + d == a + (b + (c + d))
  {
  }

  lemma Regroup5(a: string, b: string, c: string, d: string, e: string)
    ensures a + b + c + d + e == a + (b + (c + (d + e)))
  {
  }

  lemma Regroup6(a: string, b: string, c: string, d: string, e: string, f: string)
    ensures a + b + c + d + e + f == a + (b + (c + (d + (e + f))))
  {
  }

  lemma Regroup8(a: string, b: string, c: string, d: string, e: string, f: string, g: string, h: string)
    ensures a + b + c + d + e + f + g + h == a + (b + (c + (d + (e + (f + (g + h))))))
  {
  }

  lemma Regroup10(a: string, b: string, c: string, d: string, e: string, f: string, g: string, h: string,
                  i: string, j: string)
    ensures a + b + c + d + e + f + g + h + i + j == a + (b + (c + (d + (e + (f + (g + (h + (i + j))))))))
  {
  }

  // ---------------------------------------------------------------------
  // Coins, and lists: a nil list is `null`, otherwise `[e1,e2,...]`.

  function EncodeCoin(c: Coin): string {
    "{\"denom\":" + JsonString(c.denom) + ",\"amount\":" + JsonString(ShowNat(c.amount)) + "}"
  }

  function EncodeCoinsTail(cs: Coins): string
    decreases |cs|
  {
    if |cs| == 0 then "" else [','] + EncodeCoin(cs[0]) + EncodeCoinsTail(cs[1..])
  }

  function EncodeCoins(cs: Coins): string {
    if |cs| == 0 then "null" else ['['] + EncodeCoin(cs[0]) + EncodeCoinsTail(cs[1..]) + [']']
  }

  function ParseCoin(t: string): (r: Option<(Coin, string)>)
    ensures r.Some? ==> |r.value.1| < |t|
  {
    var t1 :- Expect("{\"denom\":", t);
    match ParseString(t1)
    case None => None
    case Some((denom, t2)) =>
      var t3 :- Expect(",\"amount\":", t2);
      match ParseString(t3)
      case None => None
      case Some((digits, t4)) =>
        var amount :- ParseNat(digits);
        var t5 :- Expect("}", t4);
        Some((Coin(denom, amount), t5))
  }

  lemma CoinRoundTrip(c: Coin, rest: string)
    ensures ParseCoin(EncodeCoin(c) + rest) == Some((c, rest))
  {
    var digits := ShowNat(c.amount);
    var tail4 := "}" + rest;
    var tail3 := JsonString(digits) + tail4;
    var tail2 := ",\"amount\":" + tail3;
    var tail1 := JsonString(c.denom) + tail2;
    Regroup6("{\"denom\":", JsonString(c.denom), ",\"amount\":", JsonString(digits), "}", rest);
    ExpectRoundTrip("{\"denom\":", tail1);
    StringRoundTrip(c.denom, tail2);
    ExpectRoundTrip(",\"amount\":", tail3);
    StringRoundTrip(digits, tail4);
    ShowNatRoundTrip(c.amount);
    ExpectRoundTrip("}", rest);
  }

  function ParseCoinsTail(t: string): (r: Option<(Coins, string)>)
    decreases |t|
  {
    if |t| > 0 && t[0] == ']' then Some(([], t[1..]))
    else if |t| > 0 && t[0] == ',' then
      match ParseCoin(t[1..])
      case None => None
      case Some((c, t')) =>
        match ParseCoinsTail(t')
        case None => None
        case Some((cs, rest)) => Some(([c] + cs, rest))
    else None
  }

  /** Reads `null`, `[]` or a non-empty list of coins. */
  function ParseCoins(t: string): (r: Option<(Coins, string)>) {
    if "null" <= t then Some(([], t[4..]))
    else if "[]" <= t then Some(([], t[2..]))
    else if |t| > 0 && t[0] == '[' then
      match ParseCoin(t[1..])
      case None => None
      case Some((c, t')) =>
        match ParseCoinsTail(t')
        case None => None
        case Some((cs, rest)) => Some(([c] + cs, rest))
    else None
  }

  /** One step of reading the rest of a list: a comma, an element, the rest. */
  lemma CoinsTailStep(u: string, c: Coin, after: string, cs: Coins, rest: string)
    requires ParseCoin(u) == Some((c, after))
    requires ParseCoinsTail(after) == Some((cs, rest))
    ensures ParseCoinsTail([','] + u) == Some(([c] + cs, rest))
  {
    assert ([','] + u)[1..] == u;
  }

  lemma {:induction false} CoinsTailRoundTrip(cs: Coins, rest: string)
    ensures ParseCoinsTail(EncodeCoinsTail(cs) + ([']'] + rest)) == Some((cs, rest))
    decreases |cs|
  {
    if |cs| > 0 {
      var after := EncodeCoinsTail(cs[1..]) + ([']'] + rest);
      Regroup([','], EncodeCoin(cs[0]), EncodeCoinsTail(cs[1..]), [']'] + rest);
      CoinRoundTrip(cs[0], after);
      CoinsTailRoundTrip(cs[1..], rest);
      CoinsTailStep(EncodeCoin(cs[0]) + after, cs[0], after, cs[1..], rest);
      assert [cs[0]] + cs[1..] == cs;
    } else {
      assert EncodeCoinsTail(cs) + ([']'] + rest) == [']'] + rest;
    }
  }

  lemma CoinsHeadStep(u: string, c: Coin, after: string, cs: Coins, rest: string)
    requires ParseCoin(u) == Some((c, after))
    requires ParseCoinsTail(after) == Some((cs, rest))
    ensures ParseCoins(['['] + u) == Some(([c] + cs, rest))
  {
    assert u[0] == '{';
    assert (['['] + u)[1..] == u;
    assert !("[]" <= ['['] + u);
  }

  lemma CoinsRoundTrip(cs: Coins, rest: string)
    ensures ParseCoins(EncodeCoins(cs) + rest) == Some((cs, rest))
  {
    if |cs| > 0 {
      var after := EncodeCoinsTail(cs[1..]) + ([']'] + rest);
      Regroup5(['['], EncodeCoin(cs[0]), EncodeCoinsTail(cs[1..]), [']'], rest);
      CoinRoundTrip(cs[0], after);
      CoinsTailRoundTrip(cs[1..], rest);
      CoinsHeadStep(EncodeCoin(cs[0]) + after, cs[0], after, cs[1..], rest);
      assert [cs[0]] + cs[1..] == cs;
    } else {
      assert ("null" + rest)[..4] == "null";
      assert ("null" + rest)[4..] == rest;
    }
  }

  // ---------------------------------------------------------------------
  // Lists of validator addresses

  function EncodeValAddressesTail(lib: Library, vs: seq<ValAddress>): string
    decreases |vs|
  {
    if |vs| == 0 then "" else [','] + EncodeValAddress(lib, vs[0]) + EncodeValAddressesTail(lib, vs[1..])
  }

  function EncodeValAddresses(lib: Library, vs: seq<ValAddress>): string {
    if |vs| == 0 then "null"
    else ['['] + EncodeValAddress(lib, vs[0]) + EncodeValAddressesTail(lib, vs[1..]) + [']']
  }

  function ParseValAddressesTail(lib: Library, t: string): (r: Option<(seq<ValAddress>, string)>)
    decreases |t|
  {
    if |t| > 0 && t[0] == ']' then Some(([], t[1..]))
    else if |t| > 0 && t[0] == ',' then
      match ParseValAddress(lib, t[1..])
      case None => None
      case Some((a, t')) =>
        match ParseValAddressesTail(lib, t')
        case None => None
        case Some((vs, rest)) => Some(([a] + vs, rest))
    else None
  }

  /** Reads `null`, `[]` or a non-empty list of validator addresses. */
  function ParseValAddresses(lib: Library, t: string): (r: Option<(seq<ValAddress>, string)>) {
    if "null" <= t then Some(([], t[4..]))
    else if "[]" <= t then Some(([], t[2..]))
    else if |t| > 0 && t[0] == '[' then
      match ParseValAddress(lib, t[1..])
      case None => None
      case Some((a, t')) =>
        match ParseValAddressesTail(lib, t')
        case None => None
        case Some((vs, rest)) => Some(([a] + vs, rest))
    else None
  }

  lemma ValAddressesTailStep(lib: Library, u: string, a: ValAddress, after: string, vs: seq<ValAddress>, rest: string)
    requires ParseValAddress(lib, u) == Some((a, after))
    requires ParseValAddressesTail(lib, after) == Some((vs, rest))
    ensures ParseValAddressesTail(lib, [','] + u) == Some(([a] + vs, rest))
  {
    assert ([','] + u)[1..] == u;
  }

  /** Every address of the list is read back. */
  ghost predicate AllValReadable(lib: Library, vs: seq<ValAddress>) {
    forall i :: 0 <= i < |vs| ==> ValReadable(lib, vs[i])
  }

  predicate AllWellFormed(vs: seq<ValAddress>) {
    forall i :: 0 <= i < |vs| ==> WellFormedAddress(vs[i])
  }

  lemma {:induction false} ValAddressesTailReadBack(lib: Library, vs: seq<ValAddress>, rest: string)
    requires AllValReadable(lib, vs)
    ensures ParseValAddressesTail(lib, EncodeValAddressesTail(lib, vs) + ([']'] + rest)) == Some((vs, rest))
    decreases |vs|
  {
    if |vs| > 0 {
      var after := EncodeValAddressesTail(lib, vs[1..]) + ([']'] + rest);
      Regroup([','], EncodeValAddress(lib, vs[0]), EncodeValAddressesTail(lib, vs[1..]), [']'] + rest);
      assert ValReadable(lib, vs[0]);
      ValAddressReadBack(lib, vs[0], after);
      assert AllValReadable(lib, vs[1..]) by {
        forall i | 0 <= i < |vs[1..]| ensures ValReadable(lib, vs[1..][i]) {
          assert vs[1..][i] == vs[i + 1];
        }
      }
      ValAddressesTailReadBack(lib, vs[1..], rest);
      ValAddressesTailStep(lib, EncodeValAddress(lib, vs[0]) + after, vs[0], after, vs[1..], rest);
      assert [vs[0]] + vs[1..] == vs;
    } else {
      assert EncodeValAddressesTail(lib, vs) + ([']'] + rest) == [']'] + rest;
    }
  }

  /** With the SDK's codec, the rest of a written list is refused when one
      of its addresses is not well formed. */
  lemma {:induction false} ValAddressesTailRejected(lib: Library, vs: seq<ValAddress>, rest: string)
    requires Bech32RoundTrip(lib)
    requires !AllWellFormed(vs)
    ensures ParseValAddressesTail(lib, EncodeValAddressesTail(lib, vs) + ([']'] + rest)) == None
    decreases |vs|
  {
    var after := EncodeValAddressesTail(lib, vs[1..]) + ([']'] + rest);
    var u := EncodeValAddress(lib, vs[0]) + after;
    Regroup([','], EncodeValAddress(lib, vs[0]), EncodeValAddressesTail(lib, vs[1..]), [']'] + rest);
    assert ([','] + u)[1..] == u;
    ValAddressRoundTrip(lib, vs[0], after);
    if WellFormedAddress(vs[0]) {
      assert !AllWellFormed(vs[1..]) by {
        var i :| 0 <= i < |vs| && !WellFormedAddress(vs[i]);
        assert vs[1..][i - 1] == vs[i];
      }
      ValAddressesTailRejected(lib, vs[1..], rest);
    }
  }

  lemma ValAddressesHeadStep(lib: Library, u: string, a: ValAddress, after: string, vs: seq<ValAddress>, rest: string)
    requires ParseValAddress(lib, u) == Some((a, after))
    requires ParseValAddressesTail(lib, after) == Some((vs, rest))
    ensures ParseValAddresses(lib, ['['] + u) == Some(([a] + vs, rest))
  {
    assert u[0] == '"';
    assert (['['] + u)[1..] == u;
    assert !("[]" <= ['['] + u);
  }

  lemma ValAddressesReadBack(lib: Library, vs: seq<ValAddress>, rest: string)
    requires AllValReadable(lib, vs)
    ensures ParseValAddresses(lib, EncodeValAddresses(lib, vs) + rest) == Some((vs, rest))
  {
    if |vs| > 0 {
      var after := EncodeValAddressesTail(lib, vs[1..]) + ([']'] + rest);
      Regroup5(['['], EncodeValAddress(lib, vs[0]), EncodeValAddressesTail(lib, vs[1..]), [']'], rest);
      assert ValReadable(lib, vs[0]);
      ValAddressReadBack(lib, vs[0], after);
      assert AllValReadable(lib, vs[1..]) by {
        forall i | 0 <= i < |vs[1..]| ensures ValReadable(lib, vs[1..][i]) {
          assert vs[1..][i] == vs[i + 1];
        }
      }
      ValAddressesTailReadBack(lib, vs[1..], rest);
      ValAddressesHeadStep(lib, EncodeValAddress(lib, vs[0]) + after, vs[0], after, vs[1..], rest);
      assert [vs[0]] + vs[1..] == vs;
    } else {
      assert ("null" + rest)[..4] == "null";
      assert ("null" + rest)[4..] == rest;
    }
  }

  /** With the SDK's codec, a written list of validator addresses reads
      back iff all its addresses are well formed. */
  lemma ValAddressesRoundTrip(lib: Library, vs: seq<ValAddress>, rest: string)
    requires Bech32RoundTrip(lib)
    ensures AllWellFormed(vs) ==> ParseValAddresses(lib, EncodeValAddresses(lib, vs) + rest) == Some((vs, rest))
    ensures !AllWellFormed(vs) ==> ParseValAddresses(lib, EncodeValAddresses(lib, vs) + rest) == None
  {
    if AllWellFormed(vs) {
      forall i | 0 <= i < |vs| ensures ValReadable(lib, vs[i]) {
        ReadableIffWellFormed(lib, vs[i]);
      }
      ValAddressesReadBack(lib, vs, rest);
    } else {
      var after := EncodeValAddressesTail(lib, vs[1..]) + ([']'] + rest);
      var u := EncodeValAddress(lib, vs[0]) + after;
      Regroup5(['['], EncodeValAddress(lib, vs[0]), EncodeValAddressesTail(lib, vs[1..]), [']'], rest);
      assert u[0] == '"';
      assert (['['] + u)[1..] == u;
      assert !("[]" <= ['['] + u);
      assert !("null" <= ['['] + u);
      ValAddressRoundTrip(lib, vs[0], after);
      if WellFormedAddress(vs[0]) {
        assert !AllWellFormed(vs[1..]) by {
          var i :| 0 <= i < |vs| && !WellFormedAddress(vs[i]);
          assert vs[1..][i - 1] == vs[i];
        }
        ValAddressesTailRejected(lib, vs[1..], rest);
      }
    }
  }

  // ---------------------------------------------------------------------
  // Object fields: the field's name (with the punctuation before it), then
  // its value.

  function ValAddressField(lib: Library, name: string, t: string): Option<(ValAddress, string)> {
    var u :- Expect(name, t);
    ParseValAddress(lib, u)
  }

  function AccAddressField(lib: Library, name: string, t: string): Option<(AccAddress, string)> {
    var u :- Expect(name, t);
    ParseAccAddress(lib, u)
  }

  function StringField(name: string, t: string): Option<(string, string)> {
    var u :- Expect(name, t);
    ParseString(u)
  }

  function CoinsField(name: string, t: string): Option<(Coins, string)> {
    var u :- Expect(name, t);
    ParseCoins(u)
  }

  function ValAddressesField(lib: Library, name: string, t: string): Option<(seq<ValAddress>, string)> {
    var u :- Expect(name, t);
    ParseValAddresses(lib, u)
  }

  lemma StringFieldRoundTrip(name: string, s: string, rest: string)
    ensures StringField(name, name + (JsonString(s) + rest)) == Some((s, rest))
  {
    ExpectRoundTrip(name, JsonString(s) + rest);
    StringRoundTrip(s, rest);
  }

  lemma CoinsFieldRoundTrip(name: string, cs: Coins, rest: string)
    ensures CoinsField(name, name + (EncodeCoins(cs) + rest)) == Some((cs, rest))
  {
    ExpectRoundTrip(name, EncodeCoins(cs) + rest);
    CoinsRoundTrip(cs, rest);
  }

  // ---------------------------------------------------------------------
  // The three messages as JSON objects. Each `...Object` function reads one
  // object and returns the text after it; the decoders demand that nothing
  // follows.

  function EncodeMsgPegClaim(lib: Library, m: MsgPegClaim): string {
    "{\"cosmos_sender\":" + EncodeValAddress(lib, m.address)
    + ",\"mainchain_tx_hash\":" + JsonString(m.mainchainTxHash)
    + ",\"to_address\":" + EncodeAccAddress(lib, m.toAddress)
    + ",\"amount\":" + EncodeCoins(m.amount) + "}"
  }

  function PegClaimObject(lib: Library, s: string): Option<(MsgPegClaim, string)> {
    var sender :- ValAddressField(lib, "{\"cosmos_sender\":", s);
    var txHash :- StringField(",\"mainchain_tx_hash\":", sender.1);
    var to :- AccAddressField(lib, ",\"to_address\":", txHash.1);
    var amount :- CoinsField(",\"amount\":", to.1);
    var rest :- Expect("}", amount.1);
    Some((MsgPegClaim(sender.0, txHash.0, to.0, amount.0), rest))
  }

  function DecodeMsgPegClaim(lib: Library, s: string): (r: Option<MsgPegClaim>)
    ensures r.Some? <==> PegClaimObject(lib, s).Some? && PegClaimObject(lib, s).value.1 == ""
  {
    match PegClaimObject(lib, s)
    case Some((m, rest)) => if rest == "" then Some(m) else None
    case None => None
  }

  function EncodeMsgUnpegNotCosignedClaim(lib: Library, m: MsgUnpegNotCosignedClaim): string {
    "{\"cosmos_sender\":" + EncodeValAddress(lib, m.address)
    + ",\"tx_hash\":" + JsonString(m.txHash)
    + ",\"not_cosigned_validators\":" + EncodeValAddresses(lib, m.notCosignedValidators) + "}"
  }

  function NotCosignedClaimObject(lib: Library, s: string): Option<(MsgUnpegNotCosignedClaim, string)> {
    var sender :- ValAddressField(lib, "{\"cosmos_sender\":", s);
    var txHash :- StringField(",\"tx_hash\":", sender.1);
    var validators :- ValAddressesField(lib, ",\"not_cosigned_validators\":", txHash.1);
    var rest :- Expect("}", validators.1);
    Some((MsgUnpegNotCosignedClaim(sender.0, txHash.0, validators.0), rest))
  }

  function DecodeMsgUnpegNotCosignedClaim(lib: Library, s: string): (r: Option<MsgUnpegNotCosignedClaim>)
    ensures r.Some? <==> NotCosignedClaimObject(lib, s).Some? && NotCosignedClaimObject(lib, s).value.1 == ""
  {
    match NotCosignedClaimObject(lib, s)
    case Some((m, rest)) => if rest == "" then Some(m) else None
    case None => None
  }

  function EncodeMsgInvitationNotCosignedClaim(lib: Library, m: MsgInvitationNotCosignedClaim): string {
    "{\"validator_address\":" + EncodeValAddress(lib, m.address)
    + ",\"tx_hash\":" + JsonString(m.txHash)
    + ",\"mainchain_address\":" + JsonString(m.mainchainAddress)
    + ",\"first_cosigner_address\":" + EncodeValAddress(lib, m.firstCosignerAddress) + "}"
  }

  function InvitationClaimObject(lib: Library, s: string): Option<(MsgInvitationNotCosignedClaim, string)> {
    var validator :- ValAddressField(lib, "{\"validator_address\":", s);
    var txHash :- StringField(",\"tx_hash\":", validator.1);
    var mainchain :- StringField(",\"mainchain_address\":", txHash.1);
    var cosigner :- ValAddressField(lib, ",\"first_cosigner_address\":", mainchain.1);
    var rest :- Expect("}", cosigner.1);
    Some((MsgInvitationNotCosignedClaim(validator.0, txHash.0, mainchain.0, cosigner.0), rest))
  }

  function DecodeMsgInvitationNotCosignedClaim(lib: Library, s: string): (r: Option<MsgInvitationNotCosignedClaim>)
    ensures r.Some? <==> InvitationClaimObject(lib, s).Some? && InvitationClaimObject(lib, s).value.1 == ""
  {
    match InvitationClaimObject(lib, s)
    case Some((m, rest)) => if rest == "" then Some(m) else None
    case None => None
  }

  /** The addresses of a message that the SDK's decoders can return. */
  predicate WellFormedPegClaim(m: MsgPegClaim) {
    WellFormedAddress(m.address) && WellFormedAddress(m.toAddress)
  }

  predicate WellFormedNotCosignedClaim(m: MsgUnpegNotCosignedClaim) {
    WellFormedAddress(m.address) && AllWellFormed(m.notCosignedValidators)
  }

  predicate WellFormedInvitationClaim(m: MsgInvitationNotCosignedClaim) {
    WellFormedAddress(m.address) && WellFormedAddress(m.firstCosignerAddress)
  }

  /** The addresses of a message that the library reads back. */
  ghost predicate PegClaimReadable(lib: Library, m: MsgPegClaim) {
    ValReadable(lib, m.address) && AccReadable(lib, m.toAddress)
  }

  ghost predicate NotCosignedClaimReadable(lib: Library, m: MsgUnpegNotCosignedClaim) {
    ValReadable(lib, m.address) && AllValReadable(lib, m.notCosignedValidators)
  }

  ghost predicate InvitationClaimReadable(lib: Library, m: MsgInvitationNotCosignedClaim) {
    ValReadable(lib, m.address) && ValReadable(lib, m.firstCosignerAddress)
  }

  /** A written peg claim object whose addresses the library reads back
      reads back as the message, leaving the text after it. */
  lemma PegClaimObjectReadBack(lib: Library, m: MsgPegClaim, rest: string)
    requires PegClaimReadable(lib, m)
    ensures PegClaimObject(lib, EncodeMsgPegClaim(lib, m) + rest) == Some((m, rest))
  {
    var r3 := "}" + rest;
    var r2 := ",\"amount\":" + (EncodeCoins(m.amount) + r3);
    var r1 := ",\"to_address\":" + (EncodeAccAddress(lib, m.toAddress) + r2);
    var r0 := ",\"mainchain_tx_hash\":" + (JsonString(m.mainchainTxHash) + r1);
    Regroup10("{\"cosmos_sender\":", EncodeValAddress(lib, m.address),
      ",\"mainchain_tx_hash\":", JsonString(m.mainchainTxHash),
      ",\"to_address\":", EncodeAccAddress(lib, m.toAddress),
      ",\"amount\":", EncodeCoins(m.amount), "}", rest);
    ExpectRoundTrip("{\"cosmos_sender\":", EncodeValAddress(lib, m.address) + r0);
    ValAddressReadBack(lib, m.address, r0);
    StringFieldRoundTrip(",\"mainchain_tx_hash\":", m.mainchainTxHash, r1);
    ExpectRoundTrip(",\"to_address\":", EncodeAccAddress(lib, m.toAddress) + r2);
    AccAddressReadBack(lib, m.toAddress, r2);
    CoinsFieldRoundTrip(",\"amount\":", m.amount, r3);
    ExpectRoundTrip("}", rest);
  }

  /** With the SDK's codec, a written peg claim object reads back as the
      message, leaving the text after it, iff its addresses are well formed;
      otherwise it is refused. */
  lemma PegClaimObjectRoundTrip(lib: Library, m: MsgPegClaim, rest: string)
    requires Bech32RoundTrip(lib)
    ensures WellFormedPegClaim(m) ==> PegClaimObject(lib, EncodeMsgPegClaim(lib, m) + rest) == Some((m, rest))
    ensures !WellFormedPegClaim(m) ==> PegClaimObject(lib, EncodeMsgPegClaim(lib, m) + rest) == None
  {
    var r3 := "}" + rest;
    var r2 := ",\"amount\":" + (EncodeCoins(m.amount) + r3);
    var r1 := ",\"to_address\":" + (EncodeAccAddress(lib, m.toAddress) + r2);
    var r0 := ",\"mainchain_tx_hash\":" + (JsonString(m.mainchainTxHash) + r1);
    Regroup10("{\"cosmos_sender\":", EncodeValAddress(lib, m.address),
      ",\"mainchain_tx_hash\":", JsonString(m.mainchainTxHash),
      ",\"to_address\":", EncodeAccAddress(lib, m.toAddress),
      ",\"amount\":", EncodeCoins(m.amount), "}", rest);
    ExpectRoundTrip("{\"cosmos_sender\":", EncodeValAddress(lib, m.address) + r0);
    ValAddressRoundTrip(lib, m.address, r0);
    StringFieldRoundTrip(",\"mainchain_tx_hash\":", m.mainchainTxHash, r1);
    ExpectRoundTrip(",\"to_address\":", EncodeAccAddress(lib, m.toAddress) + r2);
    AccAddressRoundTrip(lib, m.toAddress, r2);
    CoinsFieldRoundTrip(",\"amount\":", m.amount, r3);
    ExpectRoundTrip("}", rest);
  }

  lemma NotCosignedClaimObjectReadBack(lib: Library, m: MsgUnpegNotCosignedClaim, rest: string)
    requires NotCosignedClaimReadable(lib, m)
    ensures NotCosignedClaimObject(lib, EncodeMsgUnpegNotCosignedClaim(lib, m) + rest) == Some((m, rest))
  {
    var r2 := "}" + rest;
    var r1 := ",\"not_cosigned_validators\":" + (EncodeValAddresses(lib, m.notCosignedValidators) + r2);
    var r0 := ",\"tx_hash\":" + (JsonString(m.txHash) + r1);
    Regroup8("{\"cosmos_sender\":", EncodeValAddress(lib, m.address),
      ",\"tx_hash\":", JsonString(m.txHash),
      ",\"not_cosigned_validators\":", EncodeValAddresses(lib, m.notCosignedValidators), "}", rest);
    ExpectRoundTrip("{\"cosmos_sender\":", EncodeValAddress(lib, m.address) + r0);
    ValAddressReadBack(lib, m.address, r0);
    StringFieldRoundTrip(",\"tx_hash\":", m.txHash, r1);
    ExpectRoundTrip(",\"not_cosigned_validators\":", EncodeValAddresses(lib, m.notCosignedValidators) + r2);
    ValAddressesReadBack(lib, m.notCosignedValidators, r2);
    ExpectRoundTrip("}", rest);
  }

  lemma NotCosignedClaimObjectRoundTrip(lib: Library, m: MsgUnpegNotCosignedClaim, rest: string)
    requires Bech32RoundTrip(lib)
    ensures WellFormedNotCosignedClaim(m) ==>
      NotCosignedClaimObject(lib, EncodeMsgUnpegNotCosignedClaim(lib, m) + rest) == Some((m, rest))
    ensures !WellFormedNotCosignedClaim(m) ==>
      NotCosignedClaimObject(lib, EncodeMsgUnpegNotCosignedClaim(lib, m) + rest) == None
  {
    var r2 := "}" + rest;
    var r1 := ",\"not_cosigned_validators\":" + (EncodeValAddresses(lib, m.notCosignedValidators) + r2);
    var r0 := ",\"tx_hash\":" + (JsonString(m.txHash) + r1);
    Regroup8("{\"cosmos_sender\":", EncodeValAddress(lib, m.address),
      ",\"tx_hash\":", JsonString(m.txHash),
      ",\"not_cosigned_validators\":", EncodeValAddresses(lib, m.notCosignedValidators), "}", rest);
    ExpectRoundTrip("{\"cosmos_sender\":", EncodeValAddress(lib, m.address) + r0);
    ValAddressRoundTrip(lib, m.address, r0);
    StringFieldRoundTrip(",\"tx_hash\":", m.txHash, r1);
    ExpectRoundTrip(",\"not_cosigned_validators\":", EncodeValAddresses(lib, m.notCosignedValidators) + r2);
    ValAddressesRoundTrip(lib, m.notCosignedValidators, r2);
    ExpectRoundTrip("}", rest);
  }

  lemma InvitationClaimObjectReadBack(lib: Library, m: MsgInvitationNotCosignedClaim, rest: string)
    requires InvitationClaimReadable(lib, m)
    ensures InvitationClaimObject(lib, EncodeMsgInvitationNotCosignedClaim(lib, m) + rest) == Some((m, rest))
  {
    var r3 := "}" + rest;
    var r2 := ",\"first_cosigner_address\":" + (EncodeValAddress(lib, m.firstCosignerAddress) + r3);
    var r1 := ",\"mainchain_address\":" + (JsonString(m.mainchainAddress) + r2);
    var r0 := ",\"tx_hash\":" + (JsonString(m.txHash) + r1);
    Regroup10("{\"validator_address\":", EncodeValAddress(lib, m.address),
      ",\"tx_hash\":", JsonString(m.txHash),
      ",\"mainchain_address\":", JsonString(m.mainchainAddress),
      ",\"first_cosigner_address\":", EncodeValAddress(lib, m.firstCosignerAddress), "}", rest);
    ExpectRoundTrip("{\"validator_address\":", EncodeValAddress(lib, m.address) + r0);
    ValAddressReadBack(lib, m.address, r0);
    StringFieldRoundTrip(",\"tx_hash\":", m.txHash, r1);
    StringFieldRoundTrip(",\"mainchain_address\":", m.mainchainAddress, r2);
    ExpectRoundTrip(",\"first_cosigner_address\":", EncodeValAddress(lib, m.firstCosignerAddress) + r3);
    ValAddressReadBack(lib, m.firstCosignerAddress, r3);
    ExpectRoundTrip("}", rest);
  }

  lemma InvitationClaimObjectRoundTrip(lib: Library, m: MsgInvitationNotCosignedClaim, rest: string)
    requires Bech32RoundTrip(lib)
    ensures WellFormedInvitationClaim(m) ==>
      InvitationClaimObject(lib, EncodeMsgInvitationNotCosignedClaim(lib, m) + rest) == Some((m, rest))
    ensures !WellFormedInvitationClaim(m) ==>
      InvitationClaimObject(lib, EncodeMsgInvitationNotCosignedClaim(lib, m) + rest) == None
  {
    var r3 := "}" + rest;
    var r2 := ",\"first_cosigner_address\":" + (EncodeValAddress(lib, m.firstCosignerAddress) + r3);
    var r1 := ",\"mainchain_address\":" + (JsonString(m.mainchainAddress) + r2);
    var r0 := ",\"tx_hash\":" + (JsonString(m.txHash) + r1);
    Regroup10("{\"validator_address\":", EncodeValAddress(lib, m.address),
      ",\"tx_hash\":", JsonString(m.txHash),
      ",\"mainchain_address\":", JsonString(m.mainchainAddress),
      ",\"first_cosigner_address\":", EncodeValAddress(lib, m.firstCosignerAddress), "}", rest);
    ExpectRoundTrip("{\"validator_address\":", EncodeValAddress(lib, m.address) + r0);
    ValAddressRoundTrip(lib, m.address, r0);
    StringFieldRoundTrip(",\"tx_hash\":", m.txHash, r1);
    StringFieldRoundTrip(",\"mainchain_address\":", m.mainchainAddress, r2);
    ExpectRoundTrip(",\"first_cosigner_address\":", EncodeValAddress(lib, m.firstCosignerAddress) + r3);
    ValAddressRoundTrip(lib, m.firstCosignerAddress, r3);
    ExpectRoundTrip("}", rest);
  }

  // ---------------------------------------------------------------------
  // claim.go

  /** The oracle claim for a peg claim: its id is the mainchain tx hash, its
      validator the message's address, its content the message's JSON. The
      marshalling error branch of the source cannot be taken for these
      message types, so the result is a plain claim. */
  function CreateOracleClaimFromMsgPegClaim(lib: Library, msg: MsgPegClaim): (c: Claim)
    ensures c.id == msg.mainchainTxHash && c.validatorAddress == msg.address
  {
    Claim(msg.mainchainTxHash, msg.address, EncodeMsgPegClaim(lib, msg))
  }

  function CreateOracleClaimFromMsgUnpegNotCosignedClaim(lib: Library, msg: MsgUnpegNotCosignedClaim): (c: Claim)
    ensures c.id == msg.txHash && c.validatorAddress == msg.address
  {
    Claim(msg.txHash, msg.address, EncodeMsgUnpegNotCosignedClaim(lib, msg))
  }

  function CreateOracleClaimFromMsgInvitationNotCosignedClaim(lib: Library, msg: MsgInvitationNotCosignedClaim): (c: Claim)
    ensures c.id == msg.txHash && c.validatorAddress == msg.address
  {
    Claim(msg.txHash, msg.address, EncodeMsgInvitationNotCosignedClaim(lib, msg))
  }

  /** Reads a peg claim back from a claim's content; anything that is not
      such an object fails with ErrJSONMarshalling. */
  function CreateMsgPegClaimFromOracleString(lib: Library, s: string): (r: Result<MsgPegClaim, Error>)
    ensures r.Failure? ==> r.error == JSONMarshalling(ParseClaimFailure)
    ensures r.Failure? <==> DecodeMsgPegClaim(lib, s).None?
  {
    match DecodeMsgPegClaim(lib, s)
    case None => Failure(JSONMarshalling(ParseClaimFailure))
    case Some(m) => Success(m)
  }

  function CreateMsgUnpegNotCosignedClaimFromOracleString(lib: Library, s: string): (r: Result<MsgUnpegNotCosignedClaim, Error>)
    ensures r.Failure? ==> r.error == JSONMarshalling(ParseClaimFailure)
    ensures r.Failure? <==> DecodeMsgUnpegNotCosignedClaim(lib, s).None?
  {
    match DecodeMsgUnpegNotCosignedClaim(lib, s)
    case None => Failure(JSONMarshalling(ParseClaimFailure))
    case Some(m) => Success(m)
  }

  function CreateMsgInvitationNotCosignedClaimFromOracleString(lib: Library, s: string): (r: Result<MsgInvitationNotCosignedClaim, Error>)
    ensures r.Failure? ==> r.error == JSONMarshalling(ParseClaimFailure)
    ensures r.Failure? <==> DecodeMsgInvitationNotCosignedClaim(lib, s).None?
  {
    match DecodeMsgInvitationNotCosignedClaim(lib, s)
    case None => Failure(JSONMarshalling(ParseClaimFailure))
    case Some(m) => Success(m)
  }

  /** Round trip: with the SDK's codec, the content of a peg claim's oracle
      claim reads back as the same message when its addresses are well
      formed, and fails with ErrJSONMarshalling when one of them has the
      wrong length. */
  lemma PegClaimRoundTrip(lib: Library, msg: MsgPegClaim)
    requires Bech32RoundTrip(lib)
    ensures var r := CreateMsgPegClaimFromOracleString(lib, CreateOracleClaimFromMsgPegClaim(lib, msg).content);
      && (WellFormedPegClaim(msg) ==> r == Success(msg))
      && (!WellFormedPegClaim(msg) ==> r == Failure(JSONMarshalling(ParseClaimFailure)))
  {
    PegClaimObjectRoundTrip(lib, msg, "");
    assert EncodeMsgPegClaim(lib, msg) + "" == EncodeMsgPegClaim(lib, msg);
  }

  lemma NotCosignedClaimRoundTrip(lib: Library, msg: MsgUnpegNotCosignedClaim)
    requires Bech32RoundTrip(lib)
    ensures var r := CreateMsgUnpegNotCosignedClaimFromOracleString(lib,
        CreateOracleClaimFromMsgUnpegNotCosignedClaim(lib, msg).content);
      && (WellFormedNotCosignedClaim(msg) ==> r == Success(msg))
      && (!WellFormedNotCosignedClaim(msg) ==> r == Failure(JSONMarshalling(ParseClaimFailure)))
  {
    NotCosignedClaimObjectRoundTrip(lib, msg, "");
    assert EncodeMsgUnpegNotCosignedClaim(lib, msg) + "" == EncodeMsgUnpegNotCosignedClaim(lib, msg);
  }

  lemma InvitationClaimRoundTrip(lib: Library, msg: MsgInvitationNotCosignedClaim)
    requires Bech32RoundTrip(lib)
    ensures var r := CreateMsgInvitationNotCosignedClaimFromOracleString(lib,
        CreateOracleClaimFromMsgInvitationNotCosignedClaim(lib, msg).content);
      && (WellFormedInvitationClaim(msg) ==> r == Success(msg))
      && (!WellFormedInvitationClaim(msg) ==> r == Failure(JSONMarshalling(ParseClaimFailure)))
  {
    InvitationClaimObjectRoundTrip(lib, msg, "");
    assert EncodeMsgInvitationNotCosignedClaim(lib, msg) + "" == EncodeMsgInvitationNotCosignedClaim(lib, msg);
  }

  // ---------------------------------------------------------------------
  // Injectivity of contents. The encoders use only the `String()` methods,
  // so a content string determines the message as soon as printing is
  // injective: a decoder that inverts printing then reads every message
  // back.

  ghost function ValPreimage(lib: Library, s: string): Result<ValAddress, Error> {
    if exists a: ValAddress :: |a| > 0 && lib.valAddressString(a) == s then
      var a: ValAddress :| |a| > 0 && lib.valAddressString(a) == s; Success(a)
    else Failure(DecodeFailure(s))
  }

  ghost function AccPreimage(lib: Library, s: string): Result<AccAddress, Error> {
    if exists a: AccAddress :: |a| > 0 && lib.accAddressString(a) == s then
      var a: AccAddress :| |a| > 0 && lib.accAddressString(a) == s; Success(a)
    else Failure(DecodeFailure(s))
  }

  /** `lib` with decoders that invert its printing. */
  ghost function InvertPrinting(lib: Library): (inv: Library)
    ensures inv.valAddressString == lib.valAddressString && inv.accAddressString == lib.accAddressString
  {
    lib.(valAddressFromBech32 := s => ValPreimage(lib, s), accAddressFromBech32 := s => AccPreimage(lib, s))
  }

  /** With injective printing, the inverting decoders read every address
      back. */
  lemma InvertPrintingReadsBack(lib: Library, a: seq<byte>)
    requires AddressTextInjective(lib)
    ensures ValReadable(InvertPrinting(lib), a) && AccReadable(InvertPrinting(lib), a)
  {
    var inv := InvertPrinting(lib);
    if |a| > 0 {
      assert inv.valAddressFromBech32(lib.valAddressString(a)) == ValPreimage(lib, lib.valAddressString(a));
      assert inv.accAddressFromBech32(lib.accAddressString(a)) == AccPreimage(lib, lib.accAddressString(a));
    }
  }

  lemma {:induction false} EncodeValAddressesTailPrinting(lib: Library, other: Library, vs: seq<ValAddress>)
    requires other.valAddressString == lib.valAddressString
    ensures EncodeValAddressesTail(other, vs) == EncodeValAddressesTail(lib, vs)
    decreases |vs|
  {
    if |vs| > 0 {
      EncodeValAddressesTailPrinting(lib, other, vs[1..]);
    }
  }

  /** Different messages never share a content string: printing addresses
      injectively is all this needs, whatever the addresses' lengths. */
  lemma PegClaimContentInjective(lib: Library, m1: MsgPegClaim, m2: MsgPegClaim)
    requires AddressTextInjective(lib)
    requires CreateOracleClaimFromMsgPegClaim(lib, m1).content == CreateOracleClaimFromMsgPegClaim(lib, m2).content
    ensures m1 == m2
  {
    var inv := InvertPrinting(lib);
    InvertPrintingReadsBack(lib, m1.address);
    InvertPrintingReadsBack(lib, m1.toAddress);
    InvertPrintingReadsBack(lib, m2.address);
    InvertPrintingReadsBack(lib, m2.toAddress);
    assert EncodeMsgPegClaim(inv, m1) == EncodeMsgPegClaim(lib, m1);
    assert EncodeMsgPegClaim(inv, m2) == EncodeMsgPegClaim(lib, m2);
    PegClaimObjectReadBack(inv, m1, "");
    PegClaimObjectReadBack(inv, m2, "");
    assert EncodeMsgPegClaim(lib, m1) + "" == EncodeMsgPegClaim(lib, m1);
    assert EncodeMsgPegClaim(lib, m2) + "" == EncodeMsgPegClaim(lib, m2);
  }

  lemma NotCosignedClaimContentInjective(lib: Library, m1: MsgUnpegNotCosignedClaim, m2: MsgUnpegNotCosignedClaim)
    requires AddressTextInjective(lib)
    requires CreateOracleClaimFromMsgUnpegNotCosignedClaim(lib, m1).content
      == CreateOracleClaimFromMsgUnpegNotCosignedClaim(lib, m2).content
    ensures m1 == m2
  {
    var inv := InvertPrinting(lib);
    InvertPrintingReadsBack(lib, m1.address);
    InvertPrintingReadsBack(lib, m2.address);
    forall i | 0 <= i < |m1.notCosignedValidators| ensures ValReadable(inv, m1.notCosignedValidators[i]) {
      InvertPrintingReadsBack(lib, m1.notCosignedValidators[i]);
    }
    forall i | 0 <= i < |m2.notCosignedValidators| ensures ValReadable(inv, m2.notCosignedValidators[i]) {
      InvertPrintingReadsBack(lib, m2.notCosignedValidators[i]);
    }
    EncodeValAddressesTailPrinting(lib, inv, m1.notCosignedValidators);
    EncodeValAddressesTailPrinting(lib, inv, m2.notCosignedValidators);
    if |m1.notCosignedValidators| > 0 {
      EncodeValAddressesTailPrinting(lib, inv, m1.notCosignedValidators[1..]);
    }
    if |m2.notCosignedValidators| > 0 {
      EncodeValAddressesTailPrinting(lib, inv, m2.notCosignedValidators[1..]);
    }
    assert EncodeMsgUnpegNotCosignedClaim(inv, m1) == EncodeMsgUnpegNotCosignedClaim(lib, m1);
    assert EncodeMsgUnpegNotCosignedClaim(inv, m2) == EncodeMsgUnpegNotCosignedClaim(lib, m2);
    NotCosignedClaimObjectReadBack(inv, m1, "");
    NotCosignedClaimObjectReadBack(inv, m2, "");
    assert EncodeMsgUnpegNotCosignedClaim(lib, m1) + "" == EncodeMsgUnpegNotCosignedClaim(lib, m1);
    assert EncodeMsgUnpegNotCosignedClaim(lib, m2) + "" == EncodeMsgUnpegNotCosignedClaim(lib, m2);
  }

  lemma InvitationClaimContentInjective(lib: Library, m1: MsgInvitationNotCosignedClaim, m2: MsgInvitationNotCosignedClaim)
    requires AddressTextInjective(lib)
    requires CreateOracleClaimFromMsgInvitationNotCosignedClaim(lib, m1).content
      == CreateOracleClaimFromMsgInvitationNotCosignedClaim(lib, m2).content
    ensures m1 == m2
  {
    var inv := InvertPrinting(lib);
    InvertPrintingReadsBack(lib, m1.address);
    InvertPrintingReadsBack(lib, m1.firstCosignerAddress);
    InvertPrintingReadsBack(lib, m2.address);
    InvertPrintingReadsBack(lib, m2.firstCosignerAddress);
    assert EncodeMsgInvitationNotCosignedClaim(inv, m1) == EncodeMsgInvitationNotCosignedClaim(lib, m1);
    assert EncodeMsgInvitationNotCosignedClaim(inv, m2) == EncodeMsgInvitationNotCosignedClaim(lib, m2);
    InvitationClaimObjectReadBack(inv, m1, "");
    InvitationClaimObjectReadBack(inv, m2, "");
    assert EncodeMsgInvitationNotCosignedClaim(lib, m1) + "" == EncodeMsgInvitationNotCosignedClaim(lib, m1);
    assert EncodeMsgInvitationNotCosignedClaim(lib, m2) + "" == EncodeMsgInvitationNotCosignedClaim(lib, m2);
  }

  /** An injective printing of bytes, one character per byte after a
      prefix character. */
  function ByteText(a: seq<byte>): string {
    ['x'] + seq(|a|, i requires 0 <= i < |a| => (a[i] as int) as char)
  }

  lemma ByteTextInjective(a: seq<byte>, b: seq<byte>)
    requires ByteText(a) == ByteText(b)
    ensures a == b
  {
    assert |a| == |b|;
    forall i | 0 <= i < |a| ensures a[i] == b[i] {
      assert ByteText(a)[i + 1] == ByteText(b)[i + 1];
    }
  }

  /** A decoder's answer after the SDK's length check. */
  function LengthChecked(r: Result<seq<byte>, Error>, s: string): Result<seq<byte>, Error> {
    if r.Success? && |r.value| != AddrLen then Failure(DecodeFailure(s)) else r
  }

  /** The two assumptions the codec lemmas make of the library agree with
      each other: a library that prints injectively and refuses every
      length but `AddrLen` exists, so neither is vacuous. */
  lemma SdkCodecExists()
    ensures exists lib: Library :: Bech32RoundTrip(lib) && AddressTextInjective(lib)
  {
    var printer := Library(s => Failure(DecodeFailure(s)), s => Failure(DecodeFailure(s)),
      a => ByteText(a), a => ByteText(a), s => Failure(InvalidCoins));
    forall a: seq<byte>, b: seq<byte> | ByteText(a) == ByteText(b) ensures a == b {
      ByteTextInjective(a, b);
    }
    assert AddressTextInjective(printer);
    var lib := printer.(
      valAddressFromBech32 := s => LengthChecked(ValPreimage(printer, s), s),
      accAddressFromBech32 := s => LengthChecked(AccPreimage(printer, s), s));
    assert AddressTextInjective(lib);
    forall a: seq<byte> | |a| > 0
      ensures lib.valAddressFromBech32(lib.valAddressString(a)) == LengthChecked(Success(a), ByteText(a))
      ensures lib.accAddressFromBech32(lib.accAddressString(a)) == LengthChecked(Success(a), ByteText(a))
    {
      InvertPrintingReadsBack(printer, a);
      assert InvertPrinting(printer).valAddressFromBech32(ByteText(a)) == ValPreimage(printer, ByteText(a));
      assert InvertPrinting(printer).accAddressFromBech32(ByteText(a)) == AccPreimage(printer, ByteText(a));
    }
    assert Bech32RoundTrip(lib);
  }

  /** Text after the object is refused: with the SDK's codec, any content
      string followed by anything else fails with ErrJSONMarshalling. */
  lemma TrailingTextRejected(lib: Library, peg: MsgPegClaim, notCosigned: MsgUnpegNotCosignedClaim,
                             invitation: MsgInvitationNotCosignedClaim, extra: string)
    requires Bech32RoundTrip(lib)
    requires extra != ""
    ensures CreateMsgPegClaimFromOracleString(lib, EncodeMsgPegClaim(lib, peg) + extra)
      == Failure(JSONMarshalling(ParseClaimFailure))
    ensures CreateMsgUnpegNotCosignedClaimFromOracleString(lib, EncodeMsgUnpegNotCosignedClaim(lib, notCosigned) + extra)
      == Failure(JSONMarshalling(ParseClaimFailure))
    ensures CreateMsgInvitationNotCosignedClaimFromOracleString(lib, EncodeMsgInvitationNotCosignedClaim(lib, invitation) + extra)
      == Failure(JSONMarshalling(ParseClaimFailure))
  {
    PegClaimObjectRoundTrip(lib, peg, extra);
    NotCosignedClaimObjectRoundTrip(lib, notCosigned, extra);
    InvitationClaimObjectRoundTrip(lib, invitation, extra);
  }

  /** A string that does not open with the expected object, the empty
      string among them, fails with ErrJSONMarshalling, for each kind. */
  lemma NonObjectRejected(lib: Library, s: string)
    requires s == "" || s[0] != '{'
    ensures CreateMsgPegClaimFromOracleString(lib, s) == Failure(JSONMarshalling(ParseClaimFailure))
    ensures CreateMsgUnpegNotCosignedClaimFromOracleString(lib, s) == Failure(JSONMarshalling(ParseClaimFailure))
    ensures CreateMsgInvitationNotCosignedClaimFromOracleString(lib, s) == Failure(JSONMarshalling(ParseClaimFailure))
  {
  }
}
