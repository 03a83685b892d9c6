/** The bridge keeper's settlement logic
    (x/proximax-bridge/internal/keeper/keeper.go): claims go to the oracle,
    a successful claim mints into the module account and pays the
    receiver, a burn takes coins from a sender and destroys them, a lock
    takes coins from a sender into the module account. Each method is
    proved against a pure function on the supply store's `Ledger`; what the
    source promises is proved about those functions. */
module BridgeKeeper {
  import opened BridgeTypes
  import opened Supply

  /** `types.EthBridgeClaim` and `types.ClaimType`; neither is part of this
      model beyond being values. */
  type EthBridgeClaim
  type ClaimType(==)

  /** The decoded content of a successful claim (`OracleClaimContent`). */
  datatype OracleClaimContent = OracleClaimContent(cosmosReceiver: AccAddress, amount: Coins, claimType: ClaimType)

  /** The names the keeper uses but that are defined elsewhere:
      `types.ModuleName`, `types.LockText`, and the two claim conversions
      `types.CreateOracleClaimFromEthClaim` and
      `types.CreateOracleClaimFromOracleString`. */
  datatype KeeperEnv = KeeperEnv(
    moduleName: string,
    lockText: ClaimType,
    oracleClaimFromEthClaim: EthBridgeClaim -> Result<Claim, Error>,
    oracleClaimFromOracleString: string -> Result<OracleClaimContent, Error>)

  /** How a keeper call ends: normally, with a returned error, or with a
      panic (which the host turns into a failed transaction). */
  datatype Completion = Done | Failed(error: Error) | Aborted(cause: Error)

  /** The store after a call, and how the call ended. */
  datatype Settlement = Settlement(ledger: Ledger, completion: Completion)

  // ---------------------------------------------------------------------
  // Specifications on ledger values

  /** `ProcessClaim`: the oracle's answer, and the claims the oracle has
      seen afterwards. */
  function SubmitClaim(env: KeeperEnv, decide: (seq<Claim>, Claim) -> Result<Status, Error>,
                       seen: seq<Claim>, claim: EthBridgeClaim): (r: (Result<Status, Error>, seq<Claim>))
    ensures env.oracleClaimFromEthClaim(claim).Failure? ==>
      r == (Failure(env.oracleClaimFromEthClaim(claim).error), seen)
    ensures env.oracleClaimFromEthClaim(claim).Success? ==>
      var oc := env.oracleClaimFromEthClaim(claim).value;
      r == (decide(seen, oc), seen + [oc])
  {
    match env.oracleClaimFromEthClaim(claim)
    case Failure(e) => (Failure(e), seen)
    case Success(oc) => (decide(seen, oc), seen + [oc])
  }

  /** `ProcessSuccessfulClaim`: decode, mint (LockText claims only), send. */
  function Settle(env: KeeperEnv, cfg: SupplyConfig, l: Ledger, claim: string): (s: Settlement)
    ensures s.completion.Failed? ==> s.ledger == l
  {
    match env.oracleClaimFromOracleString(claim)
    case Failure(e) => Settlement(l, Failed(e))
    case Success(c) =>
      var minted := if c.claimType == env.lockText then Mint(cfg, l, env.moduleName, c.amount)
                    else Failure(InvalidClaimType);
      match minted
      case Failure(e) => Settlement(l, Failed(e))
      case Success(l1) =>
        match SendModuleToAccount(cfg, l1, env.moduleName, c.cosmosReceiver, c.amount)
        case Failure(e) => Settlement(l1, Aborted(e))
        case Success(l2) => Settlement(l2, Done)
  }

  /** `ProcessBurn`: send from the account to the module, then burn. */
  function BurnFrom(env: KeeperEnv, cfg: SupplyConfig, l: Ledger, sender: AccAddress, amount: Coins): (s: Settlement)
    ensures s.completion.Failed? ==> s.ledger == l
  {
    match SendAccountToModule(cfg, l, sender, env.moduleName, amount)
    case Failure(e) => Settlement(l, Failed(e))
    case Success(l1) =>
      match Burn(cfg, l1, env.moduleName, amount)
      case Failure(e) => Settlement(l1, Aborted(e))
      case Success(l2) => Settlement(l2, Done)
  }

  /** `ProcessLock`: one send from the account to the module. */
  function LockFrom(env: KeeperEnv, cfg: SupplyConfig, l: Ledger, sender: AccAddress, amount: Coins): (s: Settlement)
    ensures !s.completion.Aborted?
    ensures s.completion.Failed? ==> s.ledger == l
  {
    match SendAccountToModule(cfg, l, sender, env.moduleName, amount)
    case Failure(e) => Settlement(l, Failed(e))
    case Success(l1) => Settlement(l1, Done)
  }

  // ---------------------------------------------------------------------
  // What settlement promises

  /** A claim string that does not decode returns the decoding error and
      leaves the store as it was: nothing minted, nothing sent. */
  lemma SettleUndecodable(env: KeeperEnv, cfg: SupplyConfig, l: Ledger, claim: string)
    requires env.oracleClaimFromOracleString(claim).Failure?
    ensures Settle(env, cfg, l, claim) == Settlement(l, Failed(env.oracleClaimFromOracleString(claim).error))
  {
  }

  /** A claim type other than LockText returns ErrInvalidClaimType, with
      nothing minted or sent. */
  lemma SettleInvalidClaimType(env: KeeperEnv, cfg: SupplyConfig, l: Ledger, claim: string)
    requires env.oracleClaimFromOracleString(claim).Success?
    requires env.oracleClaimFromOracleString(claim).value.claimType != env.lockText
    ensures Settle(env, cfg, l, claim) == Settlement(l, Failed(InvalidClaimType))
  {
  }

  /** A failed mint returns its error and no transfer is attempted. */
  lemma SettleMintFailure(env: KeeperEnv, cfg: SupplyConfig, l: Ledger, claim: string)
    requires env.oracleClaimFromOracleString(claim).Success?
    requires var c := env.oracleClaimFromOracleString(claim).value;
      c.claimType == env.lockText && Mint(cfg, l, env.moduleName, c.amount).Failure?
    ensures var c := env.oracleClaimFromOracleString(claim).value;
      Settle(env, cfg, l, claim) == Settlement(l, Failed(Mint(cfg, l, env.moduleName, c.amount).error))
  {
  }

  /** A failed transfer after a successful mint aborts: no error is
      returned, and the store holds the minted coins in the module account. */
  lemma SettleAbortsAfterMint(env: KeeperEnv, cfg: SupplyConfig, l: Ledger, claim: string)
    requires Settle(env, cfg, l, claim).completion.Aborted?
    ensures var c := env.oracleClaimFromOracleString(claim).value;
      && env.oracleClaimFromOracleString(claim).Success?
      && c.claimType == env.lockText
      && Mint(cfg, l, env.moduleName, c.amount).Success?
      && Settle(env, cfg, l, claim).ledger == Mint(cfg, l, env.moduleName, c.amount).value
      && Settle(env, cfg, l, claim).completion
         == Aborted(SendModuleToAccount(cfg, Mint(cfg, l, env.moduleName, c.amount).value,
                                        env.moduleName, c.cosmosReceiver, c.amount).error)
  {
  }

  /** A settled LockText claim: the receiver gains the amount, the supply
      grows by it, the module account ends where it started, and no other
      account changes. */
  lemma SettleNetEffect(env: KeeperEnv, cfg: SupplyConfig, l: Ledger, claim: string)
    requires Settle(env, cfg, l, claim).completion == Done
    ensures var c := env.oracleClaimFromOracleString(claim).value;
      var l' := Settle(env, cfg, l, claim).ledger;
      && env.oracleClaimFromOracleString(claim).Success?
      && c.claimType == env.lockText
      && (forall d :: Get(Balance(l', c.cosmosReceiver), d) == Get(Balance(l, c.cosmosReceiver), d) + AmountOf(c.amount, d))
      && (forall d :: Get(l'.supply, d) == Get(l.supply, d) + AmountOf(c.amount, d))
      && (forall d :: Get(l'.moduleBalance, d) == Get(l.moduleBalance, d))
      && (forall a :: a != c.cosmosReceiver ==> Balance(l', a) == Balance(l, a))
  {
    var c := env.oracleClaimFromOracleString(claim).value;
    var l1 := Mint(cfg, l, env.moduleName, c.amount).value;
    assert forall a :: Balance(l1, a) == Balance(l, a);
  }

  /** Settlement keeps the supply equal to what the module and the accounts
      hold, whichever way it ends. */
  lemma SettleConserves(env: KeeperEnv, cfg: SupplyConfig, l: Ledger, claim: string)
    requires Conserved(l)
    ensures Conserved(Settle(env, cfg, l, claim).ledger)
  {
    if env.oracleClaimFromOracleString(claim).Success? {
      var c := env.oracleClaimFromOracleString(claim).value;
      if c.claimType == env.lockText && Mint(cfg, l, env.moduleName, c.amount).Success? {
        var l1 := Mint(cfg, l, env.moduleName, c.amount).value;
        MintConserves(cfg, l, env.moduleName, c.amount);
        if SendModuleToAccount(cfg, l1, env.moduleName, c.cosmosReceiver, c.amount).Success? {
          SendModuleToAccountConserves(cfg, l1, env.moduleName, c.cosmosReceiver, c.amount);
        }
      }
    }
  }

  /** Settlement keeps no record of what it settled: the same claim string
      settled twice pays the receiver twice. */
  lemma SettleTwicePaysTwice(env: KeeperEnv, cfg: SupplyConfig, l: Ledger, claim: string)
    requires Settle(env, cfg, l, claim).completion == Done
    requires Settle(env, cfg, Settle(env, cfg, l, claim).ledger, claim).completion == Done
    ensures var c := env.oracleClaimFromOracleString(claim).value;
      var l2 := Settle(env, cfg, Settle(env, cfg, l, claim).ledger, claim).ledger;
      forall d :: Get(Balance(l2, c.cosmosReceiver), d) == Get(Balance(l, c.cosmosReceiver), d) + 2 * AmountOf(c.amount, d)
  {
    SettleNetEffect(env, cfg, l, claim);
    SettleNetEffect(env, cfg, Settle(env, cfg, l, claim).ledger, claim);
  }

  /** A failed transfer from the sender returns its error and burns
      nothing. */
  lemma BurnTransferFailure(env: KeeperEnv, cfg: SupplyConfig, l: Ledger, sender: AccAddress, amount: Coins)
    requires SendAccountToModule(cfg, l, sender, env.moduleName, amount).Failure?
    ensures BurnFrom(env, cfg, l, sender, amount)
      == Settlement(l, Failed(SendAccountToModule(cfg, l, sender, env.moduleName, amount).error))
  {
  }

  /** A completed burn: the sender loses the amount, so does the supply,
      and the module account ends where it started. A failed burn after the
      transfer aborts with the transferred coins in the module account. */
  lemma BurnNetEffect(env: KeeperEnv, cfg: SupplyConfig, l: Ledger, sender: AccAddress, amount: Coins)
    ensures var s := BurnFrom(env, cfg, l, sender, amount);
      s.completion == Done ==>
        && (forall d :: Get(Balance(s.ledger, sender), d) == Get(Balance(l, sender), d) - AmountOf(amount, d))
        && (forall d :: Get(s.ledger.supply, d) == Get(l.supply, d) - AmountOf(amount, d))
        && (forall d :: Get(s.ledger.moduleBalance, d) == Get(l.moduleBalance, d))
        && (forall a :: a != sender ==> Balance(s.ledger, a) == Balance(l, a))
    ensures var s := BurnFrom(env, cfg, l, sender, amount);
      s.completion.Aborted? ==> s.ledger == SendAccountToModule(cfg, l, sender, env.moduleName, amount).value
  {
    var s := BurnFrom(env, cfg, l, sender, amount);
    if s.completion == Done {
      var l1 := SendAccountToModule(cfg, l, sender, env.moduleName, amount).value;
      assert forall a :: Balance(s.ledger, a) == Balance(l1, a);
    }
  }

  /** In a conserved store the burn after a successful transfer can fail
      only for want of permission. */
  lemma BurnAbortsOnlyWithoutPermission(env: KeeperEnv, cfg: SupplyConfig, l: Ledger, sender: AccAddress, amount: Coins)
    requires Conserved(l)
    requires BurnFrom(env, cfg, l, sender, amount).completion.Aborted?
    ensures BurnFrom(env, cfg, l, sender, amount).completion == Aborted(NoPermission(env.moduleName))
  {
    var l1 := SendAccountToModule(cfg, l, sender, env.moduleName, amount).value;
    SendAccountToModuleConserves(cfg, l, sender, env.moduleName, amount);
    assert Covers(l1.moduleBalance, amount) by {
      CoversEveryDenom(l1.moduleBalance, amount);
    }
    ConservedSupplyCoversModule(l1, amount);
  }

  lemma BurnConservesSupply(env: KeeperEnv, cfg: SupplyConfig, l: Ledger, sender: AccAddress, amount: Coins)
    requires Conserved(l)
    ensures Conserved(BurnFrom(env, cfg, l, sender, amount).ledger)
  {
    if SendAccountToModule(cfg, l, sender, env.moduleName, amount).Success? {
      var l1 := SendAccountToModule(cfg, l, sender, env.moduleName, amount).value;
      SendAccountToModuleConserves(cfg, l, sender, env.moduleName, amount);
      if Burn(cfg, l1, env.moduleName, amount).Success? {
        BurnConserves(cfg, l1, env.moduleName, amount);
      }
    }
  }

  /** A lock is exactly one transfer: the sender loses the amount, the
      module gains it, the supply is unchanged; on failure nothing changes. */
  lemma LockNetEffect(env: KeeperEnv, cfg: SupplyConfig, l: Ledger, sender: AccAddress, amount: Coins)
    ensures var s := LockFrom(env, cfg, l, sender, amount);
      s.completion == Done ==>
        && (forall d :: Get(Balance(s.ledger, sender), d) == Get(Balance(l, sender), d) - AmountOf(amount, d))
        && (forall d :: Get(s.ledger.moduleBalance, d) == Get(l.moduleBalance, d) + AmountOf(amount, d))
        && s.ledger.supply == l.supply
        && (forall a :: a != sender ==> Balance(s.ledger, a) == Balance(l, a))
    ensures var s := LockFrom(env, cfg, l, sender, amount);
      s.completion.Failed? <==> SendAccountToModule(cfg, l, sender, env.moduleName, amount).Failure?
  {
  }

  lemma LockConserves(env: KeeperEnv, cfg: SupplyConfig, l: Ledger, sender: AccAddress, amount: Coins)
    requires Conserved(l)
    ensures Conserved(LockFrom(env, cfg, l, sender, amount).ledger)
  {
    if SendAccountToModule(cfg, l, sender, env.moduleName, amount).Success? {
      SendAccountToModuleConserves(cfg, l, sender, env.moduleName, amount);
    }
  }

  // ---------------------------------------------------------------------
  // The keeper

  class Keeper {
    const env: KeeperEnv
    const supplyKeeper: SupplyKeeper
    const oracleKeeper: OracleKeeper

    constructor (env: KeeperEnv, supplyKeeper: SupplyKeeper, oracleKeeper: OracleKeeper)
      ensures this.env == env && this.supplyKeeper == supplyKeeper && this.oracleKeeper == oracleKeeper
    {
      this.env := env;
      this.supplyKeeper := supplyKeeper;
      this.oracleKeeper := oracleKeeper;
    }

    /** Converts the claim; on failure the oracle is not called. */
    method ProcessClaim(claim: EthBridgeClaim) returns (r: Result<Status, Error>)
      modifies oracleKeeper
      ensures var s := SubmitClaim(env, oracleKeeper.decide, old(oracleKeeper.claims), claim);
        r == s.0 && oracleKeeper.claims == s.1
    {
      var oracleClaim := env.oracleClaimFromEthClaim(claim);
      if oracleClaim.Failure? {
        return Failure(oracleClaim.error);
      }
      r := oracleKeeper.ProcessClaim(oracleClaim.value);
    }

    method ProcessSuccessfulClaim(claim: string) returns (c: Completion)
      modifies supplyKeeper
      ensures var s := Settle(env, supplyKeeper.config, old(supplyKeeper.State()), claim);
        supplyKeeper.State() == s.ledger && c == s.completion
      ensures old(supplyKeeper.Valid()) ==> supplyKeeper.Valid()
    {
      var content := env.oracleClaimFromOracleString(claim);
      if content.Failure? {
        return Failed(content.error);
      }
      var oracleClaim := content.value;
      var err: Option<Error>;
      if oracleClaim.claimType == env.lockText {
        err := supplyKeeper.MintCoins(env.moduleName, oracleClaim.amount);
      } else {
        err := Some(InvalidClaimType);
      }
      if err.Some? {
        return Failed(err.value);
      }
      var sendErr := supplyKeeper.SendCoinsFromModuleToAccount(env.moduleName, oracleClaim.cosmosReceiver, oracleClaim.amount);
      if sendErr.Some? {
        return Aborted(sendErr.value);
      }
      return Done;
    }

    method ProcessBurn(cosmosSender: AccAddress, amount: Coins) returns (c: Completion)
      modifies supplyKeeper
      ensures var s := BurnFrom(env, supplyKeeper.config, old(supplyKeeper.State()), cosmosSender, amount);
        supplyKeeper.State() == s.ledger && c == s.completion
      ensures old(supplyKeeper.Valid()) ==> supplyKeeper.Valid()
    {
      var err := supplyKeeper.SendCoinsFromAccountToModule(cosmosSender, env.moduleName, amount);
      if err.Some? {
        return Failed(err.value);
      }
      var burnErr := supplyKeeper.BurnCoins(env.moduleName, amount);
      if burnErr.Some? {
        return Aborted(burnErr.value);
      }
      return Done;
    }

    method ProcessLock(cosmosSender: AccAddress, amount: Coins) returns (err: Option<Error>)
      modifies supplyKeeper
      ensures var s := LockFrom(env, supplyKeeper.config, old(supplyKeeper.State()), cosmosSender, amount);
        supplyKeeper.State() == s.ledger && (err.None? <==> s.completion == Done)
        && (err.Some? ==> s.completion == Failed(err.value))
      ensures old(supplyKeeper.Valid()) ==> supplyKeeper.Valid()
    {
      err := supplyKeeper.SendCoinsFromAccountToModule(cosmosSender, env.moduleName, amount);
    }
  }
}
