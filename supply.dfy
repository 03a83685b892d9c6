/** In-memory fakes of the two collaborators the bridge keeper is given
    (x/proximax-bridge/internal/types/expected_keepers.go): a supply keeper
    holding per-account balances, the bridge module's account balance and
    the total supply, and an oracle keeper that answers each claim with a
    status. The supply store's operations are pure functions on a `Ledger`
    value; the classes hold the current ledger and apply them. */
module Supply {
  import opened BridgeTypes

  // ---------------------------------------------------------------------
  // Balances

  /** The amount held of each denomination; a missing denomination is 0. */
  type Bal = map<string, nat>

  function Get(b: Bal, d: string): nat {
    if d in b then b[d] else 0
  }

  /** The total amount of denomination `d` in a list of coins. */
  function AmountOf(cs: Coins, d: string): nat
    decreases |cs|
  {
    if |cs| == 0 then 0 else (if cs[0].denom == d then cs[0].amount else 0) + AmountOf(cs[1..], d)
  }

  /** The validity the supply keeper demands of an amount: positive amounts
      and no denomination twice. */
  predicate ValidCoins(cs: Coins) {
    && (forall i :: 0 <= i < |cs| ==> cs[i].amount > 0)
    && (forall i, j :: 0 <= i < j < |cs| ==> cs[i].denom != cs[j].denom)
  }

  /** `b` holds at least `cs`, denomination by denomination. */
  predicate Covers(b: Bal, cs: Coins) {
    forall i :: 0 <= i < |cs| ==> AmountOf(cs, cs[i].denom) <= Get(b, cs[i].denom)
  }

  lemma {:induction false} AmountOfAbsent(cs: Coins, d: string)
    requires forall i :: 0 <= i < |cs| ==> cs[i].denom != d
    ensures AmountOf(cs, d) == 0
    decreases |cs|
  {
    if |cs| > 0 {
      AmountOfAbsent(cs[1..], d);
    }
  }

  /** Covering means covering every denomination, listed or not. */
  lemma CoversEveryDenom(b: Bal, cs: Coins)
    ensures Covers(b, cs) <==> forall d :: AmountOf(cs, d) <= Get(b, d)
  {
    if Covers(b, cs) {
      forall d ensures AmountOf(cs, d) <= Get(b, d) {
        if forall i :: 0 <= i < |cs| ==> cs[i].denom != d {
          AmountOfAbsent(cs, d);
        }
      }
    }
  }

  function AddCoins(b: Bal, cs: Coins): (r: Bal)
    ensures forall d :: Get(r, d) == Get(b, d) + AmountOf(cs, d)
    decreases |cs|
  {
    if |cs| == 0 then b
    else AddCoins(b[cs[0].denom := Get(b, cs[0].denom) + cs[0].amount], cs[1..])
  }

  function SubCoins(b: Bal, cs: Coins): (r: Bal)
    requires Covers(b, cs)
    ensures forall d :: Get(r, d) == Get(b, d) - AmountOf(cs, d)
    decreases |cs|
  {
    if |cs| == 0 then b
    else
      assert AmountOf(cs, cs[0].denom) <= Get(b, cs[0].denom);
      var b' := b[cs[0].denom := Get(b, cs[0].denom) - cs[0].amount];
      assert Covers(b', cs[1..]) by {
        forall i | 0 <= i < |cs[1..]| ensures AmountOf(cs[1..], cs[1..][i].denom) <= Get(b', cs[1..][i].denom) {
          assert cs[1..][i] == cs[i + 1];
        }
      }
      SubCoins(b', cs[1..])
  }

  // ---------------------------------------------------------------------
  // The store

  /** Account balances, the bridge module account's balance and the total
      supply of every denomination. */
  datatype Ledger = Ledger(accounts: map<AccAddress, Bal>, moduleBalance: Bal, supply: Bal)

  function Balance(l: Ledger, a: AccAddress): Bal {
    if a in l.accounts then l.accounts[a] else map[]
  }

  /** The fake's fixed setup: the one module account it knows, the
      addresses that may not receive funds from modules, and whether that
      module may mint and burn. */
  datatype SupplyConfig = SupplyConfig(moduleName: string, blocked: set<AccAddress>, canMint: bool, canBurn: bool)

  /** `MintCoins(ctx, name, amt)`: new coins in the module account. */
  function Mint(cfg: SupplyConfig, l: Ledger, name: string, amt: Coins): (r: Result<Ledger, Error>)
    ensures r.Success? <==> name == cfg.moduleName && cfg.canMint && ValidCoins(amt)
    ensures name != cfg.moduleName ==> r == Failure(UnknownModule(name))
    ensures r.Success? ==> && r.value.accounts == l.accounts
                           && (forall d :: Get(r.value.moduleBalance, d) == Get(l.moduleBalance, d) + AmountOf(amt, d))
                           && (forall d :: Get(r.value.supply, d) == Get(l.supply, d) + AmountOf(amt, d))
  {
    if name != cfg.moduleName then Failure(UnknownModule(name))
    else if !cfg.canMint then Failure(NoPermission(name))
    else if !ValidCoins(amt) then Failure(InvalidCoins)
    else Success(Ledger(l.accounts, AddCoins(l.moduleBalance, amt), AddCoins(l.supply, amt)))
  }

  /** `BurnCoins(ctx, name, amt)`: coins leave the module account and the
      supply. */
  function Burn(cfg: SupplyConfig, l: Ledger, name: string, amt: Coins): (r: Result<Ledger, Error>)
    ensures r.Success? <==> && name == cfg.moduleName && cfg.canBurn && ValidCoins(amt)
                            && Covers(l.moduleBalance, amt) && Covers(l.supply, amt)
    ensures name != cfg.moduleName ==> r == Failure(UnknownModule(name))
    ensures r.Success? ==> && r.value.accounts == l.accounts
                           && (forall d :: Get(r.value.moduleBalance, d) == Get(l.moduleBalance, d) - AmountOf(amt, d))
                           && (forall d :: Get(r.value.supply, d) == Get(l.supply, d) - AmountOf(amt, d))
  {
    if name != cfg.moduleName then Failure(UnknownModule(name))
    else if !cfg.canBurn then Failure(NoPermission(name))
    else if !ValidCoins(amt) then Failure(InvalidCoins)
    else if !Covers(l.moduleBalance, amt) || !Covers(l.supply, amt) then Failure(InsufficientFunds)
    else Success(Ledger(l.accounts, SubCoins(l.moduleBalance, amt), SubCoins(l.supply, amt)))
  }

  /** `SendCoinsFromModuleToAccount(ctx, senderModule, recipientAddr, amt)`. */
  function SendModuleToAccount(cfg: SupplyConfig, l: Ledger, senderModule: string, to: AccAddress, amt: Coins)
    : (r: Result<Ledger, Error>)
    ensures r.Success? <==> && senderModule == cfg.moduleName && to !in cfg.blocked
                            && ValidCoins(amt) && Covers(l.moduleBalance, amt)
    ensures senderModule == cfg.moduleName && to in cfg.blocked ==> r == Failure(BlockedAddress(to))
    ensures r.Success? ==> && r.value.supply == l.supply
                           && (forall a :: a != to ==> Balance(r.value, a) == Balance(l, a))
                           && (forall d :: Get(Balance(r.value, to), d) == Get(Balance(l, to), d) + AmountOf(amt, d))
                           && (forall d :: Get(r.value.moduleBalance, d) == Get(l.moduleBalance, d) - AmountOf(amt, d))
  {
    if senderModule != cfg.moduleName then Failure(UnknownModule(senderModule))
    else if to in cfg.blocked then Failure(BlockedAddress(to))
    else if !ValidCoins(amt) then Failure(InvalidCoins)
    else if !Covers(l.moduleBalance, amt) then Failure(InsufficientFunds)
    else Success(Ledger(l.accounts[to := AddCoins(Balance(l, to), amt)], SubCoins(l.moduleBalance, amt), l.supply))
  }

  /** `SendCoinsFromAccountToModule(ctx, senderAddr, recipientModule, amt)`. */
  function SendAccountToModule(cfg: SupplyConfig, l: Ledger, from: AccAddress, recipientModule: string, amt: Coins)
    : (r: Result<Ledger, Error>)
    ensures r.Success? <==> && recipientModule == cfg.moduleName && ValidCoins(amt)
                            && Covers(Balance(l, from), amt)
    ensures r.Success? ==> && r.value.supply == l.supply
                           && (forall a :: a != from ==> Balance(r.value, a) == Balance(l, a))
                           && (forall d :: Get(Balance(r.value, from), d) == Get(Balance(l, from), d) - AmountOf(amt, d))
                           && (forall d :: Get(r.value.moduleBalance, d) == Get(l.moduleBalance, d) + AmountOf(amt, d))
  {
    if recipientModule != cfg.moduleName then Failure(UnknownModule(recipientModule))
    else if !ValidCoins(amt) then Failure(InvalidCoins)
    else if !Covers(Balance(l, from), amt) then Failure(InsufficientFunds)
    else Success(Ledger(l.accounts[from := SubCoins(Balance(l, from), amt)], AddCoins(l.moduleBalance, amt), l.supply))
  }

  // ---------------------------------------------------------------------
  // Conservation: the supply of each denomination is what the module
  // account and all the accounts hold together.

  ghost function PickAccount(accounts: map<AccAddress, Bal>): (a: AccAddress)
    requires accounts != map[]
    ensures a in accounts
  {
    var a :| a in accounts; a
  }

  ghost function AccountsTotal(accounts: map<AccAddress, Bal>, d: string): nat
    decreases |accounts|
  {
    if accounts == map[] then 0
    else
      var a := PickAccount(accounts);
      Get(accounts[a], d) + AccountsTotal(accounts - {a}, d)
  }

  /** The total does not depend on which account the definition picks. */
  lemma {:induction false} AccountsTotalRemove(accounts: map<AccAddress, Bal>, a: AccAddress, d: string)
    requires a in accounts
    ensures AccountsTotal(accounts, d) == Get(accounts[a], d) + AccountsTotal(accounts - {a}, d)
    decreases |accounts|
  {
    var b := PickAccount(accounts);
    if b != a {
      var rest := accounts - {b};
      assert a in rest;
      AccountsTotalRemove(rest, a, d);
      var both := rest - {a};
      assert both == (accounts - {a}) - {b};
      assert b in accounts - {a};
      AccountsTotalRemove(accounts - {a}, b, d);
    }
  }

  /** Replacing one account's balance changes the total by the difference. */
  lemma AccountsTotalUpdate(accounts: map<AccAddress, Bal>, a: AccAddress, v: Bal, d: string)
    ensures AccountsTotal(accounts[a := v], d) + Get(if a in accounts then accounts[a] else map[], d)
         == AccountsTotal(accounts, d) + Get(v, d)
  {
    AccountsTotalRemove(accounts[a := v], a, d);
    assert accounts[a := v] - {a} == accounts - {a};
    if a in accounts {
      AccountsTotalRemove(accounts, a, d);
    } else {
      assert accounts - {a} == accounts;
    }
  }

  ghost predicate Conserved(l: Ledger) {
    forall d :: Get(l.supply, d) == Get(l.moduleBalance, d) + AccountsTotal(l.accounts, d)
  }

  /** In a conserved ledger the supply covers whatever the module holds, so
      a burn fails only for the reasons the supply keeper checks. */
  lemma ConservedSupplyCoversModule(l: Ledger, amt: Coins)
    requires Conserved(l) && Covers(l.moduleBalance, amt)
    ensures Covers(l.supply, amt)
  {
    CoversEveryDenom(l.moduleBalance, amt);
    CoversEveryDenom(l.supply, amt);
  }

  lemma MintConserves(cfg: SupplyConfig, l: Ledger, name: string, amt: Coins)
    requires Conserved(l) && Mint(cfg, l, name, amt).Success?
    ensures Conserved(Mint(cfg, l, name, amt).value)
  {
  }

  lemma BurnConserves(cfg: SupplyConfig, l: Ledger, name: string, amt: Coins)
    requires Conserved(l) && Burn(cfg, l, name, amt).Success?
    ensures Conserved(Burn(cfg, l, name, amt).value)
  {
  }

  lemma SendModuleToAccountConserves(cfg: SupplyConfig, l: Ledger, senderModule: string, to: AccAddress, amt: Coins)
    requires Conserved(l) && SendModuleToAccount(cfg, l, senderModule, to, amt).Success?
    ensures Conserved(SendModuleToAccount(cfg, l, senderModule, to, amt).value)
  {
    var l' := SendModuleToAccount(cfg, l, senderModule, to, amt).value;
    forall d ensures Get(l'.supply, d) == Get(l'.moduleBalance, d) + AccountsTotal(l'.accounts, d) {
      AccountsTotalUpdate(l.accounts, to, AddCoins(Balance(l, to), amt), d);
    }
  }

  lemma SendAccountToModuleConserves(cfg: SupplyConfig, l: Ledger, from: AccAddress, recipientModule: string, amt: Coins)
    requires Conserved(l) && SendAccountToModule(cfg, l, from, recipientModule, amt).Success?
    ensures Conserved(SendAccountToModule(cfg, l, from, recipientModule, amt).value)
  {
    var l' := SendAccountToModule(cfg, l, from, recipientModule, amt).value;
    forall d ensures Get(l'.supply, d) == Get(l'.moduleBalance, d) + AccountsTotal(l'.accounts, d) {
      AccountsTotalUpdate(l.accounts, from, SubCoins(Balance(l, from), amt), d);
    }
  }

  // ---------------------------------------------------------------------
  // The fakes

  /** How a supply keeper call leaves the store: the new ledger and no
      error, or the old ledger and the error. */
  predicate Applied(r: Result<Ledger, Error>, before: Ledger, after: Ledger, err: Option<Error>) {
    match r
    case Success(l) => after == l && err == None
    case Failure(e) => after == before && err == Some(e)
  }

  class SupplyKeeper {
    const config: SupplyConfig
    var accounts: map<AccAddress, Bal>
    var moduleBalance: Bal
    var supply: Bal

    function State(): Ledger
      reads this
    {
      Ledger(accounts, moduleBalance, supply)
    }

    ghost predicate Valid()
      reads this
    {
      Conserved(State())
    }

    constructor (config: SupplyConfig, initial: Ledger)
      ensures this.config == config && State() == initial
    {
      this.config := config;
      accounts, moduleBalance, supply := initial.accounts, initial.moduleBalance, initial.supply;
    }

    method Store(l: Ledger)
      modifies this
      ensures State() == l
    {
      accounts, moduleBalance, supply := l.accounts, l.moduleBalance, l.supply;
    }

    method MintCoins(name: string, amt: Coins) returns (err: Option<Error>)
      modifies this
      ensures Applied(Mint(config, old(State()), name, amt), old(State()), State(), err)
      ensures old(Valid()) ==> Valid()
    {
      var r := Mint(config, State(), name, amt);
      if r.Success? {
        if Valid() { MintConserves(config, State(), name, amt); }
        Store(r.value);
        err := None;
      } else {
        err := Some(r.error);
      }
    }

    method BurnCoins(name: string, amt: Coins) returns (err: Option<Error>)
      modifies this
      ensures Applied(Burn(config, old(State()), name, amt), old(State()), State(), err)
      ensures old(Valid()) ==> Valid()
    {
      var r := Burn(config, State(), name, amt);
      if r.Success? {
        if Valid() { BurnConserves(config, State(), name, amt); }
        Store(r.value);
        err := None;
      } else {
        err := Some(r.error);
      }
    }

    method SendCoinsFromModuleToAccount(senderModule: string, recipientAddr: AccAddress, amt: Coins)
      returns (err: Option<Error>)
      modifies this
      ensures Applied(SendModuleToAccount(config, old(State()), senderModule, recipientAddr, amt), old(State()), State(), err)
      ensures old(Valid()) ==> Valid()
    {
      var r := SendModuleToAccount(config, State(), senderModule, recipientAddr, amt);
      if r.Success? {
        if Valid() { SendModuleToAccountConserves(config, State(), senderModule, recipientAddr, amt); }
        Store(r.value);
        err := None;
      } else {
        err := Some(r.error);
      }
    }

    method SendCoinsFromAccountToModule(senderAddr: AccAddress, recipientModule: string, amt: Coins)
      returns (err: Option<Error>)
      modifies this
      ensures Applied(SendAccountToModule(config, old(State()), senderAddr, recipientModule, amt), old(State()), State(), err)
      ensures old(Valid()) ==> Valid()
    {
      var r := SendAccountToModule(config, State(), senderAddr, recipientModule, amt);
      if r.Success? {
        if Valid() { SendAccountToModuleConserves(config, State(), senderAddr, recipientModule, amt); }
        Store(r.value);
        err := None;
      } else {
        err := Some(r.error);
      }
    }
  }

  /** The oracle: it records every claim it is given and answers with the
      status its decision function gives for the claims seen before. */
  class OracleKeeper {
    const decide: (seq<Claim>, Claim) -> Result<Status, Error>
    var claims: seq<Claim>

    constructor (decide: (seq<Claim>, Claim) -> Result<Status, Error>)
      ensures this.decide == decide && claims == []
    {
      this.decide := decide;
      claims := [];
    }

    method ProcessClaim(claim: Claim) returns (r: Result<Status, Error>)
      modifies this
      ensures claims == old(claims) + [claim]
      ensures r == decide(old(claims), claim)
    {
      r := decide(claims, claim);
      claims := claims + [claim];
    }
  }
}
