/**
 * Backing of the wrapped token over whole runs. Lamports (9 decimals) are locked on Solana,
 * wSOL units (8 decimals) are minted and burned on DecentralChain, one unit for ten lamports.
 * The programs on the two chains are taken at their word that a deposit is credited at most
 * once, a burn is paid at most once, and nobody burns more than there is.
 */
module Solvency {
  import opened Options
  import opened Fees

  const SOL_TO_WSOL_DIVISOR: int := 10

  /** `credited` is the amount handed to the mint, once there was one. */
  datatype Deposit = Deposit(amount: nat, credited: Option<nat>)

  /** A burn of `units` of wSOL, and whether its unlock has happened. */
  datatype Burn = Burn(units: nat, paid: bool)

  datatype Bridge = Bridge(deposits: seq<Deposit>, burns: seq<Burn>, totalLocked: int, totalUnlocked: int,
                           totalMinted: int, totalBurned: int, vault: int)

  datatype Tariff = Tariff(deposit: Rates, withdrawal: Rates)

  /**
   * Lamports a deposit is credited: net of the fee by committee, in full on the ZK path. Either may
   * happen to any deposit, since the routing threshold is configured apart from the tariff.
   */
  function Credit(amount: nat, tariff: Tariff, full: bool): nat {
    if full then amount else Calculate(amount, tariff.deposit).net
  }

  /** Lamports a burn is owed. */
  function Payout(units: nat, tariff: Tariff): nat { Calculate(units * SOL_TO_WSOL_DIVISOR, tariff.withdrawal).net }

  datatype Action =
    | DoDeposit(amount: nat)
    | DoMint(deposit: nat, full: bool)
    | DoBurn(units: nat)
    | DoUnlock(burn: nat)
    | DoVaultGift(amount: nat)

  /** The committee's submitter refuses a mint of nothing. */
  predicate Enabled(b: Bridge, tariff: Tariff, a: Action) {
    match a
    case DoMint(k, full) => k < |b.deposits| && b.deposits[k].credited.None?
                      && (full || Credit(b.deposits[k].amount, tariff, full) > 0)
    case DoBurn(units) => units <= b.totalMinted - b.totalBurned
    case DoUnlock(k) => k < |b.burns| && !b.burns[k].paid
    case _ => true
  }

  function Apply(b: Bridge, tariff: Tariff, a: Action): Bridge
    requires Enabled(b, tariff, a)
  {
    match a
    case DoDeposit(amount) =>
      b.(deposits := b.deposits + [Deposit(amount, None)], totalLocked := b.totalLocked + amount,
         vault := b.vault + amount)
    case DoMint(k, full) =>
      var credit := Credit(b.deposits[k].amount, tariff, full);
      b.(deposits := b.deposits[k := b.deposits[k].(credited := Some(credit))],
         totalMinted := b.totalMinted + credit / SOL_TO_WSOL_DIVISOR)
    case DoBurn(units) => b.(burns := b.burns + [Burn(units, false)], totalBurned := b.totalBurned + units)
    case DoUnlock(k) =>
      var payout := Payout(b.burns[k].units, tariff);
      b.(burns := b.burns[k := b.burns[k].(paid := true)], totalUnlocked := b.totalUnlocked + payout,
         vault := b.vault - payout)
    case DoVaultGift(amount) => b.(vault := b.vault + amount)
  }

  predicate AllEnabled(b: Bridge, tariff: Tariff, run: seq<Action>)
    decreases run
  {
    run == [] || (Enabled(b, tariff, run[0]) && AllEnabled(Apply(b, tariff, run[0]), tariff, run[1..]))
  }

  function Exec(b: Bridge, tariff: Tariff, run: seq<Action>): Bridge
    requires AllEnabled(b, tariff, run)
    decreases run
  {
    if run == [] then b else Exec(Apply(b, tariff, run[0]), tariff, run[1..])
  }

  function EmptyBridge(): Bridge { Bridge([], [], 0, 0, 0, 0, 0) }

  // --------------------------------------------------------------------------
  // Where the lamports are
  // --------------------------------------------------------------------------

  /** The parts a deposit's lamports are in. */
  datatype DepositPart = Amount | Waiting | DepositFee | Dust | MintedUnits

  function InDeposit(p: DepositPart, d: Deposit): int {
    match p
    case Amount => d.amount
    case Waiting => if d.credited.None? then d.amount else 0
    case DepositFee => if d.credited.None? then 0 else d.amount - d.credited.value
    case Dust => if d.credited.None? then 0 else d.credited.value % SOL_TO_WSOL_DIVISOR
    case MintedUnits => if d.credited.None? then 0 else d.credited.value / SOL_TO_WSOL_DIVISOR
  }

  /** The parts a burn's lamports are in. */
  datatype BurnPart = BurnedUnits | Owed | WithdrawalFee | Paid

  function InBurn(p: BurnPart, b: Burn, tariff: Tariff): int {
    match p
    case BurnedUnits => b.units
    case Owed => if b.paid then 0 else Payout(b.units, tariff)
    case WithdrawalFee => b.units * SOL_TO_WSOL_DIVISOR - Payout(b.units, tariff)
    case Paid => if b.paid then Payout(b.units, tariff) else 0
  }

  function OverDeposits(p: DepositPart, ds: seq<Deposit>): int {
    if ds == [] then 0 else OverDeposits(p, ds[..|ds| - 1]) + InDeposit(p, ds[|ds| - 1])
  }

  function OverBurns(p: BurnPart, bs: seq<Burn>, tariff: Tariff): int {
    if bs == [] then 0 else OverBurns(p, bs[..|bs| - 1], tariff) + InBurn(p, bs[|bs| - 1], tariff)
  }

  lemma DepositAdded(p: DepositPart, ds: seq<Deposit>, d: Deposit)
    ensures OverDeposits(p, ds + [d]) == OverDeposits(p, ds) + InDeposit(p, d)
  {
    assert (ds + [d])[..|ds|] == ds;
  }

  lemma BurnAdded(p: BurnPart, bs: seq<Burn>, b: Burn, tariff: Tariff)
    ensures OverBurns(p, bs + [b], tariff) == OverBurns(p, bs, tariff) + InBurn(p, b, tariff)
  {
    assert (bs + [b])[..|bs|] == bs;
  }

  lemma {:induction false} DepositChanged(p: DepositPart, ds: seq<Deposit>, k: nat, d: Deposit)
    requires k < |ds|
    ensures OverDeposits(p, ds[k := d]) == OverDeposits(p, ds) - InDeposit(p, ds[k]) + InDeposit(p, d)
  {
    hide InDeposit;
    var front := ds[..|ds| - 1];
    if k == |ds| - 1 {
      assert ds[k := d][..|ds| - 1] == front;
    } else {
      DepositChanged(p, front, k, d);
      assert ds[k := d][..|ds| - 1] == front[k := d];
    }
  }

  lemma {:induction false} BurnChanged(p: BurnPart, bs: seq<Burn>, k: nat, b: Burn, tariff: Tariff)
    requires k < |bs|
    ensures OverBurns(p, bs[k := b], tariff)
            == OverBurns(p, bs, tariff) - InBurn(p, bs[k], tariff) + InBurn(p, b, tariff)
  {
    hide InBurn;
    var front := bs[..|bs| - 1];
    if k == |bs| - 1 {
      assert bs[k := b][..|bs| - 1] == front;
    } else {
      BurnChanged(p, front, k, b, tariff);
      assert bs[k := b][..|bs| - 1] == front[k := b];
    }
  }

  /** A deposit never credits more than it brought, a burn is never paid more than it burned. */
  lemma CreditWithinAmount(amount: nat, units: nat, tariff: Tariff)
    ensures Credit(amount, tariff, false) <= Credit(amount, tariff, true) == amount
            && Payout(units, tariff) <= units * SOL_TO_WSOL_DIVISOR
  {}

  /**
   * In the rates themselves: by committee a deposit is credited what the deposit rates leave of it, and a burn is
   * paid what the withdrawal rates leave of ten times its units.
   */
  lemma CreditExactly(amount: nat, units: nat, tariff: Tariff)
    ensures Credit(amount, tariff, true) == amount
    ensures Credit(amount, tariff, false) == Calculate(amount, tariff.deposit).net
    ensures Payout(units, tariff) == Calculate(10 * units, tariff.withdrawal).net
    ensures exists fee: nat :: IsFee(fee, amount, tariff.deposit) && Credit(amount, tariff, false) == Rest(amount, fee)
    ensures exists fee: nat :: IsFee(fee, 10 * units, tariff.withdrawal)
                               && Payout(units, tariff) == Rest(10 * units, fee)
  {
    hide Calculate;
    CalculatedExactly(amount, tariff.deposit);
    CalculatedExactly(10 * units, tariff.withdrawal);
    assert IsFee(Calculate(amount, tariff.deposit).fee, amount, tariff.deposit);
    assert IsFee(Calculate(10 * units, tariff.withdrawal).fee, 10 * units, tariff.withdrawal);
  }

  /** The tier's share of an amount in whole lamports, and no less than the minimum. */
  predicate IsFee(fee: nat, amount: nat, rates: Rates) {
    var bps := if amount >= rates.zkThreshold then rates.zkBps else rates.committeeBps;
    fee >= rates.minFee && amount * bps < 10_000 * (fee + 1) && (fee > rates.minFee ==> 10_000 * fee <= amount * bps)
  }

  function Rest(amount: nat, fee: nat): nat { if fee < amount then amount - fee else 0 }

  predicate Credited(ds: seq<Deposit>, tariff: Tariff) {
    forall k :: 0 <= k < |ds| && ds[k].credited.Some? ==>
      exists full :: ds[k].credited.value == Credit(ds[k].amount, tariff, full)
  }

  /** Deposits are what is waiting, kept as fee, lost to rounding, or minted. */
  lemma {:induction false} DepositsSplit(ds: seq<Deposit>, tariff: Tariff)
    requires Credited(ds, tariff)
    ensures OverDeposits(Amount, ds)
            == OverDeposits(Waiting, ds) + OverDeposits(DepositFee, ds) + OverDeposits(Dust, ds)
                                        + SOL_TO_WSOL_DIVISOR * OverDeposits(MintedUnits, ds)
    ensures OverDeposits(Waiting, ds) >= 0 && OverDeposits(DepositFee, ds) >= 0 && OverDeposits(Dust, ds) >= 0
  {
    hide Credit;
    if ds != [] {
      DepositsSplit(ds[..|ds| - 1], tariff);
      CreditWithinAmount(ds[|ds| - 1].amount, 0, tariff);
    }
  }

  /** Burned lamports are owed, kept as fee, or paid. */
  lemma {:induction false} BurnsSplit(bs: seq<Burn>, tariff: Tariff)
    ensures SOL_TO_WSOL_DIVISOR * OverBurns(BurnedUnits, bs, tariff)
         == OverBurns(Owed, bs, tariff) + OverBurns(WithdrawalFee, bs, tariff) + OverBurns(Paid, bs, tariff)
    ensures OverBurns(Owed, bs, tariff) >= 0 && OverBurns(WithdrawalFee, bs, tariff) >= 0
  {
    hide Payout;
    if bs != [] {
      BurnsSplit(bs[..|bs| - 1], tariff);
      CreditWithinAmount(0, bs[|bs| - 1].units, tariff);
    }
  }

  // --------------------------------------------------------------------------
  // Conservation
  // --------------------------------------------------------------------------

  /** The totals the two chains publish are the sums over what happened. */
  predicate Inv(b: Bridge, tariff: Tariff) {
    && b.totalLocked == OverDeposits(Amount, b.deposits) && b.totalMinted == OverDeposits(MintedUnits, b.deposits)
    && b.totalBurned == OverBurns(BurnedUnits, b.burns, tariff) <= b.totalMinted
    && b.totalUnlocked == OverBurns(Paid, b.burns, tariff)
    && b.vault >= b.totalLocked - b.totalUnlocked
    && Credited(b.deposits, tariff)
  }

  lemma {:induction false} StepKeepsInv(b: Bridge, tariff: Tariff, a: Action)
    requires Inv(b, tariff) && Enabled(b, tariff, a)
    ensures Inv(Apply(b, tariff, a), tariff)
  {
    hide OverDeposits, OverBurns, Credit, Payout;
    match a
    case DoDeposit(amount) =>
      DepositAdded(Amount, b.deposits, Deposit(amount, None));
      DepositAdded(MintedUnits, b.deposits, Deposit(amount, None));
    case DoMint(k, full) =>
      var d := b.deposits[k].(credited := Some(Credit(b.deposits[k].amount, tariff, full)));
      DepositChanged(Amount, b.deposits, k, d);
      DepositChanged(MintedUnits, b.deposits, k, d);
    case DoBurn(units) =>
      BurnAdded(BurnedUnits, b.burns, Burn(units, false), tariff);
      BurnAdded(Paid, b.burns, Burn(units, false), tariff);
    case DoUnlock(k) =>
      BurnChanged(BurnedUnits, b.burns, k, b.burns[k].(paid := true), tariff);
      BurnChanged(Paid, b.burns, k, b.burns[k].(paid := true), tariff);
    case DoVaultGift(_) =>
  }

  lemma {:induction false} ExecKeepsInv(b: Bridge, tariff: Tariff, run: seq<Action>)
    requires Inv(b, tariff) && AllEnabled(b, tariff, run)
    ensures Inv(Exec(b, tariff, run), tariff)
    decreases run
  {
    hide Inv, Apply, Enabled;
    if run != [] {
      StepKeepsInv(b, tariff, run[0]);
      ExecKeepsInv(Apply(b, tariff, run[0]), tariff, run[1..]);
    }
  }

  function NetLocked(b: Bridge): int { b.totalLocked - b.totalUnlocked }
  function NetSupply(b: Bridge): int { b.totalMinted - b.totalBurned }

  /**
   * Every locked lamport is accounted for: it backs supply, is owed to a burner, was kept as a fee,
   * was lost to rounding, or belongs to a deposit not minted yet. So supply and debts are always backed.
   */
  lemma {:induction false} Conservation(b: Bridge, tariff: Tariff)
    requires Inv(b, tariff)
    ensures b.totalLocked - b.totalUnlocked == 10 * (b.totalMinted - b.totalBurned) + OverBurns(Owed, b.burns, tariff)
                            + (OverDeposits(DepositFee, b.deposits) + OverBurns(WithdrawalFee, b.burns, tariff))
                            + OverDeposits(Dust, b.deposits) + OverDeposits(Waiting, b.deposits)
    ensures 10 * (b.totalMinted - b.totalBurned) + OverBurns(Owed, b.burns, tariff)
            <= b.totalLocked - b.totalUnlocked <= b.vault
    ensures NetSupply(b) >= 0 && OverBurns(Owed, b.burns, tariff) >= 0
  {
    hide OverDeposits, OverBurns;
    DepositsSplit(b.deposits, tariff);
    BurnsSplit(b.burns, tariff);
  }

  lemma InitInv(tariff: Tariff)
    ensures Inv(EmptyBridge(), tariff)
  {}

  function Gifts(run: seq<Action>): nat
    decreases run
  {
    if run == [] then 0 else (if run[0].DoVaultGift? then run[0].amount else 0) + Gifts(run[1..])
  }

  /** The vault holds what the totals ask for and what was given to it besides, to the lamport. */
  lemma {:induction false} VaultFollowsTotals(b: Bridge, tariff: Tariff, run: seq<Action>)
    requires AllEnabled(b, tariff, run)
    ensures var b' := Exec(b, tariff, run);
            b'.vault - (b'.totalLocked - b'.totalUnlocked) == b.vault - (b.totalLocked - b.totalUnlocked) + Gifts(run)
    decreases run
  {
    hide Credit, Payout;
    if run != [] {
      VaultFollowsTotals(Apply(b, tariff, run[0]), tariff, run[1..]);
    }
  }

  /** What of the locked lamports does not back supply. */
  function Surplus(b: Bridge, tariff: Tariff): int {
    OverBurns(Owed, b.burns, tariff) + OverDeposits(DepositFee, b.deposits) + OverBurns(WithdrawalFee, b.burns, tariff)
    + OverDeposits(Dust, b.deposits) + OverDeposits(Waiting, b.deposits)
  }

  /** Lamports in the vault beyond what the totals ask for. */
  function Slack(b: Bridge): int { b.vault - NetLocked(b) }

  lemma {:induction false} SurplusIsDifference(b: Bridge, tariff: Tariff)
    requires Inv(b, tariff)
    ensures Surplus(b, tariff) == b.totalLocked - b.totalUnlocked - 10 * (b.totalMinted - b.totalBurned) >= 0
            && Slack(b) >= 0
  {
    hide OverDeposits, OverBurns;
    DepositsSplit(b.deposits, tariff);
    BurnsSplit(b.burns, tariff);
  }

  lemma {:induction false} TotalsOnlyGrow(b: Bridge, tariff: Tariff, run: seq<Action>)
    requires AllEnabled(b, tariff, run)
    ensures var b' := Exec(b, tariff, run);
            b'.totalLocked >= b.totalLocked && b'.totalUnlocked >= b.totalUnlocked
            && b'.totalMinted >= b.totalMinted && b'.totalBurned >= b.totalBurned
    decreases run
  {
    hide Credit, Payout;
    if run != [] {
      TotalsOnlyGrow(Apply(b, tariff, run[0]), tariff, run[1..]);
    }
  }

  // --------------------------------------------------------------------------
  // Moments of a run
  // --------------------------------------------------------------------------

  lemma {:induction false} RunSplits(b: Bridge, tariff: Tariff, run: seq<Action>, k: nat)
    requires AllEnabled(b, tariff, run) && k <= |run|
    ensures AllEnabled(b, tariff, run[..k]) && AllEnabled(Exec(b, tariff, run[..k]), tariff, run[k..])
    ensures Exec(Exec(b, tariff, run[..k]), tariff, run[k..]) == Exec(b, tariff, run)
    decreases run
  {
    hide Apply, Enabled;
    if k == 0 {
      assert run[..k] == [] && run[k..] == run;
    } else {
      assert run[..k][1..] == run[1..][..k - 1] && run[k..] == run[1..][k - 1..];
      RunSplits(Apply(b, tariff, run[0]), tariff, run[1..], k - 1);
    }
  }

  ghost predicate Reachable(tariff: Tariff, run: seq<Action>) { AllEnabled(EmptyBridge(), tariff, run) }

  /** The bridge after the first k actions of a run. */
  ghost function At(tariff: Tariff, run: seq<Action>, k: nat): Bridge
    requires Reachable(tariff, run) && k <= |run|
  {
    RunSplits(EmptyBridge(), tariff, run, k);
    Exec(EmptyBridge(), tariff, run[..k])
  }

  lemma {:induction false} InvAt(tariff: Tariff, run: seq<Action>, k: nat)
    requires Reachable(tariff, run) && k <= |run|
    ensures Inv(At(tariff, run, k), tariff)
  {
    hide Inv, Exec;
    RunSplits(EmptyBridge(), tariff, run, k);
    InitInv(tariff);
    ExecKeepsInv(EmptyBridge(), tariff, run[..k]);
  }

  lemma {:induction false} TotalsGrowBetween(tariff: Tariff, run: seq<Action>, j: nat, k: nat)
    requires Reachable(tariff, run) && j <= k <= |run|
    ensures var (b, b') := (At(tariff, run, j), At(tariff, run, k));
            b'.totalLocked >= b.totalLocked && b'.totalUnlocked >= b.totalUnlocked
            && b'.totalMinted >= b.totalMinted && b'.totalBurned >= b.totalBurned
  {
    hide Exec, AllEnabled;
    RunSplits(EmptyBridge(), tariff, run, k);
    RunSplits(EmptyBridge(), tariff, run[..k], j);
    assert run[..k][..j] == run[..j];
    TotalsOnlyGrow(At(tariff, run, j), tariff, run[..k][j..]);
  }
}
