/**
 * The reconciliation daemon: compares the totals of the two chains and classifies the
 * difference. On one consistent snapshot it never cries wolf. Its four reads (vault, Solana
 * totals, minted, burned) are not one snapshot, though; what it shows then is given exactly.
 */
module Reconciliation {
  import opened Options
  import opened Solvency

  datatype Status = Fine | Warn | Critical | Error

  /** The five numbers of one cycle. */
  datatype Reading = Reading(vault: int, locked: int, unlocked: int, minted: int, burned: int)

  datatype Snapshot = Snapshot(reading: Reading, drift: int, status: Status)

  const HISTORY_LIMIT: nat := 1000

  /** Answer of the DecentralChain node for one total. */
  datatype Response = Failed | NoValue | Malformed | Value(value: int)

  function Drift(r: Reading): int { (r.minted - r.burned) * SOL_TO_WSOL_DIVISOR - (r.locked - r.unlocked) }

  predicate VaultShort(r: Reading) { r.vault < r.locked - r.unlocked }

  predicate IsCritical(r: Reading, criticalDrift: int) { VaultShort(r) || (Drift(r) > 0 && Drift(r) >= criticalDrift) }

  predicate IsWarn(r: Reading, warnDrift: int, criticalDrift: int) {
    && !IsCritical(r, criticalDrift)
    && ((Drift(r) > 0 && Drift(r) >= warnDrift) || (Drift(r) < 0 && -Drift(r) >= warnDrift))
  }

  /** Solana totals as fetched: a failed or short account read is reported as zeros. */
  function SolanaTotals(read: Option<(int, int)>): (int, int) { if read.Some? then read.value else (0, 0) }

  /** DecentralChain totals as fetched: one failed request loses both, a bad number what comes after it. */
  function DccTotals(minted: Response, burned: Response): (int, int) {
    if minted.Failed? || burned.Failed? || minted.Malformed? then (0, 0)
    else (if minted.Value? then minted.value else 0, if burned.Value? then burned.value else 0)
  }

  const ERROR_SNAPSHOT: Snapshot := Snapshot(Reading(0, 0, 0, 0, 0), 0, Error)

  class ReconciliationDaemon {
    const warnDrift: int
    const criticalDrift: int
    var history: seq<Snapshot>

    constructor (warnDrift: int, criticalDrift: int)
      ensures history == [] && this.warnDrift == warnDrift && this.criticalDrift == criticalDrift
    {
      this.warnDrift, this.criticalDrift := warnDrift, criticalDrift;
      history := [];
    }

    method FetchDccState(mintResp: Response, burnResp: Response) returns (totalMinted: int, totalBurned: int)
      ensures (totalMinted, totalBurned) == DccTotals(mintResp, burnResp)
      ensures mintResp.Failed? || burnResp.Failed? || mintResp.Malformed? ==> totalMinted == totalBurned == 0
      ensures !mintResp.Failed? && !burnResp.Failed? && !mintResp.Malformed? ==>
                && totalMinted == (if mintResp.Value? then mintResp.value else 0)
                && totalBurned == (if burnResp.Value? then burnResp.value else 0)
    {
      totalMinted, totalBurned := 0, 0;
      if mintResp.Failed? || burnResp.Failed? {
        return;
      }
      if mintResp.Malformed? {
        return;
      }
      if mintResp.Value? {
        totalMinted := mintResp.value;
      }
      if burnResp.Value? {
        totalBurned := burnResp.value;
      }
    }

    method Remember(s: Snapshot)
      requires |history| <= HISTORY_LIMIT
      modifies this`history
      ensures |history| <= HISTORY_LIMIT
      ensures history == (if |old(history)| < HISTORY_LIMIT then old(history) else old(history)[1..]) + [s]
    {
      history := history + [s];
      if |history| > HISTORY_LIMIT {
        history := history[1..];
      }
    }

    /** `vault` is None when reading the balance throws, which ends the cycle with an error snapshot. */
    method Reconcile(vault: Option<int>, solana: Option<(int, int)>, mintResp: Response, burnResp: Response)
      returns (s: Snapshot)
      requires |history| <= HISTORY_LIMIT
      modifies this`history
      ensures vault.None? ==> s == Snapshot(Reading(0, 0, 0, 0, 0), 0, Error)
      ensures vault.Some? ==> s.reading.vault == vault.value
      ensures vault.Some? && solana.Some? ==> s.reading.locked == solana.value.0 && s.reading.unlocked == solana.value.1
      ensures vault.Some? && solana.None? ==> s.reading.locked == s.reading.unlocked == 0
      ensures vault.Some? && mintResp.Value? && burnResp.Value? ==>
                s.reading.minted == mintResp.value && s.reading.burned == burnResp.value
      ensures vault.Some? && (mintResp.Failed? || burnResp.Failed? || mintResp.Malformed?) ==>
                s.reading.minted == s.reading.burned == 0
      ensures vault.Some? ==>
                && var (net, supply) := (s.reading.locked - s.reading.unlocked, s.reading.minted - s.reading.burned);
                && s.drift == 10 * supply - net
                && (s.status == Critical <==> vault.value < net || (s.drift > 0 && s.drift >= criticalDrift))
                && (s.status == Warn <==>
                      && s.status != Critical
                      && ((s.drift > 0 && s.drift >= warnDrift) || (s.drift < 0 && -s.drift >= warnDrift)))
      ensures vault.Some? ==>
                && var (l, u) := SolanaTotals(solana); var (m, b) := DccTotals(mintResp, burnResp);
                s.reading == Reading(vault.value, l, u, m, b) && s.drift == Drift(s.reading)
                && (s.status == Critical <==> IsCritical(s.reading, criticalDrift))
                && (s.status == Warn <==> IsWarn(s.reading, warnDrift, criticalDrift))
                && s.status != Error
      ensures |history| <= 1000
      ensures history == (if |old(history)| < 1000 then old(history) else old(history)[1..]) + [s]
    {
      if vault.None? {
        s := ERROR_SNAPSHOT;
        Remember(s);
        return;
      }
      var (totalLocked, totalUnlocked) := SolanaTotals(solana);
      var totalMinted, totalBurned := FetchDccState(mintResp, burnResp);
      var netLocked := totalLocked - totalUnlocked;
      var dccNetSupply := totalMinted - totalBurned;
      var drift := dccNetSupply * SOL_TO_WSOL_DIVISOR - netLocked;
      var absDrift := if drift < 0 then -drift else drift;
      var status := Fine;
      if drift > 0 && drift >= criticalDrift {
        status := Critical;
      } else if drift > 0 && drift >= warnDrift {
        status := Warn;
      } else if drift < 0 && absDrift >= warnDrift {
        status := Warn;
      }
      var vaultDrift := netLocked - vault.value;
      if vaultDrift > 0 {
        status := Critical;
      }
      s := Snapshot(Reading(vault.value, totalLocked, totalUnlocked, totalMinted, totalBurned), drift, status);
      Remember(s);
    }
  }

  // --------------------------------------------------------------------------
  // Four moments of reading
  // --------------------------------------------------------------------------

  /** The vault read after v actions of a run, the Solana totals after s, minted after m, burned after b. */
  ghost function ReadingAt(tariff: Tariff, run: seq<Action>, v: nat, s: nat, m: nat, b: nat): Reading
    requires Reachable(tariff, run) && v <= |run| && s <= |run| && m <= |run| && b <= |run|
  {
    Reading(At(tariff, run, v).vault, At(tariff, run, s).totalLocked, At(tariff, run, s).totalUnlocked,
            At(tariff, run, m).totalMinted, At(tariff, run, b).totalBurned)
  }

  /** Minted from the Solana read to the read of minted; negative when that came first. */
  ghost function MintedSince(tariff: Tariff, run: seq<Action>, s: nat, m: nat): int
    requires Reachable(tariff, run) && s <= |run| && m <= |run|
  {
    At(tariff, run, m).totalMinted - At(tariff, run, s).totalMinted
  }

  /** Burned from the read of burned to the Solana read; negative when that came first. */
  ghost function BurnedBefore(tariff: Tariff, run: seq<Action>, b: nat, s: nat): int
    requires Reachable(tariff, run) && b <= |run| && s <= |run|
  {
    At(tariff, run, s).totalBurned - At(tariff, run, b).totalBurned
  }

  /** Locked less unlocked from the vault read to the Solana read. */
  ghost function LockedBetween(tariff: Tariff, run: seq<Action>, v: nat, s: nat): int
    requires Reachable(tariff, run) && v <= |run| && s <= |run|
  {
    NetLocked(At(tariff, run, s)) - NetLocked(At(tariff, run, v))
  }

  /**
   * Whatever happens between the four reads and in whatever order they are: the drift is ten times what
   * was minted since the Solana read, plus ten times what was burned before it and not yet read, less the
   * surplus at the Solana read; and the vault misses what was locked since it was read, less its slack then.
   */
  lemma {:induction false} ReadingExactly(tariff: Tariff, run: seq<Action>, v: nat, s: nat, m: nat, b: nat)
    requires Reachable(tariff, run) && v <= |run| && s <= |run| && m <= |run| && b <= |run|
    ensures var r := ReadingAt(tariff, run, v, s, m, b);
            && 10 * (r.minted - r.burned) - (r.locked - r.unlocked) == Drift(r)
            && Drift(r) == 10 * MintedSince(tariff, run, s, m) + 10 * BurnedBefore(tariff, run, b, s)
                           - Surplus(At(tariff, run, s), tariff)
            && (r.locked - r.unlocked) - r.vault == LockedBetween(tariff, run, v, s) - Slack(At(tariff, run, v))
            && Surplus(At(tariff, run, s), tariff) >= 0 && Slack(At(tariff, run, v)) >= 0
    ensures (s <= m ==> MintedSince(tariff, run, s, m) >= 0) && (m <= s ==> MintedSince(tariff, run, s, m) <= 0)
    ensures (b <= s ==> BurnedBefore(tariff, run, b, s) >= 0) && (s <= b ==> BurnedBefore(tariff, run, b, s) <= 0)
  {
    hide At, Inv, Surplus, Reachable;
    InvAt(tariff, run, s);
    InvAt(tariff, run, v);
    SurplusIsDifference(At(tariff, run, s), tariff);
    SurplusIsDifference(At(tariff, run, v), tariff);
    TotalsGrowBetween(tariff, run, if s <= m then s else m, if s <= m then m else s);
    TotalsGrowBetween(tariff, run, if s <= b then s else b, if s <= b then b else s);
  }

  /**
   * A bridge that keeps every promise is reported critical exactly when more was locked between the vault
   * read and the Solana read than the vault had to spare, or the mints and burns that fell between the
   * reads outweigh the surplus by the threshold.
   */
  lemma {:induction false} CriticalExactly(tariff: Tariff, run: seq<Action>, v: nat, s: nat, m: nat, b: nat,
                                           criticalDrift: int)
    requires Reachable(tariff, run) && v <= |run| && s <= |run| && m <= |run| && b <= |run|
    ensures IsCritical(ReadingAt(tariff, run, v, s, m, b), criticalDrift) <==>
            || LockedBetween(tariff, run, v, s) > Slack(At(tariff, run, v))
            || SOL_TO_WSOL_DIVISOR * (MintedSince(tariff, run, s, m) + BurnedBefore(tariff, run, b, s))
               >= Surplus(At(tariff, run, s), tariff) + if criticalDrift > 1 then criticalDrift else 1
  {
    hide At, Surplus, Slack, MintedSince, BurnedBefore, LockedBetween, ReadingAt, Reachable;
    ReadingExactly(tariff, run, v, s, m, b);
  }

  /** Read in this order, minted first, then Solana with its vault in one go, then burned, it is never critical. */
  lemma {:induction false} SafeReadOrder(tariff: Tariff, run: seq<Action>, s: nat, m: nat, b: nat, criticalDrift: int)
    requires Reachable(tariff, run) && m <= s <= b <= |run|
    ensures !IsCritical(ReadingAt(tariff, run, s, s, m, b), criticalDrift)
  {
    hide At, Surplus, Slack, MintedSince, BurnedBefore, ReadingAt, Reachable;
    ReadingExactly(tariff, run, s, s, m, b);
  }

  /** How far reads apart can mislead: by what was minted after and burned before the Solana read, and no further. */
  lemma {:induction false} SkewedReadsAreBounded(tariff: Tariff, run: seq<Action>, v: nat, s: nat, m: nat, b: nat)
    requires Reachable(tariff, run) && v <= |run| && s <= |run| && m <= |run| && b <= |run|
    ensures var r := ReadingAt(tariff, run, v, s, m, b);
            && Drift(r) <= (if s < m then SOL_TO_WSOL_DIVISOR * MintedSince(tariff, run, s, m) else 0)
                           + (if b < s then SOL_TO_WSOL_DIVISOR * BurnedBefore(tariff, run, b, s) else 0)
            && (r.locked - r.unlocked) - r.vault <= LockedBetween(tariff, run, v, s)
  {
    hide At, Surplus, Slack, MintedSince, BurnedBefore, LockedBetween, ReadingAt, Reachable;
    ReadingExactly(tariff, run, v, s, m, b);
  }

  /**
   * On one consistent snapshot of any reachable state the drift is minus the surplus, never positive, and
   * the vault is not short, so the status is never critical.
   */
  lemma {:induction false} ConsistentSnapshotIsNeverCritical(tariff: Tariff, run: seq<Action>, criticalDrift: int)
    requires Reachable(tariff, run)
    ensures var (r, b) := (ReadingAt(tariff, run, |run|, |run|, |run|, |run|), At(tariff, run, |run|));
            Drift(r) == -Surplus(b, tariff) <= 0 && !VaultShort(r) && !IsCritical(r, criticalDrift)
  {
    hide At, Surplus, Reachable;
    ReadingExactly(tariff, run, |run|, |run|, |run|, |run|);
  }

  /**
   * A cycle of the daemon that is given the vault and the four totals of a reachable bridge, all of one moment:
   * it finds the drift to be minus the surplus and is never critical, whatever its thresholds.
   */
  method ReconcileBridge(daemon: ReconciliationDaemon, bridge: Bridge, ghost tariff: Tariff, ghost run: seq<Action>)
    returns (s: Snapshot)
    requires |daemon.history| <= 1000 && Reachable(tariff, run) && bridge == At(tariff, run, |run|)
    modifies daemon`history
    ensures s.drift == -(OverBurns(Owed, bridge.burns, tariff) + OverDeposits(DepositFee, bridge.deposits)
                         + OverBurns(WithdrawalFee, bridge.burns, tariff) + OverDeposits(Dust, bridge.deposits)
                         + OverDeposits(Waiting, bridge.deposits))
    ensures s.drift <= 0 && s.status != Critical && s.status != Error
  {
    hide At, Inv, Reachable, OverBurns, OverDeposits;
    s := daemon.Reconcile(Some(bridge.vault), Some((bridge.totalLocked, bridge.totalUnlocked)),
                          Value(bridge.totalMinted), Value(bridge.totalBurned));
    InvAt(tariff, run, |run|);
    SurplusIsDifference(bridge, tariff);
  }

  // --------------------------------------------------------------------------
  // False alarms
  // --------------------------------------------------------------------------

  lemma {:induction false} FirstMint(tariff: Tariff, amount: nat)
    ensures var run := [DoDeposit(amount), DoMint(0, true)];
            && Reachable(tariff, run) && At(tariff, run, 0) == EmptyBridge()
            && At(tariff, run, 2).totalMinted == amount / SOL_TO_WSOL_DIVISOR && At(tariff, run, 2).totalBurned == 0
  {
    var run := [DoDeposit(amount), DoMint(0, true)];
    var b1 := Apply(EmptyBridge(), tariff, run[0]);
    assert b1.deposits == [Deposit(amount, None)];
    var b2 := Apply(b1, tariff, run[1]);
    assert run[1..] == [run[1]] && run[1..][1..] == [];
    assert AllEnabled(b2, tariff, []) && Exec(b2, tariff, []) == b2;
    assert AllEnabled(b1, tariff, [run[1]]) && Exec(b1, tariff, [run[1]]) == b2;
    assert run[..2] == run && run[..0] == [];
  }

  /**
   * The bound is reached: one deposit credited in full between the read of Solana and the reads of
   * DecentralChain shows its whole amount, up to rounding, as drift of a bridge that is fully backed.
   */
  lemma {:induction false} OneMintBetweenReadsRaisesAlarm(tariff: Tariff, amount: nat, criticalDrift: int)
    requires amount >= 10 && amount >= criticalDrift + 10
    ensures var run := [DoDeposit(amount), DoMint(0, true)];
            && Reachable(tariff, run)
            && Drift(ReadingAt(tariff, run, 0, 0, 2, 2)) == amount - amount % SOL_TO_WSOL_DIVISOR
            && IsCritical(ReadingAt(tariff, run, 0, 0, 2, 2), criticalDrift)
  {
    hide At, Reachable;
    FirstMint(tariff, amount);
  }

  /**
   * A failed read of the Solana totals is taken for zero. In every reachable state the drift then shows the
   * whole supply: it is positive exactly when there is any, though the true drift never is.
   */
  lemma {:induction false} FailedSolanaReadMisleadsExactly(tariff: Tariff, run: seq<Action>)
    requires Reachable(tariff, run)
    ensures var r := ReadingAt(tariff, run, |run|, |run|, |run|, |run|);
            var (l, u) := SolanaTotals(None);
            var seen := r.(locked := l, unlocked := u);
            && (Drift(seen) > 0 <==> r.minted != r.burned)
            && Drift(seen) >= 0 >= Drift(r)
  {
    hide At, Inv, Surplus, Reachable, OverDeposits, OverBurns;
    ReadingExactly(tariff, run, |run|, |run|, |run|, |run|);
    InvAt(tariff, run, |run|);
    Conservation(At(tariff, run, |run|), tariff);
  }
}
