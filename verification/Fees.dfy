/**
 * Bridge fees in integer basis points: a minimum fee, two tiers split at a threshold.
 * Amounts are lamports.
 */
module Fees {

  /**
   * One direction's rates in basis points, which the configured decimals are rounded to, and the
   * configured amount from which the second of them applies.
   */
  datatype Rates = Rates(committeeBps: nat, zkBps: nat, minFee: nat, zkThreshold: nat)

  const DEFAULT_DEPOSIT_RATES: Rates := Rates(10, 15, 1_000_000, 100_000_000_000)
  const DEFAULT_WITHDRAWAL_RATES: Rates := Rates(25, 50, 1_000_000, 100_000_000_000)

  datatype FeeResult = FeeResult(original: nat, fee: nat, net: nat, zk: bool)

  function Calculated(amount: nat, bps: nat): nat { amount * bps / 10000 }

  function Fee(amount: nat, bps: nat, minFee: nat): nat {
    if Calculated(amount, bps) < minFee then minFee else Calculated(amount, bps)
  }

  function Net(amount: nat, bps: nat, minFee: nat): nat {
    if amount > Fee(amount, bps, minFee) then amount - Fee(amount, bps, minFee) else 0
  }

  /**
   * `calculateDepositFee` and `calculateWithdrawalFee`: nothing is created or lost, the charge
   * being the fee or, when that is more than the amount, all of it.
   */
  function Calculate(amount: nat, rates: Rates): (r: FeeResult)
    ensures r.net + (if r.fee < amount then r.fee else amount) == amount == r.original
    ensures r.fee >= rates.minFee
  {
    var zk := amount >= rates.zkThreshold;
    var bps := if zk then rates.zkBps else rates.committeeBps;
    FeeResult(amount, Fee(amount, bps, rates.minFee), Net(amount, bps, rates.minFee), zk)
  }

  /**
   * What is charged, from the rates themselves: the rate of the amount's tier rounded down to a lamport, but at
   * least the minimum; what is left is the net amount, nothing if nothing is.
   */
  lemma CalculatedExactly(amount: nat, rates: Rates)
    ensures var r := Calculate(amount, rates);
            var bps := if amount >= rates.zkThreshold then rates.zkBps else rates.committeeBps;
            && (r.zk <==> amount >= rates.zkThreshold)
            && r.fee >= rates.minFee && amount * bps < 10_000 * (r.fee + 1)
            && (r.fee > rates.minFee ==> 10_000 * r.fee <= amount * bps)
            && r.net == if r.fee < amount then amount - r.fee else 0
  {
    var bps := if amount >= rates.zkThreshold then rates.zkBps else rates.committeeBps;
    var x := amount * bps;
    assert 10_000 * (x / 10_000) <= x < 10_000 * (x / 10_000) + 10_000;
  }

  // --------------------------------------------------------------------------
  // Within a tier
  // --------------------------------------------------------------------------

  /** One more lamport adds nothing or one lamport to the fee, across the minimum-fee kink too. */
  lemma FeeStep(amount: nat, bps: nat, minFee: nat)
    requires bps <= 10000
    ensures 0 <= Fee(amount + 1, bps, minFee) - Fee(amount, bps, minFee) <= 1
  {
    var x := amount * bps;
    assert (amount + 1) * bps == x + bps;
    assert x / 10000 <= (x + bps) / 10000 <= x / 10000 + 1;
  }

  /** One more lamport in is nothing or one lamport more out. */
  lemma NetStep(amount: nat, bps: nat, minFee: nat)
    requires bps <= 10000
    ensures 0 <= Net(amount + 1, bps, minFee) - Net(amount, bps, minFee) <= 1
  {
    hide Fee;
    FeeStep(amount, bps, minFee);
  }

  lemma {:induction false} Monotone(a: nat, b: nat, bps: nat, minFee: nat)
    requires a <= b && bps <= 10000
    ensures Fee(a, bps, minFee) <= Fee(b, bps, minFee) && Net(a, bps, minFee) <= Net(b, bps, minFee)
    decreases b
  {
    hide Fee, Net;
    if a < b {
      Monotone(a, b - 1, bps, minFee);
      FeeStep(b - 1, bps, minFee);
      NetStep(b - 1, bps, minFee);
    }
  }

  /** Above the floor, one transfer costs what its two parts cost, or one lamport more. */
  lemma FeeOfParts(a: nat, b: nat, bps: nat, minFee: nat)
    requires Calculated(a, bps) >= minFee && Calculated(b, bps) >= minFee
    ensures 0 <= Fee(a + b, bps, minFee) - Fee(a, bps, minFee) - Fee(b, bps, minFee) <= 1
  {
    var x, y := a * bps, b * bps;
    assert (a + b) * bps == x + y;
    assert x / 10000 + y / 10000 <= (x + y) / 10000 <= x / 10000 + y / 10000 + 1;
  }

  /** Splitting a transfer within a tier never saves more than that one lamport, floor or not. */
  lemma SplittingSavesAtMostOne(a: nat, b: nat, bps: nat, minFee: nat)
    ensures Fee(a, bps, minFee) + Fee(b, bps, minFee) + 1 >= Fee(a + b, bps, minFee)
  {
    var x, y := a * bps, b * bps;
    assert (a + b) * bps == x + y;
    assert (x + y) / 10000 <= x / 10000 + y / 10000 + 1;
  }

  // --------------------------------------------------------------------------
  // Across the tiers
  // --------------------------------------------------------------------------

  ghost predicate NetNeverDrops(rates: Rates) {
    forall a: nat, b: nat :: a <= b ==> Calculate(a, rates).net <= Calculate(b, rates).net
  }

  /** Sending more never yields less exactly when it does not at the tier boundary. */
  lemma {:induction false} NetNeverDropsExactly(rates: Rates)
    requires rates.committeeBps <= 10000 && rates.zkBps <= 10000
    ensures NetNeverDrops(rates) <==>
            rates.zkThreshold == 0
            || Net(rates.zkThreshold, rates.zkBps, rates.minFee)
               >= Net(rates.zkThreshold - 1, rates.committeeBps, rates.minFee)
  {
    hide Net, Fee;
    var t := rates.zkThreshold;
    if t > 0 {
      assert Calculate(t, rates).net == Net(t, rates.zkBps, rates.minFee);
      assert Calculate(t - 1, rates).net == Net(t - 1, rates.committeeBps, rates.minFee);
    }
    if t == 0 || Net(t, rates.zkBps, rates.minFee) >= Net(t - 1, rates.committeeBps, rates.minFee) {
      forall a: nat, b: nat | a <= b ensures Calculate(a, rates).net <= Calculate(b, rates).net {
        if b < t {
          Monotone(a, b, rates.committeeBps, rates.minFee);
        } else if a >= t {
          Monotone(a, b, rates.zkBps, rates.minFee);
        } else {
          Monotone(a, t - 1, rates.committeeBps, rates.minFee);
          Monotone(t, b, rates.zkBps, rates.minFee);
        }
      }
    }
  }

  /** With the default rates the net amount does drop: by 0.05 SOL for deposits, 0.25 SOL for withdrawals. */
  lemma DefaultTiersDrop()
    ensures Calculate(100_000_000_000, DEFAULT_DEPOSIT_RATES).net == 99_850_000_000
    ensures Calculate(100_000_000_000, DEFAULT_WITHDRAWAL_RATES).net == 99_500_000_000
    ensures Calculate(2_000_000, DEFAULT_DEPOSIT_RATES).net == 1_000_000
         == Calculate(2_000_000, DEFAULT_WITHDRAWAL_RATES).net
    ensures Calculate(100_000_000_000, DEFAULT_DEPOSIT_RATES).net + 50_000_000
         == Calculate(99_999_999_999, DEFAULT_DEPOSIT_RATES).net
    ensures Calculate(100_000_000_000, DEFAULT_WITHDRAWAL_RATES).net + 250_000_000
         == Calculate(99_999_999_999, DEFAULT_WITHDRAWAL_RATES).net
    ensures !NetNeverDrops(DEFAULT_DEPOSIT_RATES) && !NetNeverDrops(DEFAULT_WITHDRAWAL_RATES)
  {
    assert Calculate(99_999_999_999, DEFAULT_DEPOSIT_RATES).net > Calculate(100_000_000_000, DEFAULT_DEPOSIT_RATES).net;
    assert Calculate(99_999_999_999, DEFAULT_WITHDRAWAL_RATES).net
           > Calculate(100_000_000_000, DEFAULT_WITHDRAWAL_RATES).net;
  }
}
