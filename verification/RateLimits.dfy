/**
 * The daily outflow limiter and its persisted state. The wall clock is an argument, in
 * milliseconds; the state file is `file`, None while it does not exist.
 */
module RateLimits {
  import opened Bytes
  import opened Options

  /** 24 hours. */
  const WINDOW_MS: int := 86_400_000

  datatype Saved = Saved(dailyOutflow: nat, windowStart: int)

  datatype Limiter = Limiter(dailyOutflow: nat, windowStart: int, file: Option<Saved>)

  // --------------------------------------------------------------------------
  // Steps
  // --------------------------------------------------------------------------

  /** Starting up at `now` with the given file. A zero window start counts as missing. */
  function Load(file: Option<Saved>, now: int): Limiter {
    if file.Some? && file.value.windowStart != 0 && now - file.value.windowStart < WINDOW_MS
    then Limiter(file.value.dailyOutflow, file.value.windowStart, file)
    else Limiter(0, now, file)
  }

  /** Best effort: `written` tells whether the write went through. */
  function Persist(l: Limiter, written: bool): Limiter {
    if written then l.(file := Some(Saved(l.dailyOutflow, l.windowStart))) else l
  }

  function Refresh(l: Limiter, now: int, written: bool): Limiter {
    if now - l.windowStart >= WINDOW_MS then Persist(Limiter(0, now, l.file), written) else l
  }

  predicate Fits(l: Limiter, cap: int, amount: nat) { l.dailyOutflow + amount <= cap }

  function Consume(l: Limiter, cap: int, now: int, amount: nat, written: bool): Limiter {
    var l1 := Refresh(l, now, written);
    if Fits(l1, cap, amount) then Persist(l1.(dailyOutflow := l1.dailyOutflow + amount), written) else l1
  }

  class RateLimiter {
    const maxDailyOutflow: int
    const maxSingleTx: int
    const minDeposit: int
    var dailyOutflow: nat
    var windowStart: int
    var file: Option<Saved>

    ghost function State(): Limiter
      reads this
    {
      Limiter(dailyOutflow, windowStart, file)
    }

    constructor (maxDailyOutflow: int, maxSingleTx: int, minDeposit: int, file: Option<Saved>, now: int)
      ensures State() == Load(file, now)
      ensures this.maxDailyOutflow == maxDailyOutflow && this.maxSingleTx == maxSingleTx
              && this.minDeposit == minDeposit
    {
      this.maxDailyOutflow, this.maxSingleTx, this.minDeposit := maxDailyOutflow, maxSingleTx, minDeposit;
      this.file := file;
      dailyOutflow := 0;
      windowStart := now;
      new;
      LoadState(now);
    }

    method LoadState(now: int)
      requires dailyOutflow == 0 && windowStart == now
      modifies this`dailyOutflow, this`windowStart
      ensures State() == Load(file, now)
    {
      if file.Some? && file.value.windowStart != 0 {
        var savedWindowStart := file.value.windowStart;
        if now - savedWindowStart < WINDOW_MS {
          dailyOutflow := file.value.dailyOutflow;
          windowStart := savedWindowStart;
        }
      }
    }

    method PersistState(written: bool)
      modifies this`file
      ensures State() == Persist(old(State()), written)
    {
      if written {
        file := Some(Saved(dailyOutflow, windowStart));
      }
    }

    method MaybeResetWindow(now: int, written: bool)
      modifies this
      ensures State() == Refresh(old(State()), now, written)
    {
      if now - windowStart >= WINDOW_MS {
        dailyOutflow := 0;
        windowStart := now;
        PersistState(written);
      }
    }

    method CanConsume(now: int, amount: nat, written: bool) returns (ok: bool)
      modifies this
      ensures State() == Refresh(old(State()), now, written) && ok == Fits(State(), maxDailyOutflow, amount)
    {
      MaybeResetWindow(now, written);
      ok := dailyOutflow + amount <= maxDailyOutflow;
    }

    method ConsumeBudget(now: int, amount: nat, written: bool) returns (ok: bool)
      modifies this
      ensures State() == Consume(old(State()), maxDailyOutflow, now, amount, written)
      ensures ok == Fits(Refresh(old(State()), now, written), maxDailyOutflow, amount)
    {
      MaybeResetWindow(now, written);
      if dailyOutflow + amount > maxDailyOutflow {
        return false;
      }
      dailyOutflow := dailyOutflow + amount;
      PersistState(written);
      return true;
    }

    /** A deposit that passes is proposed for consensus; nothing is consumed yet. */
    method AdmitDeposit(now: int, amount: nat, written: bool) returns (ok: bool)
      modifies this
      ensures ok <==>
              && minDeposit <= amount <= maxSingleTx
              && Fits(Refresh(old(State()), now, written), maxDailyOutflow, amount)
      ensures State() == if minDeposit <= amount <= maxSingleTx then Refresh(old(State()), now, written)
                         else old(State())
    {
      if amount < minDeposit {
        return false;
      }
      if amount > maxSingleTx {
        return false;
      }
      ok := CanConsume(now, amount, written);
    }

    /** The consensus_reached handler: whether the transfer is handed to submission. */
    method OnConsensusReached(now: int, amount: nat, written: bool) returns (submit: bool)
      modifies this
      ensures State() == if amount > 0 then Consume(old(State()), maxDailyOutflow, now, amount, written)
                         else old(State())
      ensures submit == (amount == 0 || Fits(Refresh(old(State()), now, written), maxDailyOutflow, amount))
    {
      if amount > 0 {
        var ok := ConsumeBudget(now, amount, written);
        if !ok {
          return false;
        }
      }
      return true;
    }
  }

  // --------------------------------------------------------------------------
  // Runs
  // --------------------------------------------------------------------------

  datatype Spent = Spent(time: int, amount: nat)

  /** Total spent at times from a up to, not including, b. */
  function Total(log: seq<Spent>, a: int, b: int): nat {
    if log == [] then 0
    else
      var last := log[|log| - 1];
      Total(log[..|log| - 1], a, b) + if a <= last.time < b then last.amount else 0
  }

  /** The cap is the same throughout: a restart keeps the configuration. */
  datatype Action =
    | DoCheck(now: int, written: bool)
    | DoConsume(now: int, amount: nat, written: bool)
    | DoRestart(now: int)

  /** A limiter, what it let through so far, and the time of the last action. */
  datatype Trace = Trace(l: Limiter, log: seq<Spent>, clock: int)

  function Next(t: Trace, cap: int, a: Action): Trace {
    match a
    case DoCheck(now, written) => Trace(Refresh(t.l, now, written), t.log, now)
    case DoConsume(now, amount, written) =>
      Trace(Consume(t.l, cap, now, amount, written),
            if Fits(Refresh(t.l, now, written), cap, amount) then t.log + [Spent(now, amount)] else t.log, now)
    case DoRestart(now) => Trace(Load(t.l.file, now), t.log, now)
  }

  /** What a restart would find: the window is over, or empty, or it is on disk as it is in memory. */
  predicate Accounted(l: Limiter, now: int) {
    now - l.windowStart >= 86_400_000 || l.dailyOutflow == 0 || l.file == Some(Saved(l.dailyOutflow, l.windowStart))
  }

  /** The clock never runs backwards. */
  predicate Ordered(clock: int, run: seq<Action>)
    decreases run
  {
    run == [] || (clock <= run[0].now && Ordered(run[0].now, run[1..]))
  }

  function Exec(t: Trace, cap: int, run: seq<Action>): Trace
    decreases run
  {
    if run == [] then t else Exec(Next(t, cap, run[0]), cap, run[1..])
  }

  /** Whichever writes fail, every restart along the run finds its spending accounted for. */
  predicate RestartsAccounted(t: Trace, cap: int, run: seq<Action>)
    decreases run
  {
    || run == []
    || ((run[0].DoRestart? ==> Accounted(t.l, run[0].now)) && RestartsAccounted(Next(t, cap, run[0]), cap, run[1..]))
  }

  /** First start, at a time after the epoch, without a file. */
  function Init(now: int): Trace { Trace(Load(None, now), [], now) }

  // --------------------------------------------------------------------------
  // The invariant
  // --------------------------------------------------------------------------

  predicate TimesBelow(log: seq<Spent>, bound: int) {
    forall k :: 0 <= k < |log| ==> log[k].time < bound
  }

  /** The file is of this window and not ahead of it, or it is a day older. */
  predicate FileOk(l: Limiter) {
    l.file.Some? ==>
      && 0 < l.file.value.windowStart
      && if l.file.value.windowStart == l.windowStart then l.file.value.dailyOutflow <= l.dailyOutflow
         else l.file.value.windowStart <= l.windowStart - WINDOW_MS
  }

  /** At most twice the cap in the closed day that starts at a. */
  predicate DayBounded(log: seq<Spent>, cap: int, a: int) { Total(log, a, a + WINDOW_MS + 1) <= 2 * cap }

  ghost predicate Inv(t: Trace, cap: int) {
    && 0 < t.l.windowStart <= t.clock
    && TimesBelow(t.log, t.clock + 1) && TimesBelow(t.log, t.l.windowStart + WINDOW_MS)
    && t.l.dailyOutflow == Total(t.log, t.l.windowStart, t.l.windowStart + WINDOW_MS) <= cap
    && Total(t.log, t.l.windowStart - WINDOW_MS, t.l.windowStart) <= cap
    && (forall a :: DayBounded(t.log, cap, a))
    && FileOk(t.l)
  }

  lemma {:induction false} TotalSplits(log: seq<Spent>, a: int, b: int, c: int)
    requires a <= b <= c
    ensures Total(log, a, c) == Total(log, a, b) + Total(log, b, c)
  {
    if log != [] {
      TotalSplits(log[..|log| - 1], a, b, c);
    }
  }

  lemma TotalMonotone(log: seq<Spent>, a: int, b: int, a': int, b': int)
    requires a' <= a <= b <= b'
    ensures Total(log, a, b) <= Total(log, a', b')
  {
    TotalSplits(log, a', a, b');
    TotalSplits(log, a, b, b');
  }

  lemma {:induction false} TotalBeyond(log: seq<Spent>, bound: int, b: int)
    requires TimesBelow(log, bound)
    ensures Total(log, bound, b) == 0
  {
    if log != [] {
      TotalBeyond(log[..|log| - 1], bound, b);
    }
  }

  lemma TotalOfMore(log: seq<Spent>, x: Spent, a: int, b: int)
    ensures Total(log + [x], a, b) == Total(log, a, b) + if a <= x.time < b then x.amount else 0
  {
    assert (log + [x])[..|log|] == log;
  }

  /** A new window that opens a day or more after the old one starts with a clean slate. */
  lemma {:induction false} WindowTurns(t: Trace, cap: int, now: int)
    requires Inv(t, cap) && now >= t.clock && now - t.l.windowStart >= WINDOW_MS
    ensures TimesBelow(t.log, now)
    ensures Total(t.log, now, now + WINDOW_MS) == 0 && Total(t.log, now - WINDOW_MS, now) <= cap
  {
    hide Total;
    var w := t.l.windowStart;
    TotalBeyond(t.log, now, now + WINDOW_MS);
    TotalMonotone(t.log, now - WINDOW_MS, now, w, now);
    TotalSplits(t.log, w, w + WINDOW_MS, now);
    TotalBeyond(t.log, w + WINDOW_MS, now);
  }

  lemma {:induction false} RefreshKeepsInv(t: Trace, cap: int, now: int, written: bool)
    requires Inv(t, cap) && now >= t.clock
    ensures Inv(Trace(Refresh(t.l, now, written), t.log, now), cap)
    ensures now < Refresh(t.l, now, written).windowStart + WINDOW_MS
  {
    hide Total, DayBounded;
    if now - t.l.windowStart >= WINDOW_MS {
      WindowTurns(t, cap, now);
    }
  }

  /** A start that finds its spending accounted for: the window goes on, or nothing was spent in it. */
  lemma {:induction false} RestartKeepsInv(t: Trace, cap: int, now: int)
    requires Inv(t, cap) && now >= t.clock && Accounted(t.l, now)
    ensures Inv(Trace(Load(t.l.file, now), t.log, now), cap)
  {
    hide Total, DayBounded;
    var w := t.l.windowStart;
    if now - w >= WINDOW_MS {
      WindowTurns(t, cap, now);
    } else if t.l.dailyOutflow == 0 {
      TotalMonotone(t.log, w, now, w, w + WINDOW_MS);
      TotalMonotone(t.log, now, w + WINDOW_MS, w, w + WINDOW_MS);
      TotalSplits(t.log, now, w + WINDOW_MS, now + WINDOW_MS);
      TotalBeyond(t.log, w + WINDOW_MS, now + WINDOW_MS);
      TotalSplits(t.log, now - WINDOW_MS, w, now);
      TotalMonotone(t.log, now - WINDOW_MS, w, w - WINDOW_MS, w);
    }
  }

  lemma {:induction false} SpendKeepsDay(t: Trace, cap: int, now: int, amount: nat, a: int)
    requires Inv(t, cap) && t.clock == now && now < t.l.windowStart + WINDOW_MS && Fits(t.l, cap, amount)
    ensures DayBounded(t.log + [Spent(now, amount)], cap, a)
  {
    hide Total;
    var w := t.l.windowStart;
    TotalOfMore(t.log, Spent(now, amount), a, a + WINDOW_MS + 1);
    assert DayBounded(t.log, cap, a);
    if a <= now < a + WINDOW_MS + 1 {
      var end := a + WINDOW_MS + 1;
      if a < w {
        TotalSplits(t.log, a, w, end);
        TotalMonotone(t.log, a, w, w - WINDOW_MS, w);
        SpentSince(t, cap, w, end);
      } else {
        SpentSince(t, cap, a, end);
      }
    }
  }

  /** Whatever the end, nothing spent since the window opened exceeds the recorded outflow. */
  lemma {:induction false} SpentSince(t: Trace, cap: int, a: int, end: int)
    requires Inv(t, cap) && t.l.windowStart <= a <= end
    ensures Total(t.log, a, end) <= t.l.dailyOutflow
  {
    hide Total, DayBounded;
    var w := t.l.windowStart;
    TotalMonotone(t.log, a, end, w, Max(end, w + WINDOW_MS));
    TotalSplits(t.log, w, w + WINDOW_MS, Max(end, w + WINDOW_MS));
    TotalBeyond(t.log, w + WINDOW_MS, Max(end, w + WINDOW_MS));
  }

  lemma {:induction false} SpendKeepsInv(t: Trace, cap: int, now: int, amount: nat, written: bool)
    requires Inv(t, cap) && t.clock == now && now < t.l.windowStart + WINDOW_MS && Fits(t.l, cap, amount)
    ensures var l' := Persist(t.l.(dailyOutflow := t.l.dailyOutflow + amount), written);
            Inv(Trace(l', t.log + [Spent(now, amount)], now), cap)
  {
    hide Total, DayBounded;
    var w := t.l.windowStart;
    TotalOfMore(t.log, Spent(now, amount), w, w + WINDOW_MS);
    TotalOfMore(t.log, Spent(now, amount), w - WINDOW_MS, w);
    forall a ensures DayBounded(t.log + [Spent(now, amount)], cap, a) {
      SpendKeepsDay(t, cap, now, amount, a);
    }
  }

  lemma {:induction false} StepKeepsInv(t: Trace, cap: int, a: Action)
    requires Inv(t, cap) && t.clock <= a.now && (a.DoRestart? ==> Accounted(t.l, a.now))
    ensures Inv(Next(t, cap, a), cap)
  {
    hide Inv, Load, Refresh, Total;
    match a
    case DoCheck(now, written) => RefreshKeepsInv(t, cap, now, written);
    case DoConsume(now, amount, written) =>
      RefreshKeepsInv(t, cap, now, written);
      if Fits(Refresh(t.l, now, written), cap, amount) {
        SpendKeepsInv(Trace(Refresh(t.l, now, written), t.log, now), cap, now, amount, written);
      }
    case DoRestart(now) => RestartKeepsInv(t, cap, now);
  }

  lemma {:induction false} ExecKeepsInv(t: Trace, cap: int, run: seq<Action>)
    requires Inv(t, cap) && Ordered(t.clock, run) && RestartsAccounted(t, cap, run)
    ensures Inv(Exec(t, cap, run), cap)
    decreases run
  {
    hide Inv;
    if run != [] {
      StepKeepsInv(t, cap, run[0]);
      ExecKeepsInv(Next(t, cap, run[0]), cap, run[1..]);
    }
  }

  lemma InitInv(cap: nat, now: int)
    requires now > 0
    ensures Inv(Init(now), cap)
  {}

  /**
   * Over any run whose restarts find their spending accounted for, whichever writes fail: the counter is
   * exactly what was spent since the window opened and within the cap, and no closed 24-hour interval sees
   * more than twice the cap.
   */
  lemma {:induction false} OutflowIsBounded(cap: nat, now: int, run: seq<Action>, a: int)
    requires now > 0 && Ordered(now, run) && RestartsAccounted(Init(now), cap, run)
    ensures var t := Exec(Init(now), cap, run);
            && t.l.dailyOutflow == Total(t.log, t.l.windowStart, t.clock + 1) <= cap
            && Total(t.log, a, a + 24 * 60 * 60 * 1000 + 1) <= 2 * cap
  {
    hide Exec, Total;
    InitInv(cap, now);
    ExecKeepsInv(Init(now), cap, run);
    var t := Exec(Init(now), cap, run);
    assert DayBounded(t.log, cap, a);
    SpentUpTo(t, cap);
  }

  /**
   * When budget is granted, in terms of what was let through: a transfer passes exactly if what has been spent
   * since the window opened, or nothing once that was 24 hours ago, leaves room for it. It is then counted, and
   * saved if writing works; one that does not pass changes nothing but an overdue window.
   */
  lemma {:induction false} GrantedExactly(t: Trace, cap: int, now: int, amount: nat, written: bool)
    requires Inv(t, cap) && now >= t.clock
    ensures var start := if now - t.l.windowStart >= 24 * 60 * 60 * 1000 then now else t.l.windowStart;
            var t' := Next(t, cap, DoConsume(now, amount, written));
            && t'.l.windowStart == start && t'.clock == now
            && t'.l.dailyOutflow == Total(t'.log, start, now + 1)
            && if Total(t.log, start, now + 1) + amount <= cap
               then t'.log == t.log + [Spent(now, amount)]
                    && t'.l.file == if written then Some(Saved(t'.l.dailyOutflow, start)) else t.l.file
               else t'.log == t.log
                    && t'.l.file == if written && start != t.l.windowStart then Some(Saved(0, now)) else t.l.file
  {
    hide Total, DayBounded;
    RefreshKeepsInv(t, cap, now, written);
    var t1 := Trace(Refresh(t.l, now, written), t.log, now);
    SpentUpTo(t1, cap);
    if Fits(t1.l, cap, amount) {
      TotalOfMore(t.log, Spent(now, amount), t1.l.windowStart, now + 1);
    }
  }

  /** The counter is what was spent since the window start. */
  lemma {:induction false} SpentUpTo(t: Trace, cap: int)
    requires Inv(t, cap)
    ensures t.l.dailyOutflow == Total(t.log, t.l.windowStart, t.clock + 1)
  {
    hide Total, DayBounded;
    var w := t.l.windowStart;
    var end := Max(t.clock + 1, w + WINDOW_MS);
    TotalSplits(t.log, w, w + WINDOW_MS, end);
    TotalBeyond(t.log, w + WINDOW_MS, end);
    TotalSplits(t.log, w, t.clock + 1, end);
    TotalBeyond(t.log, t.clock + 1, end);
  }

  /** A start takes up a saved window that is not yet 24 hours old, and otherwise opens one. */
  lemma StartExactly(file: Option<Saved>, now: int)
    ensures var l := Load(file, now);
            && l.file == file
            && if file.Some? && file.value.windowStart != 0 && now - file.value.windowStart < 24 * 60 * 60 * 1000
               then l.windowStart == file.value.windowStart && l.dailyOutflow == file.value.dailyOutflow
               else l.windowStart == now && l.dailyOutflow == 0
  {}

  /** The whole cap at a window's last millisecond and again at the next one. */
  function LastAndFirst(cap: nat, now: int): seq<Action> {
    [DoConsume(now + 86_400_000 - 1, cap, true), DoConsume(now + 86_400_000, cap, true)]
  }

  /** Twice the cap is reached. */
  lemma TwiceTheCapIsReached(cap: nat, now: int)
    requires now > 0
    ensures Ordered(now, LastAndFirst(cap, now)) && RestartsAccounted(Init(now), cap, LastAndFirst(cap, now))
    ensures Total(Exec(Init(now), cap, LastAndFirst(cap, now)).log, now + 86_400_000 - 1, now + 86_400_000 + 1)
            == 2 * cap
  {
    hide RestartsAccounted, Total;
    var run := LastAndFirst(cap, now);
    SavedSpendingIsAccounted(Init(now), cap, run);
    LastAndFirstLog(cap, now);
    var x, y := Spent(now + WINDOW_MS - 1, cap), Spent(now + WINDOW_MS, cap);
    TotalOfMore([], x, x.time, y.time + 1);
    TotalOfMore([x], y, x.time, y.time + 1);
    assert [x] + [y] == [x, y] && [] + [x] == [x];
    TotalBeyond([], x.time, y.time + 1);
  }

  lemma LastAndFirstLog(cap: nat, now: int)
    requires now > 0
    ensures Ordered(now, LastAndFirst(cap, now))
    ensures Exec(Init(now), cap, LastAndFirst(cap, now)).log
            == [Spent(now + WINDOW_MS - 1, cap), Spent(now + WINDOW_MS, cap)]
  {
    var run := LastAndFirst(cap, now);
    assert run[1..] == [run[1]] && run[1..][1..] == [];
    var t1 := Next(Init(now), cap, run[0]);
    assert t1.log == [] + [Spent(now + WINDOW_MS - 1, cap)];
    var t2 := Next(t1, cap, run[1]);
    assert Exec(Init(now), cap, run) == Exec(t1, cap, [run[1]]) == Exec(t2, cap, []) == t2;
  }

  // --------------------------------------------------------------------------
  // Restarts and what they forget
  // --------------------------------------------------------------------------

  /** Every consumption is written; whether turning over an empty window is does not matter. */
  predicate SpendingSaved(run: seq<Action>) { forall k :: 0 <= k < |run| && run[k].DoConsume? ==> run[k].written }

  /** Then no restart forgets anything, wherever it happens. */
  lemma {:induction false} SavedSpendingIsAccounted(t: Trace, cap: int, run: seq<Action>)
    requires t.l.dailyOutflow == 0 || t.l.file == Some(Saved(t.l.dailyOutflow, t.l.windowStart))
    requires SpendingSaved(run)
    ensures RestartsAccounted(t, cap, run)
    decreases run
  {
    if run != [] {
      SavedSpendingIsAccounted(Next(t, cap, run[0]), cap, run[1..]);
    }
  }

  /** A restart at `now`, and right after it a saved consumption. */
  function Restarted(t: Trace, cap: int, now: int, amount: nat): Trace {
    Next(Next(t, cap, DoRestart(now)), cap, DoConsume(now, amount, true))
  }

  /** In the window that was open before the restart. */
  predicate Overspent(t: Trace, cap: int, log: seq<Spent>) {
    Total(log, t.l.windowStart, t.l.windowStart + 86_400_000) > cap
  }

  /** A restart lets the open window be overspent exactly when it does not find its spending accounted for. */
  lemma {:induction false} OverspendsExactly(t: Trace, cap: int, now: int)
    requires Inv(t, cap) && now >= t.clock
    ensures (exists amount: nat :: Overspent(t, cap, Restarted(t, cap, now, amount).log)) <==> !Accounted(t.l, now)
  {
    hide Restarted, Overspent, Accounted, Inv;
    if Accounted(t.l, now) {
      forall amount: nat ensures !Overspent(t, cap, Restarted(t, cap, now, amount).log) {
        AccountedNeverOverspends(t, cap, now, amount);
      }
    } else {
      ForgottenCanBeSpent(t, cap, now);
    }
  }

  lemma {:induction false} AccountedNeverOverspends(t: Trace, cap: int, now: int, amount: nat)
    requires Inv(t, cap) && now >= t.clock && Accounted(t.l, now)
    ensures !Overspent(t, cap, Restarted(t, cap, now, amount).log)
  {
    hide Total, DayBounded;
    TotalOfMore(t.log, Spent(now, amount), t.l.windowStart, t.l.windowStart + WINDOW_MS);
  }

  /** All that the restart left of the budget, on top of what the window had spent before. */
  lemma {:induction false} ForgottenCanBeSpent(t: Trace, cap: int, now: int)
    requires Inv(t, cap) && now >= t.clock && !Accounted(t.l, now)
    ensures exists amount: nat :: Overspent(t, cap, Restarted(t, cap, now, amount).log)
  {
    hide Total, DayBounded;
    var l := Load(t.l.file, now);
    assert l.dailyOutflow < t.l.dailyOutflow <= cap;
    var amount: nat := cap - l.dailyOutflow;
    TotalOfMore(t.log, Spent(now, amount), t.l.windowStart, t.l.windowStart + WINDOW_MS);
    assert Overspent(t, cap, Restarted(t, cap, now, amount).log);
  }

  /** Spends the cap, loses the write and restarts, k times over. */
  function ForgetfulRun(now: int, cap: nat, k: nat): seq<Action> {
    if k == 0 then [] else [DoConsume(now, cap, false), DoRestart(now)] + ForgetfulRun(now, cap, k - 1)
  }

  /** Without saving there is no bound: any multiple of the cap can leave within one millisecond. */
  lemma {:induction false} UnsavedSpendingIsUnbounded(cap: nat, now: int, k: nat)
    requires now > 0
    ensures Ordered(now, ForgetfulRun(now, cap, k))
    ensures Total(Exec(Init(now), cap, ForgetfulRun(now, cap, k)).log, now, now + 1) == k * cap
  {
    ForgetfulFrom(cap, now, k, []);
  }

  lemma {:induction false} ForgetfulFrom(cap: nat, now: int, k: nat, log: seq<Spent>)
    requires now > 0
    ensures Ordered(now, ForgetfulRun(now, cap, k))
    ensures Total(Exec(Trace(Load(None, now), log, now), cap, ForgetfulRun(now, cap, k)).log, now, now + 1)
         == Total(log, now, now + 1) + k * cap
    decreases k
  {
    hide Total, Next;
    if k > 0 {
      var t := Trace(Load(None, now), log, now);
      var rest := ForgetfulRun(now, cap, k - 1);
      ForgetfulStep(cap, now, log);
      TwoSteps(t, cap, DoConsume(now, cap, false), DoRestart(now), rest);
      TotalOfMore(log, Spent(now, cap), now, now + 1);
      ForgetfulFrom(cap, now, k - 1, log + [Spent(now, cap)]);
    }
  }

  lemma ForgetfulStep(cap: nat, now: int, log: seq<Spent>)
    ensures Next(Next(Trace(Load(None, now), log, now), cap, DoConsume(now, cap, false)), cap, DoRestart(now))
         == Trace(Load(None, now), log + [Spent(now, cap)], now)
  {}

  lemma TwoSteps(t: Trace, cap: int, a: Action, b: Action, rest: seq<Action>)
    ensures Exec(t, cap, [a, b] + rest) == Exec(Next(Next(t, cap, a), cap, b), cap, rest)
    ensures Ordered(b.now, rest) && t.clock <= a.now <= b.now ==> Ordered(t.clock, [a, b] + rest)
  {
    hide Next;
    assert ([a, b] + rest)[1..] == [b] + rest && ([b] + rest)[1..] == rest;
    assert Exec(t, cap, [a, b] + rest) == Exec(Next(t, cap, a), cap, [b] + rest);
  }
}
