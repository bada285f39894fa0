/**
 * The polling cursor of the Solana watcher. The program's confirmed transactions form a list
 * that only grows at the end; a signature is named by its position in it. A cursor at p means
 * that the transaction at p - 1 was the last one handled.
 */
module SolanaScan {
  import opened Bytes
  import opened Options

  const LIMIT: int := 50

  /** `last` is `lastSeenSignature`, `file` the persisted one. */
  datatype Watcher = Watcher(last: Option<nat>, file: Option<nat>)

  function Save(w: Watcher, saves: bool): Watcher { if saves then w.(file := w.last) else w }

  /** Start of `runPollingLoop`. The newest signature is fetched before the cursor is looked at. */
  function Seed(w: Watcher, length: nat, fetched: bool, saves: bool): Watcher {
    if !fetched then w.(last := None)
    else if w.file.Some? then w.(last := w.file)
    else if length > 0 then Save(w.(last := Some(length)), saves)
    else w.(last := None)
  }

  /** Oldest of the at most 50 newest transactions after the cursor. */
  function Oldest(last: Option<nat>, length: nat): (start: nat)
    ensures start <= length
  {
    Min(length, Max(if last.Some? then last.value else 0, length - LIMIT))
  }

  /** Handles transactions from position k on, until one throws; with the positions handled, in order. */
  function Handle(w: Watcher, k: nat, length: nat, throwing: set<nat>, saved: set<nat>): (Watcher, seq<nat>)
    decreases length - k
  {
    if k >= length || k in throwing then (w, [])
    else
      var (w', handled) := Handle(Save(w.(last := Some(k + 1)), k in saved), k + 1, length, throwing, saved);
      (w', [k] + handled)
  }

  /** The first transaction is either the end of it or handled before the rest. */
  lemma HandleOnce(w: Watcher, k: nat, length: nat, throwing: set<nat>, saved: set<nat>)
    ensures k >= length || k in throwing ==> Handle(w, k, length, throwing, saved) == (w, [])
    ensures k < length && k !in throwing ==>
              var rest := Handle(Save(w.(last := Some(k + 1)), k in saved), k + 1, length, throwing, saved);
              Handle(w, k, length, throwing, saved) == (rest.0, [k] + rest.1)
  {
    hide Save;
  }

  function Poll(w: Watcher, length: nat, throwing: set<nat>, saved: set<nat>): (Watcher, seq<nat>) {
    Handle(w, Oldest(w.last, length), length, throwing, saved)
  }

  /** How a fetched transaction turns out. */
  datatype Outcome = FailedOnChain | WithoutLogs | Processed | Throws

  function Throwing(outcomes: seq<Outcome>): (r: set<nat>)
    ensures forall k: nat :: k in r <==> k < |outcomes| && outcomes[k] == Throws
  {
    set k: nat | k < |outcomes| && outcomes[k] == Throws
  }

  class SolanaWatcher {
    var lastSeenSignature: Option<nat>
    var cursorFile: Option<nat>

    ghost function State(): Watcher
      reads this
    {
      Watcher(lastSeenSignature, cursorFile)
    }

    constructor (cursorFile: Option<nat>)
      ensures State() == Watcher(None, cursorFile)
    {
      lastSeenSignature := None;
      this.cursorFile := cursorFile;
    }

    method SaveCursor(written: bool)
      modifies this`cursorFile
      ensures State() == Save(old(State()), written)
    {
      if written {
        cursorFile := lastSeenSignature;
      }
    }

    /** Signatures are only fetched here to seed a first start, but a failure also keeps the saved cursor unread. */
    method SeedCursor(length: nat, fetched: bool, written: bool)
      requires lastSeenSignature == None
      modifies this
      ensures State() == Seed(old(State()), length, fetched, written)
    {
      if !fetched {
        return;
      }
      if cursorFile.Some? {
        lastSeenSignature := cursorFile;
      } else if length > 0 {
        lastSeenSignature := Some(length);
        SaveCursor(written);
      }
    }

    method AdvanceCursor(position: nat, written: bool)
      modifies this
      ensures State() == Save(old(State()).(last := Some(position + 1)), written)
    {
      lastSeenSignature := Some(position + 1);
      SaveCursor(written);
    }

    /** `pollNewTransactions`: `outcomes[k]` is how transaction k turns out in this poll. */
    method PollNewTransactions(outcomes: seq<Outcome>, saved: set<nat>) returns (handled: seq<nat>)
      modifies this
      ensures var polled := Poll(old(State()), |outcomes|, Throwing(outcomes), saved);
              State() == polled.0 && handled == polled.1
    {
      hide Throwing, Save, Oldest, Handle;
      handled := [];
      var length := |outcomes|;
      ghost var throwing := Throwing(outcomes);
      var start := Oldest(lastSeenSignature, length);
      for k := start to length
        invariant Poll(old(State()), length, throwing, saved).0 == Handle(State(), k, length, throwing, saved).0
        invariant Poll(old(State()), length, throwing, saved).1
                  == handled + Handle(State(), k, length, throwing, saved).1
      {
        HandleOnce(State(), k, length, throwing, saved);
        match outcomes[k] {
          case FailedOnChain => AdvanceCursor(k, k in saved);
          case WithoutLogs => AdvanceCursor(k, k in saved);
          case Processed => AdvanceCursor(k, k in saved);
          case Throws => return;
        }
        handled := handled + [k];
      }
      HandleOnce(State(), length, length, throwing, saved);
    }
  }

  // --------------------------------------------------------------------------
  // Runs
  // --------------------------------------------------------------------------

  /** `length` is the length of the transaction list at the time; `DoRestart` is a start, after a crash or the first. */
  datatype Action =
    | DoRestart(length: nat, fetched: bool, saves: bool)
    | DoPoll(length: nat, throwing: set<nat>, saved: set<nat>)

  /** `first` is where the cursor first stood, `handled` the positions handled, `length` the list's length last seen. */
  datatype Trace = Trace(w: Watcher, first: Option<nat>, handled: seq<nat>, length: nat)

  function Init(): Trace { Trace(Watcher(None, None), None, [], 0) }

  function Next(t: Trace, a: Action): Trace {
    match a
    case DoRestart(length, fetched, saves) =>
      var w := Seed(t.w, length, fetched, saves);
      Trace(w, if t.first.None? then w.last else t.first, t.handled, length)
    case DoPoll(length, throwing, saved) =>
      var (w, handled) := Poll(t.w, length, throwing, saved);
      Trace(w, if t.first.None? && handled != [] then Some(handled[0]) else t.first, t.handled + handled, length)
  }

  /** Where the watcher stands, or would resume. */
  function Reach(w: Watcher): Option<nat> { if w.last.Some? then w.last else w.file }

  /** A start that finds a saved cursor, or a poll with at most 50 transactions after the cursor; or a beginning. */
  predicate KeepsUp(t: Trace, a: Action) {
    t.first.Some? ==>
      match a
      case DoRestart(_, _, _) => t.w.file.Some?
      case DoPoll(length, _, _) => Reach(t.w).Some? && length - Reach(t.w).value <= 50
  }

  /** The list of transactions only grows, and the watcher keeps up with it. */
  predicate AllKept(t: Trace, run: seq<Action>)
    decreases run
  {
    run == [] || (run[0].length >= t.length && KeepsUp(t, run[0]) && AllKept(Next(t, run[0]), run[1..]))
  }

  function Exec(t: Trace, run: seq<Action>): Trace
    decreases run
  {
    if run == [] then t else Exec(Next(t, run[0]), run[1..])
  }

  predicate Within(cursor: Option<nat>, length: nat) { cursor.Some? ==> cursor.value <= length }

  predicate Inv(t: Trace) {
    && Within(t.w.last, t.length) && Within(t.w.file, t.length) && Within(t.first, t.length)
    && (t.first.None? ==> t.w == Watcher(None, None) && t.handled == [])
  }

  predicate HandledUpTo(t: Trace, cursor: Option<nat>) {
    t.first.Some? && cursor.Some? ==> forall i :: t.first.value <= i < cursor.value ==> i in t.handled
  }

  /** Everything from the first position up to the cursor, in memory or on disk, has been handled. */
  predicate Covered(t: Trace) { HandledUpTo(t, t.w.last) && HandledUpTo(t, t.w.file) }

  /** One poll handles consecutive transactions, up to the first that throws, and moves the cursor behind them. */
  lemma {:induction false} HandleIsConsecutive(w: Watcher, k: nat, length: nat, throwing: set<nat>, saved: set<nat>)
    requires k <= length
    ensures var (w', handled) := Handle(w, k, length, throwing, saved);
            && k + |handled| <= length
            && (forall i :: 0 <= i < |handled| ==> handled[i] == k + i)
            && (forall i :: k <= i < k + |handled| ==> i !in throwing)
            && (k + |handled| < length ==> k + |handled| in throwing)
            && w'.last == (if handled == [] then w.last else Some(k + |handled|))
            && (w'.file == w.file || (w'.file.Some? && k < w'.file.value <= k + |handled|
                                      && w'.file.value - 1 in saved))
            && (forall i: nat :: k <= i < k + |handled| && i in saved ==> w'.file.Some? && w'.file.value > i)
    decreases length - k
  {
    if k < length && k !in throwing {
      var w1 := Save(w.(last := Some(k + 1)), k in saved);
      HandleIsConsecutive(w1, k + 1, length, throwing, saved);
    }
  }

  /** Where a start puts the cursor, and that it waits for a first fetch to look for the saved one. */
  lemma SeedExactly(w: Watcher, length: nat, fetched: bool, saves: bool)
    ensures var w' := Seed(w, length, fetched, saves);
            && w'.last == (if !fetched then None else if w.file.Some? then w.file
                           else if length > 0 then Some(length) else None)
            && w'.file == if fetched && w.file.None? && length > 0 && saves then Some(length) else w.file
  {}

  /**
   * What one poll does: from the cursor or the 50th newest on, whichever is later, it handles transactions one after
   * the other up to the first that throws, moves behind them, and leaves the last of the cursors it could write.
   */
  lemma {:induction false} PollExactly(w: Watcher, length: nat, throwing: set<nat>, saved: set<nat>)
    requires w.last.Some? ==> w.last.value <= length
    ensures var (w', handled) := Poll(w, length, throwing, saved);
            var from := if w.last.Some? then w.last.value else 0;
            var start := if length > 50 && from < length - 50 then length - 50 else from;
            && start + |handled| <= length && (forall i :: 0 <= i < |handled| ==> handled[i] == start + i)
            && (forall i :: start <= i < start + |handled| ==> i !in throwing)
            && (start + |handled| < length ==> start + |handled| in throwing)
            && w'.last == (if handled == [] then w.last else Some(start + |handled|))
            && (w'.file == w.file || (w'.file.Some? && w'.file.value > 0 && w'.file.value - 1 in saved))
            && (forall i: nat :: start <= i < start + |handled| && i in saved ==> w'.file.Some? && w'.file.value > i)
  {
    hide Handle;
    HandleIsConsecutive(w, Oldest(w.last, length), length, throwing, saved);
  }

  lemma {:induction false} StepKeepsInv(t: Trace, a: Action)
    requires Inv(t) && a.length >= t.length
    ensures Inv(Next(t, a))
  {
    hide Handle;
    if a.DoPoll? {
      HandleIsConsecutive(t.w, Oldest(t.w.last, a.length), a.length, a.throwing, a.saved);
    }
  }

  lemma {:induction false} StepKeepsCovered(t: Trace, a: Action)
    requires Inv(t) && Covered(t) && a.length >= t.length && KeepsUp(t, a)
    ensures Covered(Next(t, a))
  {
    hide Handle;
    if a.DoPoll? {
      var k := Oldest(t.w.last, a.length);
      HandleIsConsecutive(t.w, k, a.length, a.throwing, a.saved);
      var (w, handled) := Poll(t.w, a.length, a.throwing, a.saved);
      var t' := Next(t, a);
      assert t.first.Some? ==> k <= Reach(t.w).value;
      forall i | (k <= i < k + |handled|) || i in t.handled ensures i in t'.handled {
        if k <= i < k + |handled| {
          assert t'.handled[|t.handled| + (i - k)] == handled[i - k] == i;
        }
      }
    }
  }

  lemma {:induction false} ExecKeepsCovered(t: Trace, run: seq<Action>)
    requires Inv(t) && Covered(t) && AllKept(t, run)
    ensures Inv(Exec(t, run)) && Covered(Exec(t, run))
    decreases run
  {
    hide Inv, Covered, Next, KeepsUp;
    if run != [] {
      StepKeepsInv(t, run[0]);
      StepKeepsCovered(t, run[0]);
      ExecKeepsCovered(Next(t, run[0]), run[1..]);
    }
  }

  /**
   * While no poll finds more than 50 transactions after the cursor and every restart finds a saved one,
   * every transaction between the first position and the cursor has been handled.
   */
  lemma {:induction false} NoTransactionIsSkipped(run: seq<Action>, i: nat)
    requires AllKept(Init(), run)
    ensures var t := Exec(Init(), run);
            t.first.Some? && t.w.last.Some? && t.first.value <= i < t.w.last.value ==> i in t.handled
  {
    hide Exec, AllKept;
    ExecKeepsCovered(Init(), run);
  }

  function Positions(from: nat, end: nat): (r: seq<nat>)
    requires from <= end
    ensures |r| == end - from && forall i :: 0 <= i < |r| ==> r[i] == from + i
    decreases end
  {
    if from == end then [] else Positions(from, end - 1) + [end - 1]
  }

  lemma PositionsJoin(a: nat, b: nat, c: nat)
    requires a <= b <= c
    ensures Positions(a, b) + Positions(b, c) == Positions(a, c)
  {}

  predicate OnlyPolls(run: seq<Action>) { forall k :: 0 <= k < |run| ==> run[k].DoPoll? }

  /** Between restarts, transactions are handled in chain order, each exactly once, none left out. */
  lemma {:induction false} PollsHandleInOrder(t: Trace, run: seq<Action>)
    requires Inv(t) && t.w.last.Some? && AllKept(t, run) && OnlyPolls(run)
    ensures var t' := Exec(t, run);
            t'.w.last.Some? && t.w.last.value <= t'.w.last.value
            && t'.handled == t.handled + Positions(t.w.last.value, t'.w.last.value)
    decreases run
  {
    hide Handle, Positions;
    if run != [] {
      var a := run[0];
      var next := Next(t, a);
      HandleIsConsecutive(t.w, t.w.last.value, a.length, a.throwing, a.saved);
      assert Poll(t.w, a.length, a.throwing, a.saved).1 == Positions(t.w.last.value, next.w.last.value);
      StepKeepsInv(t, a);
      PollsHandleInOrder(next, run[1..]);
      PositionsJoin(t.w.last.value, next.w.last.value, Exec(t, run).w.last.value);
    }
  }

  /** A poll leaves the cursor on the transaction before the first one that throws. */
  lemma {:induction false} PollStopsAtThrow(w: Watcher, length: nat, throwing: set<nat>, saved: set<nat>)
    requires w.last.Some? && w.last.value <= length && length - w.last.value <= 50
    ensures var w' := Poll(w, length, throwing, saved).0;
            && w'.last.Some? && w.last.value <= w'.last.value <= length
            && (forall k :: w.last.value <= k < w'.last.value ==> k !in throwing)
            && (w'.last.value < length ==> w'.last.value in throwing)
  {
    hide Handle;
    HandleIsConsecutive(w, w.last.value, length, throwing, saved);
  }

  ghost predicate LeavesHole(reach: nat, w': Watcher, handled: seq<nat>) {
    w'.last.Some? && exists i :: reach <= i < w'.last.value && i !in handled
  }

  /**
   * A poll moves the cursor past transactions it never looked at exactly when more than 50 are waiting
   * and the oldest of the 50 it sees is handled. This holds of the cursor in memory and, when the
   * start-up fetch failed so that the saved cursor was not loaded, of the saved one.
   */
  lemma {:induction false} PollLeavesHoleExactly(w: Watcher, length: nat, throwing: set<nat>, saved: set<nat>)
    requires Reach(w).Some? && Reach(w).value <= length
    ensures var (w', handled) := Poll(w, length, throwing, saved);
            LeavesHole(Reach(w).value, w', handled) <==> length - Reach(w).value > 50 && length - 50 !in throwing
  {
    hide Handle;
    var k := Oldest(w.last, length);
    HandleIsConsecutive(w, k, length, throwing, saved);
    var (w', handled) := Poll(w, length, throwing, saved);
    var reach := Reach(w).value;
    if length - reach > 50 && length - 50 !in throwing {
      assert k == length - 50;
      assert reach !in handled;
    } else if w'.last.Some? && handled != [] {
      assert k !in throwing;
      assert k <= reach;
      forall i | reach <= i < w'.last.value ensures i in handled {
        assert handled[i - k] == i;
      }
    }
  }
}
