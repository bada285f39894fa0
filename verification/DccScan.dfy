/**
 * The block scan of the DecentralChain watcher: where it starts, how its cursor moves over
 * failed reads, failed saves, crashes and restarts, and which heights it can miss.
 */
module DccScan {
  import opened Options

  const SCAN_LAG_BLOCKS: int := 1
  const MAX_RESUME_GAP_BLOCKS: int := 1000

  /** `file` is the persisted cursor. */
  datatype Watcher = Watcher(seeded: bool, last: int, file: Option<int>)

  /** A cursor that can be picked up from at this tip. */
  predicate Resumes(file: Option<int>, tip: int) {
    file.Some? && 0 < file.value && tip - file.value <= MAX_RESUME_GAP_BLOCKS
  }

  function Save(w: Watcher, saves: bool): Watcher { if saves then w.(file := Some(w.last)) else w }

  function Seed(w: Watcher, tip: int, saves: bool): Watcher {
    Save(Watcher(true, if Resumes(w.file, tip) && w.file.value < tip then w.file.value else tip, w.file), saves)
  }

  /** Heights h, h + 1, … up to `safe`, until one cannot be read; with the heights that were. */
  function Scan(w: Watcher, h: int, safe: int, readable: set<int>, saved: set<int>): (Watcher, set<int>)
    decreases safe - h
  {
    if h > safe || h !in readable then (w, {})
    else
      var (w', read) := Scan(Save(w.(last := h), h in saved), h + 1, safe, readable, saved);
      (w', {h} + read)
  }

  function Poll(w: Watcher, tip: int, readable: set<int>, saved: set<int>): (Watcher, set<int>) {
    Scan(w, w.last + 1, tip - SCAN_LAG_BLOCKS, readable, saved)
  }

  class DccWatcher {
    var isSeeded: bool
    var lastProcessedHeight: int
    var cursorFile: Option<int>

    ghost function State(): Watcher
      reads this
    {
      Watcher(isSeeded, lastProcessedHeight, cursorFile)
    }

    constructor (cursorFile: Option<int>)
      ensures State() == Watcher(false, 0, cursorFile)
    {
      isSeeded := false;
      lastProcessedHeight := 0;
      this.cursorFile := cursorFile;
    }

    /** Best effort: `written` tells whether the write went through. */
    method SaveCursor(written: bool)
      modifies this`cursorFile
      ensures State() == Save(old(State()), written)
    {
      if written {
        cursorFile := Some(lastProcessedHeight);
      }
    }

    /** One successful attempt of `seedHeightThenPoll`. */
    method SeedHeight(tip: int, written: bool)
      modifies this
      ensures State() == Seed(old(State()), tip, written)
    {
      var resumed := if cursorFile.Some? && cursorFile.value > 0 then cursorFile else None;
      if resumed.Some? && resumed.value < tip && tip - resumed.value <= MAX_RESUME_GAP_BLOCKS {
        lastProcessedHeight := resumed.value;
      } else {
        lastProcessedHeight := tip;
      }
      isSeeded := true;
      SaveCursor(written);
    }

    /** One turn of `runPollLoop`: `readable` heights can be fetched this time, `saved` cursors written. */
    method RunPoll(tip: int, readable: set<int>, saved: set<int>) returns (read: set<int>)
      modifies this
      ensures (State(), read) == Poll(old(State()), tip, readable, saved)
    {
      read := {};
      var safeHeight := tip - SCAN_LAG_BLOCKS;
      if safeHeight > lastProcessedHeight {
        var h := lastProcessedHeight + 1;
        while h <= safeHeight
          invariant h == lastProcessedHeight + 1
          invariant Poll(old(State()), tip, readable, saved).0 == Scan(State(), h, safeHeight, readable, saved).0
          invariant Poll(old(State()), tip, readable, saved).1 == read + Scan(State(), h, safeHeight, readable, saved).1
          decreases safeHeight - h
        {
          var scanned := h in readable;
          if !scanned {
            break;
          }
          lastProcessedHeight := h;
          SaveCursor(h in saved);
          read := read + {h};
          h := h + 1;
        }
      }
    }
  }

  // --------------------------------------------------------------------------
  // Runs
  // --------------------------------------------------------------------------

  datatype Action =
    | DoSeed(tip: int, saves: bool)
    | DoPoll(tip: int, readable: set<int>, saved: set<int>)
    | DoCrash

  /** `first` is where the first seed put the cursor, `read` what was read since, `tip` the latest tip seen. */
  datatype Trace = Trace(w: Watcher, first: Option<int>, read: set<int>, tip: int)

  /** The chain tip never goes back. */
  predicate Enabled(t: Trace, a: Action) {
    match a
    case DoSeed(tip, _) => !t.w.seeded && tip >= t.tip
    case DoPoll(tip, _, _) => t.w.seeded && tip >= t.tip
    case DoCrash => true
  }

  function Next(t: Trace, a: Action): Trace {
    match a
    case DoSeed(tip, saves) =>
      var w := Seed(t.w, tip, saves);
      Trace(w, if t.first.None? then Some(w.last) else t.first, t.read, tip)
    case DoPoll(tip, readable, saved) =>
      var (w, read) := Poll(t.w, tip, readable, saved);
      Trace(w, t.first, t.read + read, tip)
    case DoCrash => t.(w := Watcher(false, 0, t.w.file))
  }

  predicate AllEnabled(t: Trace, run: seq<Action>)
    decreases run
  {
    run == [] || (Enabled(t, run[0]) && AllEnabled(Next(t, run[0]), run[1..]))
  }

  function Exec(t: Trace, run: seq<Action>): Trace
    decreases run
  {
    if run == [] then t else Exec(Next(t, run[0]), run[1..])
  }

  /** A restart that picks up the saved cursor, or the very first start. */
  predicate PicksUp(t: Trace, a: Action) {
    a.DoSeed? ==> t.first.None? || Resumes(t.w.file, a.tip)
  }

  predicate AlwaysPicksUp(t: Trace, run: seq<Action>)
    decreases run
  {
    run == [] || (PicksUp(t, run[0]) && AlwaysPicksUp(Next(t, run[0]), run[1..]))
  }

  /** First start ever, possibly finding a cursor of an earlier installation. */
  function Init(file: Option<int>, tip: int): Trace { Trace(Watcher(false, 0, file), None, {}, tip) }

  predicate CursorOk(t: Trace, cursor: int) { t.first.Some? && t.first.value <= cursor <= t.tip }

  predicate Inv(t: Trace) {
    && (t.w.seeded ==> CursorOk(t, t.w.last)) && (t.first.Some? ==> t.first.value <= t.tip)
    && (t.w.file.Some? ==> t.w.file.value <= t.tip) && (t.w.seeded && t.w.file.Some? ==> t.w.file.value <= t.w.last)
    && (t.w.file.Some? && t.first.Some? ==> CursorOk(t, t.w.file.value) || !Resumes(t.w.file, t.tip))
    && (t.first.None? ==> t.read == {})
    && (forall h <- t.read :: t.first.Some? && t.first.value < h <= t.tip - SCAN_LAG_BLOCKS)
  }

  /** Everything after the first seed up to the cursor, in memory or on disk, has been read. */
  predicate Covered(t: Trace) {
    && (t.w.seeded ==> forall h :: t.first.Some? && t.first.value < h <= t.w.last ==> h in t.read)
    && (t.w.file.Some? ==> forall h :: t.first.Some? && t.first.value < h <= t.w.file.value ==> h in t.read)
  }

  /** Where a start puts the cursor: on the saved one if it is behind the tip by at most 1000, else on the tip. */
  lemma SeedExactly(w: Watcher, tip: int, saves: bool)
    ensures var w' := Seed(w, tip, saves);
            && w'.seeded
            && w'.last == (if w.file.Some? && 0 < w.file.value < tip && tip - w.file.value <= 1000 then w.file.value
                           else tip)
            && w'.file == if saves then Some(w'.last) else w.file
  {}

  /**
   * What one poll does: it reads a contiguous stretch behind the cursor, up to one block below the tip or the first
   * height that cannot be read, moves to its end, and leaves the last of the cursors it could write.
   */
  lemma {:induction false} PollExactly(w: Watcher, tip: int, readable: set<int>, saved: set<int>)
    ensures var (w', read) := Poll(w, tip, readable, saved);
            && (w.last >= tip - 1 ==> w' == w && read == {})
            && (w.last < tip - 1 ==> w.last <= w'.last <= tip - 1)
            && (forall h :: h in read <==> w.last < h <= w'.last) && (forall h <- read :: h in readable)
            && (w'.last < tip - 1 ==> w'.last + 1 !in readable)
            && (w'.file == w.file || (w'.file.Some? && w'.file.value in saved))
            && (forall h :: w.last < h <= w'.last && h in saved ==> w'.file.Some? && w'.file.value >= h)
  {
    hide Scan;
    ScanReads(w, tip - SCAN_LAG_BLOCKS, readable, saved);
    var (w', read) := Poll(w, tip, readable, saved);
    if w.last >= tip - 1 {
      assert forall h :: h !in read;
      NothingToScan(w, tip, readable, saved);
    }
  }

  lemma NothingToScan(w: Watcher, tip: int, readable: set<int>, saved: set<int>)
    requires w.last >= tip - 1
    ensures Poll(w, tip, readable, saved) == (w, {})
  {}

  /** What one scan does: it reads a contiguous stretch behind the cursor and moves to its end. */
  lemma {:induction false} ScanReads(w: Watcher, safe: int, readable: set<int>, saved: set<int>)
    ensures var (w', read) := Scan(w, w.last + 1, safe, readable, saved);
            && w.last <= w'.last <= (if w.last < safe then safe else w.last)
            && (forall h :: h in read <==> w.last < h <= w'.last)
            && (forall h <- read :: h in readable)
            && (w'.last < safe ==> w'.last + 1 !in readable)
            && w'.seeded == w.seeded
            && (w'.file == w.file || (w'.file.Some? && w.last < w'.file.value <= w'.last && w'.file.value in saved))
            && (forall h :: w.last < h <= w'.last && h in saved ==> w'.file.Some? && w'.file.value >= h)
    decreases safe - w.last
  {
    if w.last + 1 <= safe && w.last + 1 in readable {
      ScanReads(Save(w.(last := w.last + 1), w.last + 1 in saved), safe, readable, saved);
    }
  }

  lemma {:induction false} StepKeepsInv(t: Trace, a: Action)
    requires Inv(t) && Enabled(t, a)
    ensures Inv(Next(t, a))
    ensures Covered(t) && PicksUp(t, a) ==> Covered(Next(t, a))
  {
    if a.DoPoll? {
      hide Scan;
      ScanReads(t.w, a.tip - SCAN_LAG_BLOCKS, a.readable, a.saved);
    }
  }

  /** The cursor stays between the first seed and the tip, and no scan ever reads the tip itself. */
  lemma {:induction false} ExecKeepsInv(t: Trace, run: seq<Action>)
    requires Inv(t) && AllEnabled(t, run)
    ensures Inv(Exec(t, run))
    ensures Covered(t) && AlwaysPicksUp(t, run) ==> Covered(Exec(t, run))
    decreases run
  {
    hide Inv, Covered, Next, Enabled, PicksUp;
    if run != [] {
      StepKeepsInv(t, run[0]);
      ExecKeepsInv(Next(t, run[0]), run[1..]);
    }
  }

  /**
   * If every restart finds a cursor at most 1000 blocks behind the tip, every height from the first
   * seed to the cursor has been read, whatever reads, saves and crashes did in between.
   */
  lemma {:induction false} NoHeightIsSkipped(file: Option<int>, tip: int, run: seq<Action>, h: int)
    requires file.Some? ==> file.value <= tip
    requires AllEnabled(Init(file, tip), run) && AlwaysPicksUp(Init(file, tip), run)
    ensures var t := Exec(Init(file, tip), run);
            t.w.seeded && t.first.Some? && t.first.value < h <= t.w.last ==> h in t.read && h <= t.tip - 1
  {
    hide Exec, AllEnabled, AlwaysPicksUp;
    ExecKeepsInv(Init(file, tip), run);
  }

  /** Neither the cursor of a living process nor the one on disk ever goes back, and a restart starts at the latter. */
  lemma {:induction false} CursorMovesForward(t: Trace, a: Action)
    requires Inv(t) && Enabled(t, a)
    ensures t.w.file.Some? ==> Next(t, a).w.file.Some? && Next(t, a).w.file.value >= t.w.file.value
    ensures t.w.seeded && !a.DoCrash? ==> Next(t, a).w.last >= t.w.last
    ensures a.DoSeed? && t.w.file.Some? ==> Next(t, a).w.last >= t.w.file.value
  {
    if a.DoPoll? {
      hide Scan;
      ScanReads(t.w, a.tip - SCAN_LAG_BLOCKS, a.readable, a.saved);
    }
  }

  // --------------------------------------------------------------------------
  // Exactly when heights are lost
  // --------------------------------------------------------------------------

  ghost predicate CanBeRead(t: Trace, h: int) {
    exists run :: ReadAfter(t, run, h)
  }

  ghost predicate ReadAfter(t: Trace, run: seq<Action>, h: int) { AllEnabled(t, run) && h in Exec(t, run).read }

  /** No cursor at or below which the watcher could ever be again lies under h. */
  predicate Passed(t: Trace, h: int) {
    && h <= t.tip && (t.w.seeded ==> h <= t.w.last)
    && (Resumes(t.w.file, t.tip) ==> h <= t.w.file.value)
  }

  lemma {:induction false} PassedStays(t: Trace, h: int, run: seq<Action>)
    requires Inv(t) && Passed(t, h) && h !in t.read && AllEnabled(t, run)
    ensures h !in Exec(t, run).read
    decreases run
  {
    hide Scan;
    if run != [] {
      var a := run[0];
      if a.DoPoll? {
        ScanReads(t.w, a.tip - SCAN_LAG_BLOCKS, a.readable, a.saved);
      }
      StepKeepsInv(t, a);
      PassedStays(Next(t, a), h, run[1..]);
    }
  }

  function HeightsAbove(from: int, end: int): (r: set<int>)
    ensures forall h :: h in r <==> from < h <= end
    decreases end - from
  {
    if from >= end then {} else {end} + HeightsAbove(from, end - 1)
  }

  /** One poll with a working node reads everything below the tip. */
  lemma {:induction false} FullPollReads(t: Trace, h: int)
    requires t.w.seeded && t.w.last < h <= t.tip
    ensures CanBeRead(t, h)
  {
    hide Scan;
    var readable := HeightsAbove(t.w.last, t.tip);
    var a := DoPoll(t.tip + 1, readable, {});
    ScanReads(t.w, t.tip, readable, {});
    var next := Next(t, a);
    assert next.w.last == t.tip && h in next.read;
    assert [a][1..] == [];
    assert AllEnabled(next, []) && Exec(next, []) == next;
    assert ReadAfter(t, [a], h);
  }

  /**
   * At a restart, a height up to the tip that has not been read yet can still be read by some
   * continuation exactly when the saved cursor is picked up; otherwise it is lost to the scan for good.
   */
  lemma {:induction false} RestartLosesHeightsExactly(t: Trace, a: Action, h: int)
    requires Inv(t) && Covered(t) && Enabled(t, a) && a.DoSeed? && t.first.Some?
    requires t.first.value < h <= a.tip && h !in t.read
    ensures CanBeRead(Next(t, a), h) <==> t.w.file.Some? && 0 < t.w.file.value && a.tip - t.w.file.value <= 1000
  {
    hide CanBeRead, Exec, AllEnabled;
    StepKeepsInv(t, a);
    if Resumes(t.w.file, a.tip) {
      assert Resumes(t.w.file, t.tip);
      FullPollReads(Next(t, a), h);
    } else {
      LostForGood(Next(t, a), h);
    }
  }

  lemma {:induction false} LostForGood(t: Trace, h: int)
    requires Inv(t) && Passed(t, h) && h !in t.read
    ensures !CanBeRead(t, h)
  {
    forall run | AllEnabled(t, run) ensures !ReadAfter(t, run, h) {
      PassedStays(t, h, run);
    }
  }
}
