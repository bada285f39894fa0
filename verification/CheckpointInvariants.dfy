/**
 * What holds of checkpoint windows in every interleaving of deposits, timers, closing
 * calls, starts and stops: no deposit is lost or duplicated among windows, closed windows
 * stay as they were closed, and proofs made later fold to the root fixed at closing. It also
 * shows that a deposit can be left in a window nothing will ever close.
 */
module CheckpointInvariants {
  import opened Bytes
  import opened Options
  import opened MerkleTree
  import opened Checkpoints

  // --------------------------------------------------------------------------
  // Runs
  // --------------------------------------------------------------------------

  datatype Action =
    | DoAdd(event: Event)
    | DoTimer(w: nat)
    | DoCloseFinish(w: nat)
    | DoStart
    | DoStartDone
    | DoStop
    | DoActivate(w: nat, checkpointId: nat)

  predicate Enabled(s: Service, a: Action) {
    match a
    case DoTimer(w) => w in s.armed && w in s.windows
    case DoCloseFinish(w) => w in s.closing
    case DoStartDone => s.starting > 0
    case DoActivate(w, _) => w in s.windows && s.windows[w].merkleRoot.Some?
    case _ => true
  }

  function Apply(s: Service, cfg: Config, a: Action): Service
    requires Enabled(s, a)
  {
    match a
    case DoAdd(e) => AddDeposit(s, cfg, e)
    case DoTimer(w) => TimerFires(s, cfg, w)
    case DoCloseFinish(w) => CloseFinish(s, w)
    case DoStart => Begin(s)
    case DoStartDone => BeginDone(s)
    case DoStop => Halt(s)
    case DoActivate(w, c) => Activate(s, w, c)
  }

  /** A deposit taken into slot `index` of window `w`. */
  datatype Taken = Taken(w: nat, index: nat, event: Event)

  /** The service together with the deposits it has taken, in order. */
  datatype Trace = Trace(s: Service, taken: seq<Taken>)

  function Takes(s: Service, cfg: Config, a: Action): seq<Taken> {
    if a.DoAdd? && s.running && MessageId(cfg, a.event).Some? then
      var s1 := Ready(s);
      [Taken(s1.current.value, |s1.windows[s1.current.value].events|, a.event)]
    else []
  }

  function Next(t: Trace, cfg: Config, a: Action): Trace
    requires Enabled(t.s, a)
  {
    Trace(Apply(t.s, cfg, a), t.taken + Takes(t.s, cfg, a))
  }

  predicate AllEnabled(t: Trace, cfg: Config, run: seq<Action>)
    decreases run
  {
    run == [] || (Enabled(t.s, run[0]) && AllEnabled(Next(t, cfg, run[0]), cfg, run[1..]))
  }

  function Exec(t: Trace, cfg: Config, run: seq<Action>): Trace
    requires AllEnabled(t, cfg, run)
    decreases run
  {
    if run == [] then t else Exec(Next(t, cfg, run[0]), cfg, run[1..])
  }

  // --------------------------------------------------------------------------
  // The invariant
  // --------------------------------------------------------------------------

  function Bound(cfg: Config): int { Max(1, MaxEvents(cfg)) }

  /** Ids belong to their events; a closed window has the root of its ids, an open one has room. */
  predicate WindowOk(cfg: Config, window: Window) {
    && |window.events| == |window.messageIds|
    && (forall i :: 0 <= i < |window.events| ==> MessageId(cfg, window.events[i]) == Some(window.messageIds[i]))
    && |window.events| <= Bound(cfg)
    && (!window.closed ==> |window.events| < Bound(cfg))
    && window.merkleRoot
       == (if window.closed && window.events != [] then Some(RootOf(cfg, window.messageIds)) else None)
    && (window.checkpointId.Some? ==> window.merkleRoot.Some?)
  }

  predicate Holds(s: Service, x: Taken) {
    x.w in s.windows && x.index < |s.windows[x.w].events| && s.windows[x.w].events[x.index] == x.event
  }

  /** The taken deposits and the slots of the windows correspond one to one. */
  predicate SlotsOk(t: Trace) {
    && (forall k :: 0 <= k < |t.taken| ==> Holds(t.s, t.taken[k]))
    && (forall j, k :: 0 <= j < k < |t.taken| ==> t.taken[j].w != t.taken[k].w || t.taken[j].index != t.taken[k].index)
    && (forall w, i {:trigger t.s.windows[w].events[i]} :: w in t.s.windows && 0 <= i < |t.s.windows[w].events| ==>
          Taken(w, i, t.s.windows[w].events[i]) in t.taken)
  }

  predicate RefsOk(s: Service) {
    && (s.current.Some? ==> s.current.value in s.windows)
    && (forall w <- s.windows :: w < s.nextId)
    && s.armed <= s.windows.Keys && s.closing <= s.windows.Keys
  }

  predicate WindowsOk(s: Service, cfg: Config) {
    forall w <- s.windows :: WindowOk(cfg, s.windows[w])
  }

  predicate Inv(t: Trace, cfg: Config) { RefsOk(t.s) && WindowsOk(t.s, cfg) && SlotsOk(t) }

  lemma OpenKeeps(s: Service, cfg: Config)
    requires RefsOk(s) && WindowsOk(s, cfg)
    ensures RefsOk(OpenNew(s)) && WindowsOk(OpenNew(s), cfg)
    ensures s.nextId !in s.windows
  {
    hide RootOf;
  }

  lemma CloseKeeps(s: Service, cfg: Config, w: nat)
    requires RefsOk(s) && w in s.windows
    requires forall v <- s.windows :: v != w ==> WindowOk(cfg, s.windows[v])
    requires var window := s.windows[w];
             || WindowOk(cfg, window)
             || (!window.closed && window.events != []
                 && WindowOk(cfg, window.(closed := true, merkleRoot := Some(RootOf(cfg, window.messageIds)))))
    ensures RefsOk(CloseStart(s, cfg, w)) && WindowsOk(CloseStart(s, cfg, w), cfg)
  {
    hide RootOf, MessageId;
    var window := s.windows[w];
    if !window.closed && window.events == [] {
      var s1 := ClearTimer(Put(s, w, window.(closed := true)));
      assert WindowOk(cfg, window.(closed := true));
      OpenKeeps(s1, cfg);
    } else if !window.closed {
      assert WindowOk(cfg, window.(closed := true, merkleRoot := Some(RootOf(cfg, window.messageIds))));
    }
  }

  lemma AddKeeps(s: Service, cfg: Config, e: Event)
    requires RefsOk(s) && WindowsOk(s, cfg)
    ensures RefsOk(AddDeposit(s, cfg, e)) && WindowsOk(AddDeposit(s, cfg, e), cfg)
  {
    hide RootOf, MessageId, CloseStart;
    OpenKeeps(s, cfg);
    var s1 := Ready(s);
    if s.running && MessageId(cfg, e).Some? {
      var w := s1.current.value;
      var id := MessageId(cfg, e).value;
      var window := Push(s1.windows[w], e, id);
      var s2 := Put(s1, w, window);
      PushedIdsMatch(cfg, s1.windows[w], e, id);
      if |window.events| >= MaxEvents(cfg) {
        assert WindowOk(cfg, window.(closed := true, merkleRoot := Some(RootOf(cfg, window.messageIds))));
        CloseKeeps(s2, cfg, w);
      } else {
        assert WindowOk(cfg, window);
      }
    }
  }

  lemma PushedIdsMatch(cfg: Config, window: Window, e: Event, id: Digest)
    requires WindowOk(cfg, window) && MessageId(cfg, e) == Some(id)
    ensures var p := Push(window, e, id);
            forall i :: 0 <= i < |p.events| ==> MessageId(cfg, p.events[i]) == Some(p.messageIds[i])
  {
    hide MessageId, RootOf;
  }

  lemma StepKeepsWindows(s: Service, cfg: Config, a: Action)
    requires RefsOk(s) && WindowsOk(s, cfg) && Enabled(s, a)
    ensures RefsOk(Apply(s, cfg, a)) && WindowsOk(Apply(s, cfg, a), cfg)
  {
    hide RootOf, MessageId, CloseStart, AddDeposit;
    match a
    case DoAdd(e) => AddKeeps(s, cfg, e);
    case DoTimer(w) =>
      var s1 := s.(armed := s.armed - {w});
      OpenKeeps(s1, cfg);
      CloseKeeps(s1, cfg, w);
    case DoCloseFinish(w) => OpenKeeps(s.(closing := s.closing - {w}), cfg);
    case DoStart =>
    case DoStartDone => OpenKeeps(s.(starting := s.starting - 1), cfg);
    case DoStop =>
    case DoActivate(w, c) => assert WindowOk(cfg, s.windows[w].(checkpointId := Some(c)));
  }

  // --------------------------------------------------------------------------
  // Slots
  // --------------------------------------------------------------------------

  /** s' has the windows of s, with the same events, and possibly a new empty one. */
  predicate SameEvents(s: Service, s': Service) {
    && (forall w <- s.windows :: w in s'.windows && s'.windows[w].events == s.windows[w].events)
    && (forall w <- s'.windows :: w !in s.windows ==> s'.windows[w].events == [])
  }

  lemma CloseSameEvents(s: Service, cfg: Config, w: nat)
    requires RefsOk(s) && w in s.windows
    ensures SameEvents(s, CloseStart(s, cfg, w))
  {
    hide RootOf;
  }

  lemma SlotsTransfer(t: Trace, s': Service)
    requires SlotsOk(t) && SameEvents(t.s, s')
    ensures SlotsOk(Trace(s', t.taken))
  {
    forall k | 0 <= k < |t.taken| ensures Holds(s', t.taken[k]) {
      assert Holds(t.s, t.taken[k]);
    }
  }

  lemma PushKeepsSlots(t: Trace, w: nat, e: Event, id: Digest)
    requires SlotsOk(t) && w in t.s.windows
    ensures SlotsOk(Trace(Put(t.s, w, Push(t.s.windows[w], e, id)), t.taken + [Taken(w, |t.s.windows[w].events|, e)]))
  {
    var s' := Put(t.s, w, Push(t.s.windows[w], e, id));
    var x := Taken(w, |t.s.windows[w].events|, e);
    var taken' := t.taken + [x];
    assert taken'[|t.taken|] == x;
    forall k | 0 <= k < |taken'| ensures Holds(s', taken'[k]) {
      if k < |t.taken| {
        assert Holds(t.s, t.taken[k]);
      }
    }
    forall j, k | 0 <= j < k < |taken'| ensures taken'[j].w != taken'[k].w || taken'[j].index != taken'[k].index {
      assert Holds(t.s, t.taken[j]);
    }
    forall v, i | v in s'.windows && 0 <= i < |s'.windows[v].events|
      ensures Taken(v, i, s'.windows[v].events[i]) in taken'
    {
      if v != w || i < |t.s.windows[w].events| {
        assert Taken(v, i, t.s.windows[v].events[i]) in t.taken;
      }
    }
  }

  lemma AddKeepsSlots(t: Trace, cfg: Config, e: Event)
    requires RefsOk(t.s) && SlotsOk(t)
    ensures SlotsOk(Next(t, cfg, DoAdd(e)))
  {
    hide MessageId, SlotsOk, CloseStart, Push;
    assert t.taken + [] == t.taken;
    var s1 := Ready(t.s);
    SlotsTransfer(t, s1);
    if t.s.running && MessageId(cfg, e).Some? {
      var w := s1.current.value;
      var id := MessageId(cfg, e).value;
      var s2 := Put(s1, w, Push(s1.windows[w], e, id));
      PushKeepsSlots(Trace(s1, t.taken), w, e, id);
      CloseSameEvents(s2, cfg, w);
      SlotsTransfer(Trace(s2, t.taken + Takes(t.s, cfg, DoAdd(e))), CloseStart(s2, cfg, w));
    }
  }

  lemma StepKeepsSlots(t: Trace, cfg: Config, a: Action)
    requires RefsOk(t.s) && SlotsOk(t) && Enabled(t.s, a)
    ensures SlotsOk(Next(t, cfg, a))
  {
    hide MessageId, SlotsOk, AddDeposit, CloseStart;
    if a.DoAdd? {
      AddKeepsSlots(t, cfg, a.event);
    } else {
      assert t.taken + [] == t.taken;
      if a.DoTimer? {
        CloseSameEvents(t.s.(armed := t.s.armed - {a.w}), cfg, a.w);
      }
      SlotsTransfer(t, Apply(t.s, cfg, a));
    }
  }

  /** Ids, roots, bounds and the one-to-one placement of deposits hold after every run. */
  lemma {:induction false} ExecKeepsInv(t: Trace, cfg: Config, run: seq<Action>)
    requires Inv(t, cfg) && AllEnabled(t, cfg, run)
    ensures Inv(Exec(t, cfg, run), cfg)
    decreases run
  {
    hide RefsOk, WindowsOk, SlotsOk, Apply, Takes;
    if run != [] {
      StepKeepsWindows(t.s, cfg, run[0]);
      StepKeepsSlots(t, cfg, run[0]);
      ExecKeepsInv(Next(t, cfg, run[0]), cfg, run[1..]);
    }
  }

  lemma InitInv(cfg: Config)
    ensures Inv(Trace(InitialService(), []), cfg)
  {}

  // --------------------------------------------------------------------------
  // Closed windows
  // --------------------------------------------------------------------------

  predicate Frozen(s: Service, s': Service, w: nat) {
    && w in s.windows && s.windows[w].closed && w in s'.windows
    && s'.windows[w].(checkpointId := None) == s.windows[w].(checkpointId := None)
  }

  lemma StepFreezes(s: Service, cfg: Config, a: Action, w: nat)
    requires RefsOk(s) && Enabled(s, a) && w in s.windows && s.windows[w].closed
    ensures Frozen(s, Apply(s, cfg, a), w)
  {
    hide RootOf, MessageId;
  }

  /** A closed window keeps its events, its ids, their order and its root for ever. */
  lemma {:induction false} ClosedStaysFrozen(t: Trace, cfg: Config, run: seq<Action>, w: nat)
    requires Inv(t, cfg) && AllEnabled(t, cfg, run) && w in t.s.windows && t.s.windows[w].closed
    ensures Frozen(t.s, Exec(t, cfg, run).s, w)
    decreases run
  {
    hide RefsOk, WindowsOk, SlotsOk, Apply, Takes;
    if run != [] {
      StepFreezes(t.s, cfg, run[0], w);
      StepKeepsWindows(t.s, cfg, run[0]);
      StepKeepsSlots(t, cfg, run[0]);
      ClosedStaysFrozen(Next(t, cfg, run[0]), cfg, run[1..], w);
    }
  }

  /**
   * However long after closing, the proof computed for an event of the window leads from the
   * leaf of that event's own id to the root that was fixed when the window closed.
   */
  lemma {:induction false} LateProofsFoldToFixedRoot(t: Trace, cfg: Config, run: seq<Action>, w: nat, i: nat,
                                                     siblings: seq<bytes>, path: seq<int>)
    requires Inv(t, cfg) && AllEnabled(t, cfg, run) && w in t.s.windows && t.s.windows[w].closed
    requires i < |t.s.windows[w].events| && i < Pow2(TREE_DEPTH)
    requires w in Exec(t, cfg, run).s.windows
    requires IsProof(cfg.h, Exec(t, cfg, run).s.windows[w].messageIds, VALIDATOR_PAD, TREE_DEPTH, i, siblings, path)
    ensures MessageId(cfg, t.s.windows[w].events[i]).Some? && t.s.windows[w].merkleRoot.Some?
    ensures Fold(cfg.h, cfg.h([0] + MessageId(cfg, t.s.windows[w].events[i]).value), siblings, path, TREE_DEPTH)
         == Some(t.s.windows[w].merkleRoot.value)
  {
    hide Fold, IsProof, AllEnabled, Exec, MessageId, RefsOk, SlotsOk, Pow2, Node;
    ClosedStaysFrozen(t, cfg, run, w);
    var ids := t.s.windows[w].messageIds;
    ProofFoldsToRoot(cfg.h, ids, VALIDATOR_PAD, TREE_DEPTH, i, siblings, path);
    LeafNode(cfg.h, ids, VALIDATOR_PAD, i);
  }

  // --------------------------------------------------------------------------
  // Windows that nothing will close
  // --------------------------------------------------------------------------

  /** Open, with deposits, but no longer current. */
  predicate Orphan(s: Service, w: nat) {
    w in s.windows && !s.windows[w].closed && s.windows[w].events != [] && s.current != Some(w)
  }

  lemma StrandedStep(s: Service, cfg: Config, a: Action, w: nat)
    requires RefsOk(s) && Enabled(s, a) && Orphan(s, w) && w !in s.armed
    requires a.DoActivate? ==> a.w != w
    ensures Orphan(Apply(s, cfg, a), w) && w !in Apply(s, cfg, a).armed
  {
    hide RootOf, MessageId;
  }

  lemma {:induction false} StrandedForever(t: Trace, cfg: Config, run: seq<Action>, w: nat)
    requires Inv(t, cfg) && AllEnabled(t, cfg, run) && Orphan(t.s, w) && w !in t.s.armed
    ensures Orphan(Exec(t, cfg, run).s, w)
    decreases run
  {
    hide RefsOk, SlotsOk, Apply, Takes, Orphan;
    if run != [] {
      OpenHasNoRoot(t, cfg, w);
      StrandedStep(t.s, cfg, run[0], w);
      StepKeepsWindows(t.s, cfg, run[0]);
      StepKeepsSlots(t, cfg, run[0]);
      StrandedForever(Next(t, cfg, run[0]), cfg, run[1..], w);
    }
  }

  lemma OpenHasNoRoot(t: Trace, cfg: Config, w: nat)
    requires Inv(t, cfg) && Orphan(t.s, w)
    ensures w in t.s.windows && t.s.windows[w].merkleRoot == None
  {}

  ghost predicate CanClose(t: Trace, cfg: Config, w: nat) {
    exists run :: ClosesAfter(t, cfg, run, w)
  }

  ghost predicate ClosesAfter(t: Trace, cfg: Config, run: seq<Action>, w: nat) {
    AllEnabled(t, cfg, run) && w in Exec(t, cfg, run).s.windows && Exec(t, cfg, run).s.windows[w].closed
  }

  lemma {:induction false} RunOne(t: Trace, cfg: Config, a: Action, rest: seq<Action>)
    requires Enabled(t.s, a) && AllEnabled(Next(t, cfg, a), cfg, rest)
    ensures AllEnabled(t, cfg, [a] + rest) && Exec(t, cfg, [a] + rest) == Exec(Next(t, cfg, a), cfg, rest)
  {
    hide Next, Enabled;
    assert ([a] + rest)[1..] == rest;
  }

  lemma RunNone(t: Trace, cfg: Config)
    ensures AllEnabled(t, cfg, []) && Exec(t, cfg, []) == t
  {}

  lemma TimerCloses(t: Trace, cfg: Config, w: nat)
    requires Inv(t, cfg) && Orphan(t.s, w) && w in t.s.armed
    ensures Enabled(t.s, DoTimer(w))
    ensures w in Next(t, cfg, DoTimer(w)).s.windows && Next(t, cfg, DoTimer(w)).s.windows[w].closed
  {
    hide RootOf, SlotsOk, WindowsOk;
  }

  lemma {:induction false} OwnTimerCloses(t: Trace, cfg: Config, w: nat)
    requires Inv(t, cfg) && Orphan(t.s, w) && w in t.s.armed
    ensures CanClose(t, cfg, w)
  {
    hide Enabled, Next, Inv, Orphan, AllEnabled, Exec;
    TimerCloses(t, cfg, w);
    var next := Next(t, cfg, DoTimer(w));
    var run := [DoTimer(w)] + [];
    RunNone(next, cfg);
    RunOne(t, cfg, DoTimer(w), []);
    assert ClosesAfter(t, cfg, run, w);
  }

  lemma {:induction false} NothingElseCloses(t: Trace, cfg: Config, w: nat)
    requires Inv(t, cfg) && Orphan(t.s, w) && w !in t.s.armed
    ensures !CanClose(t, cfg, w)
  {
    hide Inv, AllEnabled, Exec;
    forall run | AllEnabled(t, cfg, run) ensures !ClosesAfter(t, cfg, run, w) {
      StrandedForever(t, cfg, run, w);
    }
  }

  /** A window that is no longer current can still be closed exactly when its own timer is scheduled. */
  lemma {:induction false} OrphanClosesOnlyByItsTimer(t: Trace, cfg: Config, w: nat)
    requires Inv(t, cfg) && Orphan(t.s, w)
    ensures CanClose(t, cfg, w) <==> w in t.s.armed
  {
    hide *;
    if w in t.s.armed {
      OwnTimerCloses(t, cfg, w);
    } else {
      NothingElseCloses(t, cfg, w);
    }
  }

  /** An open window with deposits. */
  predicate OpenWithDeposits(s: Service, w: nat) {
    w in s.windows && !s.windows[w].closed && s.windows[w].events != []
  }

  lemma {:induction false} CloseLater(t: Trace, cfg: Config, a: Action, w: nat)
    requires Enabled(t.s, a) && CanClose(Next(t, cfg, a), cfg, w)
    ensures CanClose(t, cfg, w)
  {
    hide Enabled, Next, AllEnabled, Exec;
    var rest :| ClosesAfter(Next(t, cfg, a), cfg, rest, w);
    RunOne(t, cfg, a, rest);
    assert ClosesAfter(t, cfg, [a] + rest, w);
  }

  lemma {:induction false} ClosedNow(t: Trace, cfg: Config, w: nat)
    requires w in t.s.windows && t.s.windows[w].closed
    ensures CanClose(t, cfg, w)
  {
    RunNone(t, cfg);
    assert ClosesAfter(t, cfg, [], w);
  }

  /** The first deposit of a window, added again, fills it further or closes it. */
  lemma {:induction false} AddToCurrent(s: Service, cfg: Config, w: nat)
    requires WindowsOk(s, cfg) && OpenWithDeposits(s, w) && s.current == Some(w) && s.running
    ensures var s' := AddDeposit(s, cfg, s.windows[w].events[0]);
            && w in s'.windows
            && (s'.windows[w].closed
                || (OpenWithDeposits(s', w) && s'.current == Some(w) && s'.running
                    && |s'.windows[w].events| == |s.windows[w].events| + 1))
  {
    hide RootOf, MessageId;
    assert WindowOk(cfg, s.windows[w]);
  }

  lemma {:induction false} CurrentCanFill(t: Trace, cfg: Config, w: nat)
    requires Inv(t, cfg) && OpenWithDeposits(t.s, w) && t.s.current == Some(w) && t.s.running
    ensures CanClose(t, cfg, w)
    decreases Bound(cfg) - |t.s.windows[w].events|
  {
    hide RefsOk, SlotsOk, WindowOk, AddDeposit, Takes, CanClose, MessageId;
    var a := DoAdd(t.s.windows[w].events[0]);
    var next := Next(t, cfg, a);
    RoomLeft(t, cfg, w);
    AddToCurrent(t.s, cfg, w);
    StepKeepsWindows(t.s, cfg, a);
    StepKeepsSlots(t, cfg, a);
    if next.s.windows[w].closed {
      ClosedNow(next, cfg, w);
    } else {
      CurrentCanFill(next, cfg, w);
    }
    CloseLater(t, cfg, a, w);
  }

  lemma RoomLeft(t: Trace, cfg: Config, w: nat)
    requires Inv(t, cfg) && OpenWithDeposits(t.s, w)
    ensures |t.s.windows[w].events| < Bound(cfg)
  {}

  lemma {:induction false} CurrentCanClose(t: Trace, cfg: Config, w: nat)
    requires Inv(t, cfg) && OpenWithDeposits(t.s, w) && t.s.current == Some(w)
    ensures CanClose(t, cfg, w)
  {
    hide RefsOk, WindowsOk, SlotsOk, Takes, CanClose;
    if t.s.running {
      CurrentCanFill(t, cfg, w);
    } else {
      StepKeepsWindows(t.s, cfg, DoStart);
      StepKeepsSlots(t, cfg, DoStart);
      CurrentCanFill(Next(t, cfg, DoStart), cfg, w);
      CloseLater(t, cfg, DoStart, w);
    }
  }

  /** An open window with deposits can still be closed exactly when it is current or its own timer is scheduled. */
  lemma {:induction false} OpenWindowClosesExactly(t: Trace, cfg: Config, w: nat)
    requires Inv(t, cfg) && OpenWithDeposits(t.s, w)
    ensures CanClose(t, cfg, w) <==> t.s.current == Some(w) || w in t.s.armed
  {
    hide Inv, CanClose;
    if t.s.current == Some(w) {
      CurrentCanClose(t, cfg, w);
    } else {
      OrphanClosesOnlyByItsTimer(t, cfg, w);
    }
  }

  lemma {:induction false} RunsJoin(t: Trace, cfg: Config, a: seq<Action>, b: seq<Action>)
    requires AllEnabled(t, cfg, a) && AllEnabled(Exec(t, cfg, a), cfg, b)
    ensures AllEnabled(t, cfg, a + b) && Exec(t, cfg, a + b) == Exec(Exec(t, cfg, a), cfg, b)
    decreases a
  {
    hide Next, Enabled;
    if a == [] {
      assert a + b == b;
    } else {
      assert (a + b)[1..] == a[1..] + b;
      RunsJoin(Next(t, cfg, a[0]), cfg, a[1..], b);
    }
  }

  lemma AddToOpen(s: Service, cfg: Config, e: Event)
    requires s.running && s.current.Some? && s.current.value in s.windows && s.windows[s.current.value] == NEW_WINDOW
    requires MessageId(cfg, e).Some? && MaxEvents(cfg) >= 2
    ensures AddDeposit(s, cfg, e) == Put(s, s.current.value, Push(NEW_WINDOW, e, MessageId(cfg, e).value))
  {
    hide MessageId, CloseStart;
  }

  lemma AddAfterClosed(s: Service, cfg: Config, e: Event)
    requires s.running && s.current.Some? && s.current.value in s.windows && s.windows[s.current.value].closed
    requires MessageId(cfg, e).Some? && MaxEvents(cfg) >= 2
    ensures AddDeposit(s, cfg, e) == Put(OpenNew(s), s.nextId, Push(NEW_WINDOW, e, MessageId(cfg, e).value))
  {
    hide MessageId, CloseStart;
    AddToOpen(OpenNew(s), cfg, e);
  }

  lemma TimerClosesFull(s: Service, cfg: Config, w: nat)
    requires w in s.windows && !s.windows[w].closed && s.windows[w].events != []
    ensures var done := s.windows[w].(closed := true, merkleRoot := Some(RootOf(cfg, s.windows[w].messageIds)));
            TimerFires(s, cfg, w) == ClearTimer(Put(s.(armed := s.armed - {w}), w, done)).(closing := s.closing + {w})
  {
    hide RootOf;
  }

  lemma {:induction false} RunFive(t0: Trace, cfg: Config, a: Action, b: Action, c: Action, d: Action, e: Action)
    requires Enabled(t0.s, a)
    requires var t1 := Next(t0, cfg, a);
             && Enabled(t1.s, b) && var t2 := Next(t1, cfg, b);
             && Enabled(t2.s, c) && var t3 := Next(t2, cfg, c);
             && Enabled(t3.s, d) && Enabled(Next(t3, cfg, d).s, e)
    ensures AllEnabled(t0, cfg, [a, b, c, d, e])
    ensures Exec(t0, cfg, [a, b, c, d, e]) == Next(Next(Next(Next(Next(t0, cfg, a), cfg, b), cfg, c), cfg, d), cfg, e)
  {
    hide Enabled, Next, AllEnabled, Exec;
    var t1 := Next(t0, cfg, a);
    var t2 := Next(t1, cfg, b);
    var t3 := Next(t2, cfg, c);
    var t4 := Next(t3, cfg, d);
    RunNone(Next(t4, cfg, e), cfg);
    RunOne(t4, cfg, e, []);
    RunOne(t3, cfg, d, [e] + []);
    RunOne(t2, cfg, c, [d] + ([e] + []));
    RunOne(t1, cfg, b, [c] + ([d] + ([e] + [])));
    RunOne(t0, cfg, a, [b] + ([c] + ([d] + ([e] + []))));
    assert [a, b, c, d, e] == [a] + ([b] + ([c] + ([d] + ([e] + []))));
  }

  /** Window 1 is open with a deposit and its timer is set, while the closing call of window 0 waits. */
  predicate HalfWay(s: Service) {
    && s.running && s.current == Some(1) && s.nextId == 2 && s.timer == Some(1) && s.armed == {1} && s.closing == {0}
    && 1 in s.windows && !s.windows[1].closed && s.windows[1].events != []
  }

  function FirstHalf(d0: Event, d1: Event): seq<Action> { [DoStart, DoStartDone, DoAdd(d0), DoTimer(0), DoAdd(d1)] }
  function SecondHalf(d2: Event): seq<Action> { [DoCloseFinish(0), DoTimer(1), DoAdd(d2), DoCloseFinish(1)] }

  function Started(): Service { Service(map[0 := NEW_WINDOW], Some(0), 1, Some(0), {0}, {}, 0, true) }

  lemma StartedFirst(cfg: Config)
    ensures var t1 := Next(Trace(InitialService(), []), cfg, DoStart);
            Enabled(t1.s, DoStartDone) && Next(t1, cfg, DoStartDone).s == Started()
  {}

  /** Window 0 closed by its timer with the closing call waiting. */
  predicate FirstClosed(s: Service) {
    && s.running && s.current == Some(0) && s.nextId == 1 && s.armed == {} && s.closing == {0}
    && 0 in s.windows && s.windows[0].closed
  }

  lemma FirstTimer(cfg: Config, d0: Event)
    requires MaxEvents(cfg) >= 2 && MessageId(cfg, d0).Some?
    ensures var s := AddDeposit(Started(), cfg, d0);
            Enabled(s, DoTimer(0)) && FirstClosed(TimerFires(s, cfg, 0))
  {
    hide MessageId, RootOf, AddDeposit, TimerFires;
    AddToOpen(Started(), cfg, d0);
    TimerClosesFull(AddDeposit(Started(), cfg, d0), cfg, 0);
  }

  lemma SecondDeposit(s: Service, cfg: Config, d1: Event)
    requires FirstClosed(s) && MaxEvents(cfg) >= 2 && MessageId(cfg, d1).Some?
    ensures HalfWay(AddDeposit(s, cfg, d1))
  {
    hide MessageId, AddDeposit;
    AddAfterClosed(s, cfg, d1);
  }

  lemma {:induction false} ReachHalfWay(cfg: Config, d0: Event, d1: Event)
    requires MaxEvents(cfg) >= 2 && MessageId(cfg, d0).Some? && MessageId(cfg, d1).Some?
    ensures var t0 := Trace(InitialService(), []);
            AllEnabled(t0, cfg, FirstHalf(d0, d1)) && HalfWay(Exec(t0, cfg, FirstHalf(d0, d1)).s)
  {
    hide MessageId, AllEnabled, Exec, Takes, AddDeposit, TimerFires, FirstClosed, HalfWay, Started;
    StartedFirst(cfg);
    FirstTimer(cfg, d0);
    SecondDeposit(TimerFires(AddDeposit(Started(), cfg, d0), cfg, 0), cfg, d1);
    RunFive(Trace(InitialService(), []), cfg, DoStart, DoStartDone, DoAdd(d0), DoTimer(0), DoAdd(d1));
  }

  lemma {:induction false} StrandFromHalfWay(t: Trace, cfg: Config, d2: Event)
    requires HalfWay(t.s) && MaxEvents(cfg) >= 2 && MessageId(cfg, d2).Some?
    ensures AllEnabled(t, cfg, SecondHalf(d2))
    ensures var t' := Exec(t, cfg, SecondHalf(d2)); Taken(2, 0, d2) in t'.taken && Orphan(t'.s, 2) && 2 !in t'.s.armed
  {
    hide MessageId, RootOf, AllEnabled, Exec, AddDeposit, TimerFires;
    var t6 := Next(t, cfg, DoCloseFinish(0));
    TimerClosesFull(t6.s, cfg, 1);
    var t7 := Next(t6, cfg, DoTimer(1));
    AddToOpen(t7.s, cfg, d2);
    var t8 := Next(t7, cfg, DoAdd(d2));
    assert Takes(t7.s, cfg, DoAdd(d2)) == [Taken(2, 0, d2)];
    assert t8.taken[|t7.taken|] == Taken(2, 0, d2);
    var t9 := Next(t8, cfg, DoCloseFinish(1));
    assert t9.taken == t8.taken;
    RunNone(t9, cfg);
    RunOne(t8, cfg, DoCloseFinish(1), []);
    RunOne(t7, cfg, DoAdd(d2), [DoCloseFinish(1)] + []);
    RunOne(t6, cfg, DoTimer(1), [DoAdd(d2)] + ([DoCloseFinish(1)] + []));
    RunOne(t, cfg, DoCloseFinish(0), [DoTimer(1)] + ([DoAdd(d2)] + ([DoCloseFinish(1)] + [])));
    assert SecondHalf(d2) == [DoCloseFinish(0)] + ([DoTimer(1)] + ([DoAdd(d2)] + ([DoCloseFinish(1)] + [])));
  }

  /**
   * Three ordinary deposits and two timers suffice to lose one: the closing call of window 0
   * opens window 2 over window 1, the timer of window 1 then cancels the timer of window 2,
   * and the closing call of window 1 opens window 3 over window 2, which nothing can close any more.
   */
  lemma {:induction false} DepositCanBeStranded(cfg: Config, d0: Event, d1: Event, d2: Event)
    requires MaxEvents(cfg) >= 2
    requires MessageId(cfg, d0).Some? && MessageId(cfg, d1).Some? && MessageId(cfg, d2).Some?
    ensures var t0, run := Trace(InitialService(), []), FirstHalf(d0, d1) + SecondHalf(d2);
            && AllEnabled(t0, cfg, run)
            && Taken(2, 0, d2) in Exec(t0, cfg, run).taken && Orphan(Exec(t0, cfg, run).s, 2)
             && !CanClose(Exec(t0, cfg, run), cfg, 2)
  {
    hide *;
    var t0 := Trace(InitialService(), []);
    InitInv(cfg);
    ReachHalfWay(cfg, d0, d1);
    StrandFromHalfWay(Exec(t0, cfg, FirstHalf(d0, d1)), cfg, d2);
    RunsJoin(t0, cfg, FirstHalf(d0, d1), SecondHalf(d2));
    var run := FirstHalf(d0, d1) + SecondHalf(d2);
    ExecKeepsInv(t0, cfg, run);
    NothingElseCloses(Exec(t0, cfg, run), cfg, 2);
  }
}
