/**
 * The life of a round: exactly which votes are counted, what counting one does, that open
 * rounds are always timed, and how a round can end.
 */
module EngineRounds {
  import opened Bytes
  import opened Options
  import opened ConsensusEngine
  import opened EngineInvariants
  import ProcessedSet

  /** The round that a received vote is for. */
  predicate IsOpen(e: Engine, id: string) { id in e.pending && !e.pending[id].resolved }

  predicate HasVoted(round: Round, publicKey: bytes) {
    exists k :: 0 <= k < |round.attestations| && round.attestations[k].publicKey == publicKey
  }

  /**
   * Exactly the votes that change anything: complete, from a listed key (or there is no list), bound to
   * that key, verified in their own scheme, and over the message of an open round in which the key has
   * not voted. The separate test for repeated node ids refuses nothing more.
   */
  lemma {:induction false} CountedExactly(e: Engine, cfg: Config, r: Received)
    requires Inv(e, cfg)
    ensures Receive(e, cfg, r) != e <==>
            && r.publicKey.Some? && r.signature.Some? && r.messageHash.Some?
            && (e.whitelist == {} || Hex(r.publicKey.value) in e.whitelist)
            && r.nodeId == Hex(r.publicKey.value)
            && cfg.verify(r.kind, r.publicKey.value, r.messageHash.value, r.signature.value)
            && IsOpen(e, r.transferId)
            && !HasVoted(e.pending[r.transferId], r.publicKey.value)
            && e.pending[r.transferId].message == r.messageHash.value
  {
    hide Canonical, OutcomeOk, LogOk, Linked, RequiredFor;
    if Admits(e, cfg, r) && IsOpen(e, r.transferId) {
      var round := e.pending[r.transferId];
      NodeIdsFollowKeys(e, cfg, r.transferId, r.publicKey.value);
      if Countable(round, r) {
        CountingChanges(e, cfg, r);
      }
    }
  }

  lemma {:induction false} NodeIdsFollowKeys(e: Engine, cfg: Config, id: string, publicKey: bytes)
    requires Inv(e, cfg) && id in e.pending
    ensures (exists k :: 0 <= k < |e.pending[id].attestations|
                         && e.pending[id].attestations[k].nodeId == Hex(publicKey))
       <==> HasVoted(e.pending[id], publicKey)
  {
    hide Canonical, OutcomeOk, LogOk, Linked, RequiredFor, Hex;
    var votes := e.pending[id].attestations;
    assert RoundOk(cfg, id, e.pending[id]);
    forall k | 0 <= k < |votes| ensures votes[k].nodeId == Hex(publicKey) <==> votes[k].publicKey == publicKey {
      HexInjective(votes[k].publicKey, publicKey);
    }
  }

  lemma CountingChanges(e: Engine, cfg: Config, r: Received)
    requires Admits(e, cfg, r) && r.transferId in e.pending && Countable(e.pending[r.transferId], r)
    ensures Receive(e, cfg, r) != e
  {
    hide EvictOldest, RequiredFor;
    var counted := Counted(e.pending[r.transferId], r);
    assert |counted.attestations| == |e.pending[r.transferId].attestations| + 1;
    var e' := e.(pending := e.pending[r.transferId := counted]);
    assert e'.pending[r.transferId] == counted;
    assert |CheckConsensus(e', cfg, r.transferId).log| > |e.log| || CheckConsensus(e', cfg, r.transferId) == e';
  }

  predicate SameAt(pending: map<string, Round>, pending': map<string, Round>, id: string) {
    (id in pending' <==> id in pending) && (id in pending ==> pending'[id] == pending[id])
  }

  /**
   * What counting a vote does: below the threshold the round holds one vote more and nothing is emitted;
   * at the threshold the round is gone, and exactly one success is emitted, with all its votes in order.
   */
  lemma {:induction false} VoteEffect(e: Engine, cfg: Config, r: Received)
    requires Inv(e, cfg) && |e.processed| <= 100_000 && Receive(e, cfg, r) != e
    ensures IsOpen(e, r.transferId) && r.publicKey.Some? && r.signature.Some? && r.messageHash.Some?
    ensures var (id, round, e') := (r.transferId, e.pending[r.transferId], Receive(e, cfg, r));
            var votes := round.attestations +
                        [Attestation(r.nodeId, id, r.kind, r.signature.value, r.publicKey.value, r.messageHash.value)];
            var required := RequiredFor(cfg, round.request.Kind());
            && AsksFor(cfg, round.request, required)
            && (forall other :: other != id ==> SameAt(e.pending, e'.pending, other))
            && e'.processed == e.processed && e'.whitelist == e.whitelist && e'.serials == e.serials
            && if |votes| < required
               then e'.log == e.log && id in e'.pending && e'.pending[id] == round.(attestations := votes)
                    && e'.timers == e.timers && e'.disk == e.disk
               else e'.log == e.log
                              + [Resolved(Outcome(true, round.serial, round.request, round.message, votes, required))]
                    && id !in e'.pending && e'.disk == (if e.writable then e.processed else e.disk)
                    && e'.timers == e.timers + multiset{CleanupTimer(id)}
  {
    hide Inv, Canonical;
  }

  // --------------------------------------------------------------------------
  // Timers
  // --------------------------------------------------------------------------

  /** An open round has a timeout scheduled, a failed one its removal. */
  predicate Timed(e: Engine) { forall id :: id in e.pending ==> TimedAt(e, id) }

  predicate TimedAt(e: Engine, id: string)
    requires id in e.pending
  {
    if e.pending[id].resolved then CleanupTimer(id) in e.timers else TimeoutTimer(id) in e.timers
  }

  lemma CheckKeepsTimed(e: Engine, cfg: Config, id: string)
    requires forall other :: other in e.pending && other != id ==> TimedAt(e, other)
    ensures forall other :: other in CheckConsensus(e, cfg, id).pending && other != id ==>
            TimedAt(CheckConsensus(e, cfg, id), other)
    ensures id in CheckConsensus(e, cfg, id).pending ==> id in e.pending && CheckConsensus(e, cfg, id) == e
  {
    hide RequiredFor, EvictOldest, Persist;
  }

  lemma {:induction false} FinishKeepsTimed(e: Engine, cfg: Config, p: Proposal, signature: bytes, publicKey: bytes)
    requires Timed(e)
    ensures Timed(Finish(e, cfg, p, signature, publicKey))
  {
    hide CheckConsensus;
    CheckKeepsTimed(Open(e, p, signature, publicKey), cfg, p.request.transferId);
  }

  lemma {:induction false} ReceiveKeepsTimed(e: Engine, cfg: Config, r: Received)
    requires Timed(e)
    ensures Timed(Receive(e, cfg, r))
  {
    hide CheckConsensus;
    if Admits(e, cfg, r) && r.transferId in e.pending && Countable(e.pending[r.transferId], r) {
      CheckKeepsTimed(e.(pending := e.pending[r.transferId := Counted(e.pending[r.transferId], r)]), cfg, r.transferId);
    }
  }

  lemma {:induction false} TimeoutKeepsTimed(e: Engine, cfg: Config, id: string)
    requires Timed(e)
    ensures Timed(FireTimeout(e, cfg, id))
  {
    hide RequiredFor;
    var e' := FireTimeout(e, cfg, id);
    forall other | other in e'.pending ensures TimedAt(e', other) {
      assert TimedAt(e, other);
    }
  }

  lemma {:induction false} CleanupKeepsTimed(e: Engine, id: string)
    requires Timed(e)
    ensures Timed(FireCleanup(e, id))
  {
    var e' := FireCleanup(e, id);
    forall other | other in e'.pending ensures TimedAt(e', other) {
      assert TimedAt(e, other);
    }
  }

  lemma {:induction false} StepKeepsTimed(e: Engine, cfg: Config, a: Action)
    requires Timed(e) && Enabled(e, cfg, a)
    ensures Timed(Apply(e, cfg, a))
  {
    hide Canonical, Load, Mark, Receive, Finish, Persist, FireTimeout, FireCleanup;
    match a
    case DoFinish(p, signature, publicKey) => FinishKeepsTimed(e, cfg, p, signature, publicKey);
    case DoReceive(r) => ReceiveKeepsTimed(e, cfg, r);
    case DoTimeout(id) => TimeoutKeepsTimed(e, cfg, id);
    case DoCleanup(id) => CleanupKeepsTimed(e, id);
    case _ =>
  }

  /**
   * In every reachable state every open round still has a timeout scheduled, whichever round it was set
   * for, and every failed round its removal: none stays for ever.
   */
  lemma {:induction false} RoundsAreTimed(cfg: Config, file: seq<string>, run: seq<Action>)
    requires AllEnabled(Initial(file), cfg, run)
    ensures Timed(Exec(Initial(file), cfg, run))
  {
    TimedAlong(Initial(file), cfg, run);
  }

  lemma {:induction false} TimedAlong(e: Engine, cfg: Config, run: seq<Action>)
    requires Timed(e) && AllEnabled(e, cfg, run)
    ensures Timed(Exec(e, cfg, run))
    decreases run
  {
    hide Timed, Enabled, Apply;
    if run != [] {
      StepKeepsTimed(e, cfg, run[0]);
      TimedAlong(Apply(e, cfg, run[0]), cfg, run[1..]);
    }
  }

  // --------------------------------------------------------------------------
  // How a round ends
  // --------------------------------------------------------------------------

  /** A later proposal, a removal timer or a restart takes the place of the round. */
  predicate Displaces(a: Action, id: string) {
    || (a.DoFinish? && a.proposal.request.transferId == id)
    || (a.DoCleanup? && a.transferId == id)
    || a.DoRestart?
  }

  predicate GoesOn(before: Round, e: Engine, id: string) {
    IsOpen(e, id) && e.pending[id].serial == before.serial && before.attestations <= e.pending[id].attestations
  }

  predicate HasOutcome(log: seq<Emission>, from: nat, serial: nat) {
    exists i :: from <= i < |log| && log[i].Resolved? && log[i].outcome.serial == serial
  }

  /** Opening a round for one transfer emits no outcome for an older round. */
  lemma {:induction false} FinishEffect(e: Engine, cfg: Config, p: Proposal, signature: bytes, publicKey: bytes,
                                        serial: nat)
    requires serial < e.serials
    ensures var e' := Finish(e, cfg, p, signature, publicKey);
            && !HasOutcome(e'.log, |e.log|, serial)
            && (forall other :: other != p.request.transferId ==> SameAt(e.pending, e'.pending, other))
            && (p.request.transferId in e'.pending ==> e'.pending[p.request.transferId].serial == e.serials)
  {
    hide CheckConsensus, Hex;
    CheckEffect(Open(e, p, signature, publicKey), cfg, p.request.transferId);
  }

  /** A check touches only its own round, which it leaves alone or replaces by one outcome. */
  lemma CheckEffect(e: Engine, cfg: Config, id: string)
    ensures var e' := CheckConsensus(e, cfg, id);
            || e' == e
            || (id in e.pending && e'.pending == e.pending - {id} && |e'.log| == |e.log| + 1
                && e'.log[..|e.log|] == e.log && e'.log[|e.log|].Resolved?
                && e'.log[|e.log|].outcome.serial == e.pending[id].serial)
  {
    hide RequiredFor, EvictOldest, Persist;
  }

  lemma {:induction false} ReceiveEnds(e: Engine, cfg: Config, r: Received, id: string)
    requires PendingOk(cfg, e.pending, e.serials) && IsOpen(e, id)
    ensures var e' := Receive(e, cfg, r);
            GoesOn(e.pending[id], e', id) <==> !HasOutcome(e'.log, |e.log|, e.pending[id].serial)
  {
    hide RequiredFor, EvictOldest, RoundOk, Persist;
    var e' := Receive(e, cfg, r);
    if |e'.log| > |e.log| {
      assert e'.log[|e.log|].Resolved? && e'.log[|e.log|].outcome.serial == e.pending[r.transferId].serial;
      assert HasOutcome(e'.log, |e.log|, e.pending[r.transferId].serial);
    }
  }

  lemma {:induction false} TimeoutEnds(e: Engine, cfg: Config, fired: string, id: string)
    requires PendingOk(cfg, e.pending, e.serials) && IsOpen(e, id)
    ensures var e' := FireTimeout(e, cfg, fired);
            GoesOn(e.pending[id], e', id) <==> !HasOutcome(e'.log, |e.log|, e.pending[id].serial)
  {
    hide RequiredFor, RoundOk;
    var e' := FireTimeout(e, cfg, fired);
    if |e'.log| > |e.log| {
      assert e'.log[|e.log|].Resolved? && e'.log[|e.log|].outcome.serial == e.pending[fired].serial;
      assert HasOutcome(e'.log, |e.log|, e.pending[fired].serial);
    }
  }

  /**
   * An open round either goes on with at least its votes, or an outcome for it is emitted, or it is
   * displaced, and displacing it never emits an outcome for it.
   */
  lemma {:induction false} RoundEndsExactly(e: Engine, cfg: Config, a: Action, id: string)
    requires Inv(e, cfg) && Enabled(e, cfg, a) && IsOpen(e, id)
    ensures var e' := Apply(e, cfg, a);
            if Displaces(a, id)
            then !GoesOn(e.pending[id], e', id) && !HasOutcome(e'.log, |e.log|, e.pending[id].serial)
            else GoesOn(e.pending[id], e', id) <==> !HasOutcome(e'.log, |e.log|, e.pending[id].serial)
  {
    hide Canonical, Receive, Finish, FireTimeout, Load, Mark, RoundOk, Linked, LogOk;
    match a
    case DoFinish(p, signature, publicKey) =>
      FinishEffect(e, cfg, p, signature, publicKey, e.pending[id].serial);
      assert p.request.transferId != id ==> SameAt(e.pending, Apply(e, cfg, a).pending, id);
    case DoReceive(r) => ReceiveEnds(e, cfg, r, id);
    case DoTimeout(fired) => TimeoutEnds(e, cfg, fired, id);
    case _ =>
  }

  // --------------------------------------------------------------------------
  // Rounds that will never have an outcome
  // --------------------------------------------------------------------------

  /** Some open round has this serial. */
  ghost predicate OpenSerial(e: Engine, serial: nat) { exists id :: IsOpen(e, id) && e.pending[id].serial == serial }

  ghost predicate CanHaveOutcome(e: Engine, cfg: Config, serial: nat) {
    exists run :: OutcomeAfter(e, cfg, run, serial)
  }

  ghost predicate OutcomeAfter(e: Engine, cfg: Config, run: seq<Action>, serial: nat) {
    AllEnabled(e, cfg, run) && HasOutcome(Exec(e, cfg, run).log, 0, serial)
  }

  lemma {:induction false} ReceiveStaysSilent(e: Engine, cfg: Config, r: Received, serial: nat)
    requires !OpenSerial(e, serial) && !HasOutcome(e.log, 0, serial)
    ensures !OpenSerial(Receive(e, cfg, r), serial) && !HasOutcome(Receive(e, cfg, r).log, 0, serial)
  {
    hide CheckConsensus;
    if Admits(e, cfg, r) && r.transferId in e.pending && Countable(e.pending[r.transferId], r) {
      var e1 := e.(pending := e.pending[r.transferId := Counted(e.pending[r.transferId], r)]);
      assert e.pending[r.transferId].serial != serial;
      forall id | IsOpen(e1, id) ensures e1.pending[id].serial != serial {
        assert IsOpen(e, id);
      }
      CheckStaysSilent(e1, cfg, r.transferId, serial);
    }
  }

  lemma {:induction false} CheckStaysSilent(e: Engine, cfg: Config, id: string, serial: nat)
    requires !OpenSerial(e, serial) && !HasOutcome(e.log, 0, serial)
    ensures !OpenSerial(CheckConsensus(e, cfg, id), serial) && !HasOutcome(CheckConsensus(e, cfg, id).log, 0, serial)
  {
    hide RequiredFor, EvictOldest, Persist;
    var e' := CheckConsensus(e, cfg, id);
    assert forall other :: IsOpen(e', other) ==> IsOpen(e, other);
  }

  lemma {:induction false} FinishStaysSilent(e: Engine, cfg: Config, p: Proposal, signature: bytes, publicKey: bytes,
                                             serial: nat)
    requires serial < e.serials && !OpenSerial(e, serial) && !HasOutcome(e.log, 0, serial)
    ensures var e' := Finish(e, cfg, p, signature, publicKey); !OpenSerial(e', serial) && !HasOutcome(e'.log, 0, serial)
  {
    hide CheckConsensus, Hex;
    var e1 := Open(e, p, signature, publicKey);
    forall id | IsOpen(e1, id) ensures e1.pending[id].serial != serial {
      assert id != p.request.transferId ==> IsOpen(e, id);
    }
    CheckStaysSilent(e1, cfg, p.request.transferId, serial);
    var e' := Finish(e, cfg, p, signature, publicKey);
    assert forall id :: IsOpen(e', id) ==> IsOpen(CheckConsensus(e1, cfg, p.request.transferId), id);
  }

  lemma {:induction false} StepStaysSilent(e: Engine, cfg: Config, a: Action, serial: nat)
    requires serial < e.serials && !OpenSerial(e, serial) && !HasOutcome(e.log, 0, serial)
    ensures var e' := Apply(e, cfg, a); serial < e'.serials && !OpenSerial(e', serial) && !HasOutcome(e'.log, 0, serial)
  {
    hide Receive, Finish, Load, Mark, Persist, RequiredFor;
    match a
    case DoFinish(p, signature, publicKey) =>
      FinishStaysSilent(e, cfg, p, signature, publicKey, serial);
      SerialsGrow(e, cfg, a);
    case DoReceive(r) =>
      ReceiveStaysSilent(e, cfg, r, serial);
      SerialsGrow(e, cfg, a);
    case DoTimeout(id) =>
      assert forall other :: IsOpen(Apply(e, cfg, a), other) ==> IsOpen(e, other);
    case DoCleanup(id) =>
      assert forall other :: IsOpen(Apply(e, cfg, a), other) ==> IsOpen(e, other);
    case _ =>
      assert forall other :: IsOpen(Apply(e, cfg, a), other) ==> IsOpen(e, other);
  }

  lemma SerialsGrow(e: Engine, cfg: Config, a: Action)
    ensures Apply(e, cfg, a).serials >= e.serials
  {
    hide Admits, Countable, RequiredFor, EvictOldest, Load, Mark, Hex;
  }

  lemma {:induction false} SilentForever(e: Engine, cfg: Config, run: seq<Action>, serial: nat)
    requires serial < e.serials && !OpenSerial(e, serial) && !HasOutcome(e.log, 0, serial)
    ensures !HasOutcome(Exec(e, cfg, run).log, 0, serial)
    decreases run
  {
    hide OpenSerial, HasOutcome, Apply;
    if run != [] {
      StepStaysSilent(e, cfg, run[0], serial);
      SilentForever(Apply(e, cfg, run[0]), cfg, run[1..], serial);
    }
  }

  lemma {:induction false} OpenCanTimeOut(e: Engine, cfg: Config, serial: nat)
    requires Timed(e) && OpenSerial(e, serial)
    ensures CanHaveOutcome(e, cfg, serial)
  {
    hide RequiredFor;
    var id :| IsOpen(e, id) && e.pending[id].serial == serial;
    assert TimedAt(e, id);
    var run := [DoTimeout(id)];
    assert run[1..] == [];
    var e' := Apply(e, cfg, run[0]);
    assert e'.log[|e.log|].Resolved? && e'.log[|e.log|].outcome.serial == serial;
    assert AllEnabled(e', cfg, []) && Exec(e', cfg, []) == e';
    assert OutcomeAfter(e, cfg, run, serial);
  }

  /**
   * A round without an outcome can still have one, in some continuation, exactly while it is open: once
   * displaced it stays without one for ever.
   */
  lemma {:induction false} OutcomePossibleExactly(e: Engine, cfg: Config, serial: nat)
    requires Timed(e) && serial < e.serials && !HasOutcome(e.log, 0, serial)
    ensures CanHaveOutcome(e, cfg, serial) <==> OpenSerial(e, serial)
  {
    hide OpenSerial, HasOutcome, Exec, AllEnabled, Timed;
    if OpenSerial(e, serial) {
      OpenCanTimeOut(e, cfg, serial);
    } else {
      forall run ensures !OutcomeAfter(e, cfg, run, serial) {
        SilentForever(e, cfg, run, serial);
      }
    }
  }

  // --------------------------------------------------------------------------
  // The left-over timer is reachable
  // --------------------------------------------------------------------------

  function VoteFor(p: Proposal, signature: bytes, publicKey: bytes): Received {
    Received(Hex(publicKey), p.request.transferId, p.request.Kind(), Some(signature), Some(publicKey), Some(p.message))
  }

  /** A proposal and a vote reach the threshold; the same transfer is proposed again before the tidying-up. */
  function ReopenRun(p: Proposal, s: bytes, k: bytes, s': bytes, k': bytes): seq<Action> {
    [DoFinish(p, s, k), DoReceive(VoteFor(p, s', k')), DoFinish(p, s, k)]
  }

  lemma {:induction false} Proposed(e: Engine, cfg: Config, p: Proposal, s: bytes, k: bytes)
    requires RequiredFor(cfg, p.request.Kind()) == 2
    ensures var (e', id) := (Finish(e, cfg, p, s, k), p.request.transferId);
            && e'.pending == e.pending[id := Round(p.request, [LocalAttestation(p, s, k)], p.message, false, e.serials)]
            && e'.serials == e.serials + 1 && e'.log == e.log + [Broadcast(LocalAttestation(p, s, k))]
            && e'.timers == e.timers + multiset{TimeoutTimer(id)} && e'.whitelist == e.whitelist
            && e'.processed == e.processed
  {
    hide Hex, RequiredFor;
  }

  lemma {:induction false} SecondVote(e: Engine, cfg: Config, p: Proposal, s: bytes, k: bytes, s': bytes, k': bytes)
    requires RequiredFor(cfg, p.request.Kind()) == 2 && e.whitelist == {} && k != k'
    requires cfg.verify(p.request.Kind(), k', p.message, s')
    requires p.request.transferId in e.pending
    requires var round := e.pending[p.request.transferId];
             && !round.resolved && round.request == p.request
             && round.attestations == [LocalAttestation(p, s, k)] && round.message == p.message
    ensures var (e', id) := (Receive(e, cfg, VoteFor(p, s', k')), p.request.transferId);
            && e'.pending == e.pending - {id} && e'.timers == e.timers + multiset{CleanupTimer(id)}
            && |e'.log| == |e.log| + 1 && e'.log[..|e.log|] == e.log
            && e'.log[|e.log|].Resolved? && e'.log[|e.log|].outcome.serial == e.pending[id].serial
            && e'.serials == e.serials && (|e.processed| <= MAX_PROCESSED_TRANSFERS ==> e'.processed == e.processed)
  {
    hide RequiredFor, Hex;
    HexInjective(k, k');
    assert Countable(e.pending[p.request.transferId], VoteFor(p, s', k'));
    assert Admits(e, cfg, VoteFor(p, s', k'));
  }

  /**
   * At threshold two, from the start and with nothing but a proposal, one vote and the same proposal again,
   * both of which pass the guards before signing, an open round stands next to the timer of the success
   * before it. If that timer fires first, the round is gone, and no continuation emits an outcome for it.
   */
  lemma {:induction false} StaleCleanupLosesRound(cfg: Config, file: seq<string>, p: Proposal,
                                                  s: bytes, k: bytes, s': bytes, k': bytes)
    requires RequiredFor(cfg, p.request.Kind()) == 2 && Canonical(cfg, p.request) == Some(p.message)
    requires k != k' && cfg.verify(p.request.Kind(), k', p.message, s') && p.request.transferId !in Load(file)
    ensures var (e0, run) := (Initial(file), ReopenRun(p, s, k, s', k'));
            Start(e0, cfg, p.request) == Some(p) && Start(Exec(e0, cfg, run[..2]), cfg, p.request) == Some(p)
    ensures var (e0, id) := (Initial(file), p.request.transferId);
            && AllEnabled(e0, cfg, ReopenRun(p, s, k, s', k'))
            && var e3 := Exec(e0, cfg, ReopenRun(p, s, k, s', k'));
            && IsOpen(e3, id) && Enabled(e3, cfg, DoCleanup(id))
            && var e4 := Apply(e3, cfg, DoCleanup(id));
            && !IsOpen(e4, id) && !CanHaveOutcome(e4, cfg, e3.pending[id].serial)
  {
    hide Load, Canonical, RequiredFor, Receive, Finish, Hex, CanHaveOutcome, Start, Exec, AllEnabled;
    var run := ReopenRun(p, s, k, s', k');
    var id := p.request.transferId;
    var e0 := Initial(file);
    var e1 := Apply(e0, cfg, run[0]);
    Proposed(e0, cfg, p, s, k);
    var e2 := Apply(e1, cfg, run[1]);
    SecondVote(e1, cfg, p, s, k, s', k');
    var e3 := Apply(e2, cfg, run[2]);
    Proposed(e2, cfg, p, s, k);
    ThreeActions(e0, cfg, run[0], run[1], run[2]);
    assert run[..2] == [run[0], run[1]];
    TwoStarts(e0, e2, cfg, p, file);
    var e4 := Apply(e3, cfg, DoCleanup(id));
    assert e3.pending[id].serial == 1 && e4.log == e3.log && e4.pending == map[];
    NeverAnOutcome(e4, cfg, 1);
  }

  lemma ThreeActions(e: Engine, cfg: Config, a: Action, b: Action, c: Action)
    ensures var (e1, e2) := (Apply(e, cfg, a), Apply(Apply(e, cfg, a), cfg, b));
            && Exec(e, cfg, [a, b]) == e2 && Exec(e, cfg, [a, b, c]) == Apply(e2, cfg, c)
            && (Enabled(e, cfg, a) && Enabled(e1, cfg, b) && Enabled(e2, cfg, c) ==> AllEnabled(e, cfg, [a, b, c]))
  {
    hide Apply, Enabled;
    var e1 := Apply(e, cfg, a);
    var e2 := Apply(e1, cfg, b);
    var e3 := Apply(e2, cfg, c);
    assert [a, b][1..] == [b] && [b][1..] == [] && [a, b, c][1..] == [b, c] && [b, c][1..] == [c] && [c][1..] == [];
    assert Exec(e2, cfg, []) == e2 && Exec(e1, cfg, [b]) == e2;
    assert Exec(e3, cfg, []) == e3 && Exec(e2, cfg, [c]) == e3 && Exec(e1, cfg, [b, c]) == e3;
    assert AllEnabled(e3, cfg, []) && (Enabled(e2, cfg, c) ==> AllEnabled(e2, cfg, [c]));
  }

  /** Neither processed nor pending, the transfer may be proposed. */
  lemma TwoStarts(e0: Engine, e2: Engine, cfg: Config, p: Proposal, file: seq<string>)
    requires e0 == Initial(file) && p.request.transferId !in Load(file) && Canonical(cfg, p.request) == Some(p.message)
    requires |e0.processed| <= MAX_PROCESSED_TRANSFERS ==> e2.processed == e0.processed
    requires p.request.transferId !in e2.pending
    ensures Start(e0, cfg, p.request) == Some(p) && Start(e2, cfg, p.request) == Some(p)
  {
    hide Load, Canonical;
    ProcessedSet.LoadIsBounded(file);
  }

  lemma {:induction false} NeverAnOutcome(e: Engine, cfg: Config, serial: nat)
    requires serial < e.serials && e.pending == map[] && !HasOutcome(e.log, 0, serial)
    ensures !CanHaveOutcome(e, cfg, serial)
  {
    hide HasOutcome;
    forall run ensures !OutcomeAfter(e, cfg, run, serial) {
      SilentForever(e, cfg, run, serial);
    }
  }
}
