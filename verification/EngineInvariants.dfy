/**
 * What holds in every reachable state of one engine, including overlapping
 * proposals for one transfer and timers that outlive the round they were set for.
 */
module EngineInvariants {
  import opened Bytes
  import opened Options
  import opened ConsensusEngine
  import opened ProcessedSet

  // --------------------------------------------------------------------------
  // Runs
  // --------------------------------------------------------------------------

  datatype Action =
    | DoFinish(proposal: Proposal, signature: bytes, publicKey: bytes)
    | DoReceive(received: Received)
    | DoMark(transferId: string)
    | DoTimeout(transferId: string)
    | DoCleanup(transferId: string)
    | DoWhitelist(keys: set<string>)
    | DoRestart
    | DoDisk(works: bool)

  /**
   * A proposal may finish in any later state, several times over for one transfer; its
   * message is the one built when it started. A timer fires only while it is set.
   */
  ghost predicate Enabled(e: Engine, cfg: Config, a: Action) {
    match a
    case DoFinish(p, _, _) => Canonical(cfg, p.request) == Some(p.message)
    case DoTimeout(id) => TimeoutTimer(id) in e.timers
    case DoCleanup(id) => CleanupTimer(id) in e.timers
    case _ => true
  }

  function Apply(e: Engine, cfg: Config, a: Action): Engine {
    match a
    case DoFinish(p, signature, publicKey) => Finish(e, cfg, p, signature, publicKey)
    case DoReceive(r) => Receive(e, cfg, r)
    case DoMark(id) => MarkSubmitted(e, id)
    case DoTimeout(id) => FireTimeout(e, cfg, id)
    case DoCleanup(id) => FireCleanup(e, id)
    case DoWhitelist(keys) => e.(whitelist := keys)
    case DoRestart => Restart(e)
    case DoDisk(works) => e.(writable := works)
  }

  ghost predicate AllEnabled(e: Engine, cfg: Config, run: seq<Action>)
    decreases run
  {
    run == [] || (Enabled(e, cfg, run[0]) && AllEnabled(Apply(e, cfg, run[0]), cfg, run[1..]))
  }

  /** The engine after a run of actions. */
  function Exec(e: Engine, cfg: Config, run: seq<Action>): Engine
    decreases run
  {
    if run == [] then e else Exec(Apply(e, cfg, run[0]), cfg, run[1..])
  }

  /** Mints ask for the mint threshold, unlocks for the unlock threshold, either by default for the general one. */
  predicate AsksFor(cfg: Config, r: Request, votes: int) {
    match r
    case MintRequest(_, _, _) =>
      votes == if cfg.minValidatorsMint.Some? then cfg.minValidatorsMint.value else cfg.minValidators
    case UnlockRequest(_, _, _) =>
      votes == if cfg.minValidatorsUnlock.Some? then cfg.minValidatorsUnlock.value else cfg.minValidators
  }

  // --------------------------------------------------------------------------
  // The invariant
  // --------------------------------------------------------------------------

  /** Attestations of one round: bound to their keys, over one message, one per key, each verified. */
  predicate VotesOk(cfg: Config, id: string, message: bytes, votes: seq<Attestation>) {
    && |votes| > 0
    && (forall k :: 0 <= k < |votes| ==>
          votes[k].nodeId == Hex(votes[k].publicKey) && votes[k].transferId == id && votes[k].messageHash == message)
    && (forall j, k :: 0 <= j < k < |votes| ==> votes[j].publicKey != votes[k].publicKey)
    && (forall k :: 0 < k < |votes| ==>
          cfg.verify(votes[k].kind, votes[k].publicKey, votes[k].messageHash, votes[k].signature))
  }

  predicate RoundOk(cfg: Config, id: string, r: Round) {
    && r.request.transferId == id
    && Canonical(cfg, r.request) == Some(r.message)
    && VotesOk(cfg, id, r.message, r.attestations)
  }

  /** A success holds at least its kind's threshold of votes, a failure fewer. */
  predicate OutcomeOk(cfg: Config, o: Outcome) {
    && Canonical(cfg, o.request) == Some(o.message)
    && VotesOk(cfg, o.request.transferId, o.message, o.attestations)
    && o.required == RequiredFor(cfg, o.request.Kind())
    && (o.achieved <==> |o.attestations| >= o.required)
  }

  predicate PendingOk(cfg: Config, pending: map<string, Round>, serials: nat) {
    && (forall id :: id in pending ==> RoundOk(cfg, id, pending[id]) && pending[id].serial < serials)
    && (forall id, id' :: id in pending && id' in pending && id != id' ==> pending[id].serial != pending[id'].serial)
  }

  /** Every outcome is justified, and no round has two. */
  predicate LogOk(cfg: Config, log: seq<Emission>, serials: nat) {
    && (forall i :: 0 <= i < |log| && log[i].Resolved? ==>
          OutcomeOk(cfg, log[i].outcome) && log[i].outcome.serial < serials)
    && (forall i, j :: 0 <= i < j < |log| && log[i].Resolved? && log[j].Resolved? ==>
          log[i].outcome.serial != log[j].outcome.serial)
  }

  /** A round still stored has an outcome only if it failed and is marked resolved. */
  predicate Linked(pending: map<string, Round>, log: seq<Emission>) {
    forall id, i :: id in pending && 0 <= i < |log| && log[i].Resolved?
                    && log[i].outcome.serial == pending[id].serial ==>
                      pending[id].resolved && !log[i].outcome.achieved
  }

  predicate Below(cfg: Config, r: Round) { !r.resolved ==> |r.attestations| < RequiredFor(cfg, r.request.Kind()) }

  /** Every stored round but that of `id` is still below its threshold. */
  predicate InvExcept(e: Engine, cfg: Config, id: string) {
    && PendingOk(cfg, e.pending, e.serials)
    && LogOk(cfg, e.log, e.serials)
    && Linked(e.pending, e.log)
    && (forall id' :: id' in e.pending && id' != id ==> Below(cfg, e.pending[id']))
  }

  predicate Inv(e: Engine, cfg: Config) {
    && PendingOk(cfg, e.pending, e.serials)
    && LogOk(cfg, e.log, e.serials)
    && Linked(e.pending, e.log)
    && (forall id :: id in e.pending ==> Below(cfg, e.pending[id]))
  }

  // --------------------------------------------------------------------------
  // Every step keeps it
  // --------------------------------------------------------------------------

  lemma LogGrows(cfg: Config, log: seq<Emission>, serials: nat, o: Outcome)
    requires LogOk(cfg, log, serials) && OutcomeOk(cfg, o) && o.serial < serials
    requires forall i :: 0 <= i < |log| && log[i].Resolved? ==> log[i].outcome.serial != o.serial
    ensures LogOk(cfg, log + [Resolved(o)], serials)
  {
    hide OutcomeOk;
  }

  lemma PendingPut(cfg: Config, pending: map<string, Round>, serials: nat, id: string, r: Round, serials': nat)
    requires PendingOk(cfg, pending, serials) && RoundOk(cfg, id, r) && r.serial < serials' && serials <= serials'
    requires forall id' :: id' in pending && id' != id ==> pending[id'].serial != r.serial
    ensures PendingOk(cfg, pending[id := r], serials')
  {
    hide RoundOk;
  }

  lemma LinkedPut(pending: map<string, Round>, log: seq<Emission>, id: string, r: Round)
    requires Linked(pending, log)
    requires forall i :: 0 <= i < |log| && log[i].Resolved? && log[i].outcome.serial == r.serial ==>
               r.resolved && !log[i].outcome.achieved
    ensures Linked(pending[id := r], log)
  {}

  /** Emitting the outcome of a round that is no longer stored, or is stored as failed. */
  lemma LinkedEmit(cfg: Config, pending: map<string, Round>, log: seq<Emission>, o: Outcome)
    requires Linked(pending, log)
    requires forall id :: id in pending && pending[id].serial == o.serial ==> pending[id].resolved && !o.achieved
    ensures Linked(pending, log + [Resolved(o)])
  {}

  lemma {:induction false} CheckKeepsInv(e: Engine, cfg: Config, id: string)
    requires InvExcept(e, cfg, id)
    ensures Inv(CheckConsensus(e, cfg, id), cfg)
  {
    hide VotesOk, Canonical, Persist, EvictOldest;
    if id in e.pending && !e.pending[id].resolved {
      var round := e.pending[id];
      var required := RequiredFor(cfg, round.request.Kind());
      if |round.attestations| >= required {
        var o := Outcome(true, round.serial, round.request, round.message, round.attestations, required);
        assert OutcomeOk(cfg, o);
        hide RoundOk, OutcomeOk;
        LogGrows(cfg, e.log, e.serials, o);
        assert PendingOk(cfg, e.pending - {id}, e.serials);
        LinkedEmit(cfg, e.pending - {id}, e.log, o);
      }
    }
  }

  lemma {:induction false} FinishKeepsInv(e: Engine, cfg: Config, p: Proposal, signature: bytes, publicKey: bytes)
    requires Inv(e, cfg) && Canonical(cfg, p.request) == Some(p.message)
    ensures Inv(Finish(e, cfg, p, signature, publicKey), cfg)
  {
    var id := p.request.transferId;
    var withRound := Open(e, p, signature, publicKey);
    var r := withRound.pending[id];
    assert RoundOk(cfg, id, r);
    hide RoundOk, OutcomeOk, Canonical, RequiredFor, Hex;
    PendingPut(cfg, e.pending, e.serials, id, r, e.serials + 1);
    LinkedPut(e.pending, e.log, id, r);
    BroadcastKeepsLog(cfg, e.pending[id := r], e.log, e.serials, LocalAttestation(p, signature, publicKey));
    assert InvExcept(withRound, cfg, id);
    CheckKeepsInv(withRound, cfg, id);
  }

  lemma BroadcastKeepsLog(cfg: Config, pending: map<string, Round>, log: seq<Emission>, serials: nat, a: Attestation)
    requires LogOk(cfg, log, serials) && Linked(pending, log)
    ensures LogOk(cfg, log + [Broadcast(a)], serials + 1) && Linked(pending, log + [Broadcast(a)])
  {
    hide OutcomeOk;
  }

  lemma {:induction false} CountedVotesOk(cfg: Config, e: Engine, r: Received)
    requires Inv(e, cfg) && Admits(e, cfg, r) && r.transferId in e.pending && Countable(e.pending[r.transferId], r)
    ensures RoundOk(cfg, r.transferId, Counted(e.pending[r.transferId], r))
  {
    var round, counted := e.pending[r.transferId], Counted(e.pending[r.transferId], r);
    forall k | 0 <= k < |counted.attestations| ensures
      var v := counted.attestations[k];
      && v.nodeId == Hex(v.publicKey) && v.transferId == r.transferId && v.messageHash == round.message
      && (k > 0 ==> cfg.verify(v.kind, v.publicKey, v.messageHash, v.signature))
    {
      if k < |round.attestations| {
        assert counted.attestations[k] == round.attestations[k];
      }
    }
  }

  lemma {:induction false} ReceiveKeepsInv(e: Engine, cfg: Config, r: Received)
    requires Inv(e, cfg)
    ensures Inv(Receive(e, cfg, r), cfg)
  {
    if Admits(e, cfg, r) && r.transferId in e.pending && Countable(e.pending[r.transferId], r) {
      CountedVotesOk(cfg, e, r);
      hide RoundOk, OutcomeOk, Admits, Countable;
      var before, counted := e.pending[r.transferId], Counted(e.pending[r.transferId], r);
      var e' := e.(pending := e.pending[r.transferId := counted]);
      assert counted.serial == before.serial && counted.resolved == before.resolved;
      PendingPut(cfg, e.pending, e.serials, r.transferId, counted, e.serials);
      LinkedPut(e.pending, e.log, r.transferId, counted);
      CheckKeepsInv(e', cfg, r.transferId);
    }
  }

  lemma {:induction false} TimeoutKeepsInv(e: Engine, cfg: Config, id: string)
    requires Inv(e, cfg)
    ensures Inv(FireTimeout(e, cfg, id), cfg)
  {
    hide VotesOk, Canonical, RequiredFor;
    if id in e.pending && !e.pending[id].resolved {
      var round := e.pending[id];
      var o := Outcome(false, round.serial, round.request, round.message, round.attestations,
                       RequiredFor(cfg, round.request.Kind()));
      var failed := round.(resolved := true);
      assert Below(cfg, round);
      LogGrows(cfg, e.log, e.serials, o);
      assert RoundOk(cfg, id, failed);
      hide RoundOk, OutcomeOk;
      PendingPut(cfg, e.pending, e.serials, id, failed, e.serials);
      LinkedPut(e.pending, e.log, id, failed);
      LinkedEmit(cfg, e.pending[id := failed], e.log, o);
    }
  }

  lemma {:induction false} StepKeepsInv(e: Engine, cfg: Config, a: Action)
    requires Inv(e, cfg) && Enabled(e, cfg, a)
    ensures Inv(Apply(e, cfg, a), cfg)
  {
    match a
    case DoFinish(p, signature, publicKey) => FinishKeepsInv(e, cfg, p, signature, publicKey);
    case DoReceive(r) => ReceiveKeepsInv(e, cfg, r);
    case DoTimeout(id) => TimeoutKeepsInv(e, cfg, id);
    case DoMark(id) =>
    case DoCleanup(id) =>
    case DoWhitelist(keys) =>
    case DoRestart =>
    case DoDisk(works) =>
  }

  /**
   * In every reachable state: votes in a round come from distinct keys, are bound to
   * them, verified and over the round's canonical message; every outcome is justified by
   * its votes against its kind's threshold; no round has two outcomes.
   */
  lemma {:induction false} ExecKeepsInv(e: Engine, cfg: Config, run: seq<Action>)
    requires Inv(e, cfg) && AllEnabled(e, cfg, run)
    ensures Inv(Exec(e, cfg, run), cfg)
    decreases run
  {
    if run != [] {
      StepKeepsInv(e, cfg, run[0]);
      ExecKeepsInv(Apply(e, cfg, run[0]), cfg, run[1..]);
    }
  }

  /** Two outcomes of one round are the same emission: a failed round never succeeds. */
  lemma OneOutcomePerRound(cfg: Config, file: seq<string>, run: seq<Action>, i: nat, j: nat)
    requires AllEnabled(Initial(file), cfg, run)
    requires var log := Exec(Initial(file), cfg, run).log;
             && i < |log| && j < |log| && log[i].Resolved? && log[j].Resolved?
             && log[i].outcome.serial == log[j].outcome.serial
    ensures i == j
  {
    ExecKeepsInv(Initial(file), cfg, run);
    assert i < j || j < i || i == j;
  }

  /** One vote per node id: checking ids and checking keys are the same test on stored votes. */
  lemma DistinctKeysAreDistinctNodes(cfg: Config, id: string, message: bytes, votes: seq<Attestation>, j: nat, k: nat)
    requires VotesOk(cfg, id, message, votes) && j < |votes| && k < |votes|
    ensures votes[j].nodeId == votes[k].nodeId <==> j == k
  {
    HexInjective(votes[j].publicKey, votes[k].publicKey);
  }

  // --------------------------------------------------------------------------
  // The processed set along runs with restarts
  // --------------------------------------------------------------------------

  /** Bounded, duplicate-free and without the empty id, in memory and as it would be loaded. */
  predicate QueueOk(e: Engine) {
    NoDup(e.processed) && |e.processed| <= 100_000 && "" !in e.processed && "" !in Load(e.disk)
  }

  predicate NoEmptyMark(run: seq<Action>) { forall i :: 0 <= i < |run| && run[i].DoMark? ==> run[i].transferId != "" }

  lemma {:induction false} StepKeepsQueue(e: Engine, cfg: Config, a: Action)
    requires QueueOk(e) && (a.DoMark? ==> a.transferId != "")
    ensures QueueOk(Apply(e, cfg, a))
    ensures Apply(e, cfg, a).disk == e.disk || Load(Apply(e, cfg, a).disk) == Apply(e, cfg, a).processed
  {
    hide Load, Admits, Countable;
    LoadRestoresExactly(e.processed);
    LoadIsBounded(e.disk);
    match a
    case DoMark(id) =>
      MarkIsQueue(e.processed, id);
      LoadRestoresExactly(Mark(e.processed, id));
    case _ =>
  }

  lemma {:induction false} QueueAlong(e: Engine, cfg: Config, run: seq<Action>)
    requires QueueOk(e) && NoEmptyMark(run)
    ensures QueueOk(Exec(e, cfg, run))
    decreases run
  {
    hide QueueOk, Apply;
    if run != [] {
      StepKeepsQueue(e, cfg, run[0]);
      QueueAlong(Apply(e, cfg, run[0]), cfg, run[1..]);
    }
  }

  /** The run never turns the disk off. */
  predicate DiskWorks(e: Engine, run: seq<Action>) { e.writable && DoDisk(false) !in run }

  lemma {:induction false} StepKeepsSaved(e: Engine, cfg: Config, a: Action)
    requires QueueOk(e) && Load(e.disk) == e.processed && e.writable && a != DoDisk(false)
    requires a.DoMark? ==> a.transferId != ""
    ensures Load(Apply(e, cfg, a).disk) == Apply(e, cfg, a).processed && Apply(e, cfg, a).writable
  {
    hide Load, Admits, Countable;
    LoadRestoresExactly(e.processed);
    match a
    case DoMark(id) =>
      MarkIsQueue(e.processed, id);
      LoadRestoresExactly(Mark(e.processed, id));
    case _ =>
  }

  /**
   * Along every run that never marks the empty id, restarts included, the processed set
   * stays bounded and duplicate-free, and while the disk works a restart restores the same ordered set.
   */
  lemma {:induction false} ProcessedSurvivesRestarts(e: Engine, cfg: Config, run: seq<Action>)
    requires QueueOk(e) && NoEmptyMark(run) && Load(e.disk) == e.processed
    ensures QueueOk(Exec(e, cfg, run))
    ensures DiskWorks(e, run) ==> Restart(Exec(e, cfg, run)).processed == Exec(e, cfg, run).processed
    decreases run
  {
    hide QueueOk, Apply;
    QueueAlong(e, cfg, run);
    if run != [] && DiskWorks(e, run) {
      StepKeepsQueue(e, cfg, run[0]);
      StepKeepsSaved(e, cfg, run[0]);
      ProcessedSurvivesRestarts(Apply(e, cfg, run[0]), cfg, run[1..]);
    }
  }

  ghost predicate HeldAfter(e: Engine, cfg: Config, run: seq<Action>, k: nat, processed: seq<string>) {
    k <= |run| && Exec(e, cfg, run[..k]).processed == processed
  }

  /**
   * Whatever writes fail, a restart at the end of a run restores the ordered set that the engine held at
   * some moment of the run, or the one saved before the run if no write went through since.
   */
  lemma {:induction false} RestartRestoresAnEarlierSet(e: Engine, cfg: Config, run: seq<Action>)
    requires QueueOk(e) && NoEmptyMark(run)
    ensures var restored := Restart(Exec(e, cfg, run)).processed;
            restored == Restart(e).processed || exists k :: HeldAfter(e, cfg, run, k, restored)
    decreases run
  {
    hide QueueOk, Apply, Load;
    if run != [] {
      StepKeepsQueue(e, cfg, run[0]);
      var next, rest := Apply(e, cfg, run[0]), run[1..];
      RestartRestoresAnEarlierSet(next, cfg, rest);
      var restored := Restart(Exec(e, cfg, run)).processed;
      if k: nat :| HeldAfter(next, cfg, rest, k, restored) {
        assert run[..k + 1][1..] == rest[..k];
        assert HeldAfter(e, cfg, run, k + 1, restored);
      } else if next.disk != e.disk {
        assert run[..1] == [run[0]] && run[..1][1..] == [];
        assert Exec(e, cfg, run[..1]) == Exec(next, cfg, run[..1][1..]) == next;
        assert HeldAfter(e, cfg, run, 1, restored);
      }
    }
  }

  // --------------------------------------------------------------------------
  // How long an id stays
  // --------------------------------------------------------------------------

  function MarkCount(run: seq<Action>): nat
    decreases run
  {
    if run == [] then 0 else (if run[0].DoMark? then 1 else 0) + MarkCount(run[1..])
  }

  /** One step moves an id at most one place forward, and only a mark does. */
  lemma {:induction false} StepKeepsPlace(e: Engine, cfg: Config, a: Action, j: nat)
    requires QueueOk(e) && Load(e.disk) == e.processed && j < |e.processed|
    requires a.DoMark? ==> a.transferId != "" && (j > 0 || |e.processed| < MAX_PROCESSED_TRANSFERS)
    ensures var p, p' := e.processed, Apply(e, cfg, a).processed;
            if a.DoMark?
            then exists j' :: 0 <= j' < |p'| && p'[j'] == p[j] && |p'| - 1 - j' <= |p| - j
            else p' == p
  {
    hide Load, Admits, Countable, NoDup;
    match a
    case DoMark(id) =>
      var p, p' := e.processed, Apply(e, cfg, a).processed;
      var added := Add(p, id);
      assert added[j] == p[j];
      if p' == added {
        assert p'[j] == p[j] && |p'| - 1 - j <= |p| - j;
      } else {
        assert p' == added[1..] && p'[j - 1] == p[j];
      }
    case _ =>
  }

  /**
   * Along every run over a working disk, restarts, timeouts and resolutions included, a processed id
   * stays while fewer than 100,000 marks follow its own.
   */
  lemma {:induction false} ProcessedIdStays(e: Engine, cfg: Config, run: seq<Action>, j: nat)
    requires QueueOk(e) && Load(e.disk) == e.processed && DiskWorks(e, run) && NoEmptyMark(run)
    requires j < |e.processed| && |e.processed| - 1 - j + MarkCount(run) < 100_000
    ensures e.processed[j] in Exec(e, cfg, run).processed
    decreases run
  {
    hide QueueOk, Apply, Load;
    if run != [] {
      var a, next := run[0], Apply(e, cfg, run[0]);
      StepKeepsQueue(e, cfg, a);
      StepKeepsSaved(e, cfg, a);
      StepKeepsPlace(e, cfg, a, j);
      if a.DoMark? {
        var j' :| 0 <= j' < |next.processed| && next.processed[j'] == e.processed[j]
                  && |next.processed| - 1 - j' <= |e.processed| - j;
        ProcessedIdStays(next, cfg, run[1..], j');
      } else {
        ProcessedIdStays(next, cfg, run[1..], j);
      }
    }
  }
}
