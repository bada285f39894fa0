/**
 * What a round comes to, in the terms of its configuration and its inputs: the threshold of
 * each kind, the verification of every vote, the node's own included, and the whole effect of
 * a proposal, a timeout, a mark and a restart.
 */
module EngineOutcomes {
  import opened Bytes
  import opened Options
  import opened Messages
  import opened ConsensusEngine
  import opened EngineInvariants
  import opened EngineRounds
  import ProcessedSet

  // --------------------------------------------------------------------------
  // Thresholds
  // --------------------------------------------------------------------------

  /** An outcome is a success exactly when it has the votes its kind asks for, and it says so. */
  predicate DecidedBy(o: Outcome, threshold: int) {
    o.required == threshold && (o.achieved <==> |o.attestations| >= threshold)
  }

  /**
   * In every run, an unlock is achieved exactly with the configured number of votes for unlocks, or the
   * general number when there is none, and a mint exactly with that for mints.
   */
  lemma {:induction false} AchievedExactly(cfg: Config, file: seq<string>, run: seq<Action>, i: nat)
    requires AllEnabled(Initial(file), cfg, run)
    requires var log := Exec(Initial(file), cfg, run).log; i < |log| && log[i].Resolved?
    ensures var o := Exec(Initial(file), cfg, run).log[i].outcome;
            && (o.request.UnlockRequest? && cfg.minValidatorsUnlock.Some? ==>
                DecidedBy(o, cfg.minValidatorsUnlock.value))
            && (o.request.UnlockRequest? && cfg.minValidatorsUnlock.None? ==> DecidedBy(o, cfg.minValidators))
            && (o.request.MintRequest? && cfg.minValidatorsMint.Some? ==> DecidedBy(o, cfg.minValidatorsMint.value))
            && (o.request.MintRequest? && cfg.minValidatorsMint.None? ==> DecidedBy(o, cfg.minValidators))
  {
    hide Exec, AllEnabled, VotesOk, Canonical;
    ExecKeepsInv(Initial(file), cfg, run);
    assert OutcomeOk(cfg, Exec(Initial(file), cfg, run).log[i].outcome);
  }

  /** An open round is one vote or more short of it: nothing that could succeed is left waiting. */
  lemma {:induction false} OpenExactly(cfg: Config, file: seq<string>, run: seq<Action>, id: string, m: int)
    requires AllEnabled(Initial(file), cfg, run) && IsOpen(Exec(Initial(file), cfg, run), id)
    requires AsksFor(cfg, Exec(Initial(file), cfg, run).pending[id].request, m)
    ensures |Exec(Initial(file), cfg, run).pending[id].attestations| < m
  {
    hide Exec, AllEnabled, VotesOk, Canonical;
    ExecKeepsInv(Initial(file), cfg, run);
    assert Below(cfg, Exec(Initial(file), cfg, run).pending[id]);
  }

  // --------------------------------------------------------------------------
  // Every vote verifies
  // --------------------------------------------------------------------------

  predicate Verifies(cfg: Config, v: Attestation) { cfg.verify(v.kind, v.publicKey, v.messageHash, v.signature) }

  predicate AllVerify(cfg: Config, votes: seq<Attestation>) {
    forall k :: 0 <= k < |votes| ==> Verifies(cfg, votes[k])
  }

  /** Votes of stored rounds, votes of outcomes, and what is broadcast. */
  predicate EverythingVerifies(e: Engine, cfg: Config) {
    && (forall id :: id in e.pending ==> AllVerify(cfg, e.pending[id].attestations))
    && (forall i :: 0 <= i < |e.log| && e.log[i].Resolved? ==> AllVerify(cfg, e.log[i].outcome.attestations))
    && (forall i :: 0 <= i < |e.log| && e.log[i].Broadcast? ==> Verifies(cfg, e.log[i].attestation))
  }

  /** The node's signer works: what it returns for a message verifies under its key. */
  predicate SignsWell(cfg: Config, a: Action) {
    a.DoFinish? ==> cfg.verify(a.proposal.request.Kind(), a.publicKey, a.proposal.message, a.signature)
  }

  lemma {:induction false} CheckKeepsVerified(e: Engine, cfg: Config, id: string)
    requires EverythingVerifies(e, cfg)
    ensures EverythingVerifies(CheckConsensus(e, cfg, id), cfg)
  {
    hide AllVerify, Verifies, EvictOldest, RequiredFor;
  }

  lemma {:induction false} FinishKeepsVerified(e: Engine, cfg: Config, p: Proposal, s: bytes, k: bytes)
    requires EverythingVerifies(e, cfg) && cfg.verify(p.request.Kind(), k, p.message, s)
    ensures EverythingVerifies(Finish(e, cfg, p, s, k), cfg)
  {
    hide CheckConsensus, Hex;
    CheckKeepsVerified(Open(e, p, s, k), cfg, p.request.transferId);
  }

  lemma {:induction false} ReceiveKeepsVerified(e: Engine, cfg: Config, r: Received)
    requires EverythingVerifies(e, cfg)
    ensures EverythingVerifies(Receive(e, cfg, r), cfg)
  {
    hide CheckConsensus, Hex;
    if Admits(e, cfg, r) && r.transferId in e.pending && Countable(e.pending[r.transferId], r) {
      CheckKeepsVerified(e.(pending := e.pending[r.transferId := Counted(e.pending[r.transferId], r)]), cfg,
                         r.transferId);
    }
  }

  lemma {:induction false} StepKeepsVerified(e: Engine, cfg: Config, a: Action)
    requires EverythingVerifies(e, cfg) && SignsWell(cfg, a)
    ensures EverythingVerifies(Apply(e, cfg, a), cfg)
  {
    hide Finish, Receive, Load, Mark, AllVerify, Verifies, RequiredFor;
    match a
    case DoFinish(p, s, k) => FinishKeepsVerified(e, cfg, p, s, k);
    case DoReceive(r) => ReceiveKeepsVerified(e, cfg, r);
    case _ =>
  }

  /**
   * In every run of a node whose signer works, every vote it holds, reports or broadcasts verifies, its own
   * included.
   */
  lemma {:induction false} EveryVoteVerifies(e: Engine, cfg: Config, run: seq<Action>)
    requires EverythingVerifies(e, cfg) && forall i :: 0 <= i < |run| ==> SignsWell(cfg, run[i])
    ensures EverythingVerifies(Exec(e, cfg, run), cfg)
    decreases run
  {
    hide EverythingVerifies, SignsWell, Apply;
    if run != [] {
      StepKeepsVerified(e, cfg, run[0]);
      EveryVoteVerifies(Apply(e, cfg, run[0]), cfg, run[1..]);
    }
  }

  /** An attestation as it travels. */
  function Delivered(v: Attestation): Received {
    Received(v.nodeId, v.transferId, v.kind, Some(v.signature), Some(v.publicKey), Some(v.messageHash))
  }

  /**
   * What a node broadcasts on finishing a proposal is counted by every peer that has an open round on the
   * same message, lets its key in and has no vote of it yet.
   */
  lemma {:induction false} BroadcastIsCounted(e: Engine, peer: Engine, cfg: Config, p: Proposal, s: bytes, k: bytes)
    requires cfg.verify(p.request.Kind(), k, p.message, s) && Inv(peer, cfg)
    requires IsOpen(peer, p.request.transferId) && peer.pending[p.request.transferId].message == p.message
    requires peer.whitelist == {} || Hex(k) in peer.whitelist
    requires !HasVoted(peer.pending[p.request.transferId], k)
    ensures |Finish(e, cfg, p, s, k).log| > |e.log| && Finish(e, cfg, p, s, k).log[|e.log|].Broadcast?
    ensures Receive(peer, cfg, Delivered(Finish(e, cfg, p, s, k).log[|e.log|].attestation)) != peer
  {
    hide Receive, Inv, HasVoted, RequiredFor, EvictOldest, Hex;
    CountedExactly(peer, cfg, Delivered(Finish(e, cfg, p, s, k).log[|e.log|].attestation));
  }

  // --------------------------------------------------------------------------
  // The effect of a step
  // --------------------------------------------------------------------------

  /**
   * Finishing a proposal below its threshold: the node's own vote is broadcast and is the only one of a new
   * open round with a timeout; every other round, and everything else, stays.
   */
  lemma {:induction false} ProposalEffect(e: Engine, cfg: Config, p: Proposal, s: bytes, k: bytes, m: int)
    requires AsksFor(cfg, p.request, m)
    ensures var id, e' := p.request.transferId, Finish(e, cfg, p, s, k);
            var own := Attestation(Hex(k), id, if p.request.UnlockRequest? then Unlock else Mint, s, k, p.message);
            && (forall other :: other != id ==> SameAt(e.pending, e'.pending, other))
            && e'.serials == e.serials + 1 && e'.whitelist == e.whitelist
            && (|e.processed| <= 100_000 ==> e'.processed == e.processed)
            && if m > 1
               then e'.log == e.log + [Broadcast(own)] && e'.timers == e.timers + multiset{TimeoutTimer(id)}
                    && id in e'.pending && e'.pending[id] == Round(p.request, [own], p.message, false, e.serials)
                    && e'.disk == e.disk
               else e'.log == e.log + [Broadcast(own)]
                              + [Resolved(Outcome(true, e.serials, p.request, p.message, [own], m))]
                    && e'.timers == e.timers + multiset{CleanupTimer(id)} && id !in e'.pending
  {
    hide Hex, CheckConsensus;
    var withRound := Open(e, p, s, k);
    NewRoundChecked(withRound, cfg, p.request.transferId, m);
  }

  /** Checking a round: nothing below its threshold, and one success at it. */
  lemma NewRoundChecked(e: Engine, cfg: Config, id: string, m: int)
    requires IsOpen(e, id) && AsksFor(cfg, e.pending[id].request, m)
    ensures var round, e' := e.pending[id], CheckConsensus(e, cfg, id);
            if |round.attestations| < m then e' == e
            else && e'.pending == e.pending - {id} && e'.serials == e.serials && e'.whitelist == e.whitelist
                 && (|e.processed| <= 100_000 ==> e'.processed == e.processed)
                 && e'.timers == e.timers + multiset{CleanupTimer(id)}
                 && e'.log == e.log + [Resolved(Outcome(true, round.serial, round.request, round.message,
                                                        round.attestations, m))]
  {}

  /** A timeout of an open round: it fails with the votes it has, stays as resolved, and is removed later. */
  lemma {:induction false} TimeoutEffect(e: Engine, cfg: Config, id: string, m: int)
    requires IsOpen(e, id)
    requires AsksFor(cfg, e.pending[id].request, m)
    ensures var round, e' := e.pending[id], FireTimeout(e, cfg, id);
            && e'.log == e.log + [Resolved(Outcome(false, round.serial, round.request, round.message,
                                                   round.attestations, m))]
            && e'.pending
               == e.pending[id := Round(round.request, round.attestations, round.message, true, round.serial)]
            && e'.timers == e.timers - multiset{TimeoutTimer(id)} + multiset{CleanupTimer(id)}
            && e'.processed == e.processed && e'.whitelist == e.whitelist && e'.disk == e.disk
            && e'.serials == e.serials
  {}

  /** A mark is remembered, and saved if writing works; it touches no round. */
  lemma {:induction false} MarkEffect(e: Engine, cfg: Config, id: string, r: Request)
    requires QueueOk(e) && id != ""
    ensures var e' := MarkSubmitted(e, id);
            && id in e'.processed
            && (forall x :: x in e'.processed ==> x in e.processed || x == id)
            && (|e.processed| < 100_000 ==> forall x :: x in e.processed ==> x in e'.processed)
            && (e.writable ==> e'.disk == e'.processed) && (!e.writable ==> e'.disk == e.disk)
            && e'.pending == e.pending && e'.log == e.log && e'.timers == e.timers && e'.whitelist == e.whitelist
            && (r.transferId == id ==> Start(e', cfg, r).None?)
  {
    hide Canonical, Load;
    var added := Add(e.processed, id);
    assert id in e.processed || added[|e.processed|] == id;
    if |added| > 100_000 {
      assert added == e.processed + [id] && added[1..] == e.processed[1..] + [id];
    }
  }

  /** A restart forgets rounds, timers and the whitelist, and takes the processed set from the file. */
  lemma RestartEffect(e: Engine)
    ensures var e' := Restart(e);
            && e'.pending == map[] && e'.timers == multiset{} && e'.whitelist == {}
            && e'.processed == Load(e.disk) && e'.disk == e.disk && e'.log == e.log
  {}
}
