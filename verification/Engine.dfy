/**
 * The consensus engine: M-of-N attestation rounds keyed by transfer id.
 *
 * The functions on `Engine` are the specification of one atomic step each; the
 * class `ConsensusEngine` holds the mutable fields and is proved step by step
 * against them. A proposal awaits its signature in the middle, so it is two steps,
 * and timers name a transfer id, not a round.
 */
module ConsensusEngine {
  import opened Bytes
  import opened Options
  import opened Messages

  datatype Kind = Mint | Unlock

  datatype Request =
    | MintRequest(transferId: string, deposit: Deposit, timestamp: int)
    | UnlockRequest(transferId: string, burn: Burn, timestamp: int)
  {
    function Kind(): Kind { if MintRequest? then Mint else Unlock }
  }

  datatype Attestation = Attestation(
    nodeId: string, transferId: string, kind: Kind, signature: bytes, publicKey: bytes, messageHash: bytes)

  /** An attestation as it arrives from a peer: any field may be missing. */
  datatype Received = Received(
    nodeId: string, transferId: string, kind: Kind,
    signature: Option<bytes>, publicKey: Option<bytes>, messageHash: Option<bytes>)

  /** `verify` is the scheme of the attestation's own kind, false also when it throws. */
  datatype Config = Config(
    minValidators: int, minValidatorsMint: Option<int>, minValidatorsUnlock: Option<int>,
    dccBridgeChainId: nat, dccChainId: int, unlockExpirySeconds: int,
    verify: (Kind, bytes, bytes, bytes) -> bool)

  /** `serial` stands for the identity of the round object. */
  datatype Round = Round(request: Request, attestations: seq<Attestation>, message: bytes, resolved: bool, serial: nat)

  datatype Proposal = Proposal(request: Request, message: bytes)

  datatype Timer = TimeoutTimer(transferId: string) | CleanupTimer(transferId: string)

  datatype Outcome = Outcome(
    achieved: bool, serial: nat, request: Request, message: bytes, attestations: seq<Attestation>, required: int)

  datatype Emission = Broadcast(attestation: Attestation) | Resolved(outcome: Outcome)

  /**
   * `processed` lists the processed set in insertion order; `disk` is the saved file, and
   * `writable` tells whether writing it works at the moment, a failure being swallowed.
   */
  datatype Engine = Engine(
    pending: map<string, Round>,
    processed: seq<string>,
    whitelist: set<string>,
    timers: multiset<Timer>,
    log: seq<Emission>,
    serials: nat,
    disk: seq<string>,
    writable: bool)

  const MAX_PROCESSED_TRANSFERS: nat := 100_000

  function OrElse(o: Option<int>, default: int): int { if o.Some? then o.value else default }

  function RequiredFor(cfg: Config, kind: Kind): int {
    if kind == Unlock then OrElse(cfg.minValidatorsUnlock, cfg.minValidators)
    else OrElse(cfg.minValidatorsMint, cfg.minValidators)
  }

  function Canonical(cfg: Config, r: Request): Option<bytes> {
    match r
    case MintRequest(id, deposit, _) => MintMessage(id, deposit, cfg.dccBridgeChainId)
    case UnlockRequest(id, burn, _) => UnlockMessage(id, burn, cfg.dccChainId, cfg.unlockExpirySeconds)
  }

  // --------------------------------------------------------------------------
  // The processed set
  // --------------------------------------------------------------------------

  function Add(p: seq<string>, id: string): seq<string> { if id in p then p else p + [id] }

  /** Drops the oldest entry once the set is too large, unless that entry is the empty id. */
  function EvictOldest(p: seq<string>): seq<string> {
    if |p| > MAX_PROCESSED_TRANSFERS && p[0] != "" then p[1..] else p
  }

  function Mark(p: seq<string>, id: string): seq<string> { EvictOldest(Add(p, id)) }

  function AddAll(p: seq<string>, ids: seq<string>): seq<string>
    decreases ids
  {
    if ids == [] then p else AddAll(Add(p, ids[0]), ids[1..])
  }

  /** Only the most recent entries of a file are loaded. */
  function Load(file: seq<string>): seq<string> {
    AddAll([], if |file| > MAX_PROCESSED_TRANSFERS then file[|file| - MAX_PROCESSED_TRANSFERS..] else file)
  }

  // --------------------------------------------------------------------------
  // Steps
  // --------------------------------------------------------------------------

  function Initial(disk: seq<string>): Engine { Engine(map[], Load(disk), {}, multiset{}, [], 0, disk, true) }

  /** A new process over the same file. Emissions and serials continue, as history. */
  function Restart(e: Engine): Engine { Initial(e.disk).(log := e.log, serials := e.serials, writable := e.writable) }

  /** The part of a proposal before its signature is awaited; None when a guard refuses. */
  function Start(e: Engine, cfg: Config, r: Request): Option<Proposal> {
    if r.transferId in e.processed || r.transferId in e.pending then None
    else
      match Canonical(cfg, r)
      case None => None
      case Some(message) => Some(Proposal(r, message))
  }

  /** Touches nothing but the file. */
  function Persist(e: Engine): (r: Engine)
    ensures r == e.(disk := r.disk)
  {
    if e.writable then e.(disk := e.processed) else e
  }

  function CheckConsensus(e: Engine, cfg: Config, id: string): Engine {
    if id !in e.pending || e.pending[id].resolved then e
    else
      var round := e.pending[id];
      var required := RequiredFor(cfg, round.request.Kind());
      if |round.attestations| >= required then
        Persist(e.(pending := e.pending - {id}, processed := EvictOldest(e.processed)))
        .(timers := e.timers + multiset{CleanupTimer(id)},
          log := e.log
                 + [Resolved(Outcome(true, round.serial, round.request, round.message, round.attestations, required))])
      else e
  }

  function LocalAttestation(p: Proposal, signature: bytes, publicKey: bytes): Attestation {
    Attestation(Hex(publicKey), p.request.transferId, p.request.Kind(), signature, publicKey, p.message)
  }

  /** Opens the round with the node's own attestation, replacing any round for the transfer. */
  function Open(e: Engine, p: Proposal, signature: bytes, publicKey: bytes): Engine {
    var own := LocalAttestation(p, signature, publicKey);
    e.(pending := e.pending[p.request.transferId := Round(p.request, [own], p.message, false, e.serials)],
       serials := e.serials + 1,
       log := e.log + [Broadcast(own)])
  }

  /** The part of a proposal after its signature arrived. Nothing is checked again. */
  function Finish(e: Engine, cfg: Config, p: Proposal, signature: bytes, publicKey: bytes): Engine {
    var id := p.request.transferId;
    var withRound := Open(e, p, signature, publicKey);
    var checked := CheckConsensus(withRound, cfg, id);
    if id in checked.pending then checked.(timers := checked.timers + multiset{TimeoutTimer(id)}) else checked
  }

  predicate WhitelistAdmits(e: Engine, publicKey: bytes) { e.whitelist == {} || Hex(publicKey) in e.whitelist }

  /** Passes every check that does not involve a round. */
  predicate Admits(e: Engine, cfg: Config, r: Received) {
    && r.publicKey.Some? && r.signature.Some? && r.messageHash.Some?
    && WhitelistAdmits(e, r.publicKey.value)
    && r.nodeId == Hex(r.publicKey.value)
    && cfg.verify(r.kind, r.publicKey.value, r.messageHash.value, r.signature.value)
  }

  predicate Countable(round: Round, r: Received)
    requires r.publicKey.Some? && r.messageHash.Some?
  {
    && !round.resolved
    && (forall k :: 0 <= k < |round.attestations| ==> round.attestations[k].nodeId != r.nodeId)
    && (forall k :: 0 <= k < |round.attestations| ==> round.attestations[k].publicKey != r.publicKey.value)
    && round.message == r.messageHash.value
  }

  function Counted(round: Round, r: Received): Round
    requires r.publicKey.Some? && r.signature.Some? && r.messageHash.Some?
  {
    round.(attestations := round.attestations
      + [Attestation(r.nodeId, r.transferId, r.kind, r.signature.value, r.publicKey.value, r.messageHash.value)])
  }

  function Receive(e: Engine, cfg: Config, r: Received): Engine {
    if Admits(e, cfg, r) && r.transferId in e.pending && Countable(e.pending[r.transferId], r) then
      CheckConsensus(e.(pending := e.pending[r.transferId := Counted(e.pending[r.transferId], r)]), cfg, r.transferId)
    else e
  }

  function MarkSubmitted(e: Engine, id: string): Engine {
    Persist(e.(processed := Mark(e.processed, id)))
  }

  function FireTimeout(e: Engine, cfg: Config, id: string): Engine {
    var fired := e.(timers := e.timers - multiset{TimeoutTimer(id)});
    if id !in e.pending || e.pending[id].resolved then fired
    else
      var round := e.pending[id];
      fired.(pending := e.pending[id := round.(resolved := true)],
             timers := fired.timers + multiset{CleanupTimer(id)},
             log := e.log + [Resolved(Outcome(false, round.serial, round.request, round.message, round.attestations,
                                              RequiredFor(cfg, round.request.Kind())))])
  }

  function FireCleanup(e: Engine, id: string): Engine {
    e.(pending := e.pending - {id}, timers := e.timers - multiset{CleanupTimer(id)})
  }

  // --------------------------------------------------------------------------
  // The engine object
  // --------------------------------------------------------------------------

  class ConsensusEngine {
    const config: Config
    var pendingConsensus: map<string, Round>
    var processedTransfers: seq<string>
    var registeredValidators: set<string>
    var timers: multiset<Timer>
    var emitted: seq<Emission>
    var serials: nat
    var file: seq<string>
    /** Stands for the disk: whether writing the file works at the moment. */
    var writable: bool

    ghost function State(): Engine
      reads this
    {
      Engine(pendingConsensus, processedTransfers, registeredValidators, timers, emitted, serials, file, writable)
    }

    constructor (config: Config, file: seq<string>)
      ensures this.config == config && State() == Initial(file)
    {
      this.config := config;
      this.pendingConsensus := map[];
      this.registeredValidators := {};
      this.timers := multiset{};
      this.emitted := [];
      this.serials := 0;
      this.file := file;
      this.writable := true;
      this.processedTransfers := [];
      new;
      LoadProcessedTransfers();
    }

    method LoadProcessedTransfers()
      requires processedTransfers == []
      modifies this`processedTransfers
      ensures processedTransfers == Load(file)
    {
      var entries := if |file| > MAX_PROCESSED_TRANSFERS then file[|file| - MAX_PROCESSED_TRANSFERS..] else file;
      for k := 0 to |entries|
        invariant AddAll(processedTransfers, entries[k..]) == Load(file)
      {
        assert entries[k..][0] == entries[k] && entries[k..][1..] == entries[k + 1..];
        processedTransfers := Add(processedTransfers, entries[k]);
      }
    }

    /** An error of the write is only logged. */
    method PersistProcessedTransfers()
      modifies this`file
      ensures State() == Persist(old(State()))
    {
      if writable {
        file := processedTransfers;
      }
    }

    method RegisterValidator(publicKeyHex: string)
      modifies this`registeredValidators
      ensures registeredValidators == old(registeredValidators) + {publicKeyHex}
    {
      registeredValidators := registeredValidators + {publicKeyHex};
    }

    method RemoveValidator(publicKeyHex: string)
      modifies this`registeredValidators
      ensures registeredValidators == old(registeredValidators) - {publicKeyHex}
    {
      registeredValidators := registeredValidators - {publicKeyHex};
    }

    /** The result is never empty, so from here on the whitelist is in force. */
    method SyncValidatorSet(publicKeysHex: seq<string>, ownMintKey: bytes)
      modifies this`registeredValidators
      ensures registeredValidators == (set k | 0 <= k < |publicKeysHex| :: publicKeysHex[k]) + {Hex(ownMintKey)}
    {
      registeredValidators := {};
      for k := 0 to |publicKeysHex|
        invariant registeredValidators == set j | 0 <= j < k :: publicKeysHex[j]
      {
        registeredValidators := registeredValidators + {publicKeysHex[k]};
      }
      registeredValidators := registeredValidators + {Hex(ownMintKey)};
    }

    method ProposeUntilSigning(request: Request) returns (p: Option<Proposal>)
      ensures p == Start(State(), config, request)
    {
      if request.transferId in processedTransfers {
        return None;
      }
      if request.transferId in pendingConsensus {
        return None;
      }
      var message: Option<bytes>;
      match request {
        case MintRequest(id, deposit, _) => message := ConstructMintMessage(id, deposit, config.dccBridgeChainId);
        case UnlockRequest(id, burn, _) =>
          message := ConstructUnlockMessage(id, burn, config.dccChainId, config.unlockExpirySeconds);
      }
      return if message.None? then None else Some(Proposal(request, message.value));
    }

    method ProposeAfterSigning(p: Proposal, signature: bytes, publicKey: bytes)
      modifies this
      ensures State() == Finish(old(State()), config, p, signature, publicKey)
    {
      hide Hex;
      var id := p.request.transferId;
      var own := Attestation(Hex(publicKey), id, p.request.Kind(), signature, publicKey, p.message);
      pendingConsensus := pendingConsensus[id := Round(p.request, [own], p.message, false, serials)];
      serials := serials + 1;
      emitted := emitted + [Broadcast(own)];
      assert State() == Open(old(State()), p, signature, publicKey);
      var resolved := CheckConsensusFor(id);
      if !resolved {
        timers := timers + multiset{TimeoutTimer(id)};
      }
    }

    /** Resolves the round for a transfer once it holds enough attestations. */
    method CheckConsensusFor(id: string) returns (resolved: bool)
      modifies this
      ensures State() == CheckConsensus(old(State()), config, id)
      ensures resolved <==> id !in pendingConsensus || pendingConsensus[id].resolved
    {
      if id !in pendingConsensus || pendingConsensus[id].resolved {
        return true;
      }
      var round := pendingConsensus[id];
      var required := RequiredFor(config, round.request.Kind());
      if |round.attestations| >= required {
        pendingConsensus := pendingConsensus - {id};
        if |processedTransfers| > MAX_PROCESSED_TRANSFERS {
          var oldest := processedTransfers[0];
          if oldest != "" {
            processedTransfers := processedTransfers[1..];
          }
        }
        PersistProcessedTransfers();
        emitted := emitted
          + [Resolved(Outcome(true, round.serial, round.request, round.message, round.attestations, required))];
        timers := timers + multiset{CleanupTimer(id)};
        return true;
      }
      return false;
    }

    method ReceiveAttestation(r: Received)
      modifies this
      ensures State() == Receive(old(State()), config, r)
    {
      if r.publicKey.None? || r.signature.None? || r.messageHash.None? {
        return;
      }
      var pubkeyHex := Hex(r.publicKey.value);
      if |registeredValidators| > 0 && pubkeyHex !in registeredValidators {
        return;
      }
      if r.nodeId != pubkeyHex {
        return;
      }
      if !config.verify(r.kind, r.publicKey.value, r.messageHash.value, r.signature.value) {
        return;
      }
      if r.transferId !in pendingConsensus {
        return;
      }
      var round := pendingConsensus[r.transferId];
      if round.resolved {
        return;
      }
      var sameNode := exists k :: 0 <= k < |round.attestations| && round.attestations[k].nodeId == r.nodeId;
      if sameNode {
        return;
      }
      var sameKey := exists k :: 0 <= k < |round.attestations| && round.attestations[k].publicKey == r.publicKey.value;
      if sameKey {
        return;
      }
      if round.message != r.messageHash.value {
        return;
      }
      var counted := round.attestations
        + [Attestation(r.nodeId, r.transferId, r.kind, r.signature.value, r.publicKey.value, r.messageHash.value)];
      pendingConsensus := pendingConsensus[r.transferId := round.(attestations := counted)];
      var _ := CheckConsensusFor(r.transferId);
    }

    method MarkTransferSubmitted(id: string)
      modifies this`processedTransfers, this`file
      ensures State() == MarkSubmitted(old(State()), id)
    {
      if id !in processedTransfers {
        processedTransfers := processedTransfers + [id];
      }
      if |processedTransfers| > MAX_PROCESSED_TRANSFERS {
        var oldest := processedTransfers[0];
        if oldest != "" {
          processedTransfers := processedTransfers[1..];
        }
      }
      PersistProcessedTransfers();
    }

    method CheckConsensusTimeout(id: string)
      modifies this
      ensures State() == FireTimeout(old(State()), config, id)
    {
      timers := timers - multiset{TimeoutTimer(id)};
      if id !in pendingConsensus || pendingConsensus[id].resolved {
        return;
      }
      var round := pendingConsensus[id];
      emitted := emitted
        + [Resolved(Outcome(false, round.serial, round.request, round.message, round.attestations,
                            RequiredFor(config, round.request.Kind())))];
      pendingConsensus := pendingConsensus[id := round.(resolved := true)];
      timers := timers + multiset{CleanupTimer(id)};
    }

    method Cleanup(id: string)
      modifies this
      ensures State() == FireCleanup(old(State()), id)
    {
      timers := timers - multiset{CleanupTimer(id)};
      pendingConsensus := pendingConsensus - {id};
    }
  }
}
