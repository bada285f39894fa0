/**
 * Any number of engines, an arbitrary network between them, and some faulty keys.
 *
 * The network delays, drops, duplicates, reorders and invents attestations freely; it
 * cannot produce a valid signature under an honest validator's key that the validator
 * did not make. `faulty` bounds the other keys a node lets in.
 */
module Network {
  import opened Bytes
  import opened Options
  import opened Messages
  import opened ConsensusEngine
  import opened EngineInvariants
  import Base58

  /** A validator signs mints with one key and unlocks with another. */
  datatype Keys = Keys(mint: bytes, unlock: bytes)

  datatype Params = Params(cfg: Config, keys: map<nat, Keys>, faulty: set<bytes>)

  datatype Ref = Ref(kind: Kind, transferId: string)

  /** A signature an honest node made, and the request it made it for. */
  datatype Signed = Signed(node: nat, kind: Kind, publicKey: bytes, message: bytes, request: Request)

  /** `chain` holds the event that the source chain finalised for each transfer. */
  datatype Net = Net(
    engines: map<nat, Engine>,
    signing: map<nat, set<Proposal>>,
    chain: map<Ref, Request>,
    signed: set<Signed>)

  function KeyOf(ps: Params, n: nat, kind: Kind): bytes
    requires n in ps.keys
  {
    if kind == Mint then ps.keys[n].mint else ps.keys[n].unlock
  }

  predicate HonestKey(ps: Params, kind: Kind, key: bytes) {
    exists n :: n in ps.keys && KeyOf(ps, n, kind) == key
  }

  function RefOf(r: Request): Ref { Ref(r.Kind(), r.transferId) }

  /** The request without the local time at which a node made it. */
  function EventOf(r: Request): Request { r.(timestamp := 0) }

  predicate Finalised(net: Net, r: Request) { RefOf(r) in net.chain && net.chain[RefOf(r)] == EventOf(r) }

  predicate HasSigned(net: Net, kind: Kind, key: bytes, message: bytes) {
    exists s :: s in net.signed && s.kind == kind && s.publicKey == key && s.message == message
  }

  /** Unforgeability for honest keys, and the bound on the rest. */
  predicate Deliverable(ps: Params, net: Net, n: nat, r: Received)
    requires n in net.engines
  {
    r.publicKey.Some? && r.messageHash.Some? && Admits(net.engines[n], ps.cfg, r) ==>
      if HonestKey(ps, r.kind, r.publicKey.value)
      then HasSigned(net, r.kind, r.publicKey.value, r.messageHash.value)
      else r.publicKey.value in ps.faulty
  }

  // --------------------------------------------------------------------------
  // Steps
  // --------------------------------------------------------------------------

  datatype Step =
    | Finalise(event: Request)
    | Propose(node: nat, request: Request)
    | Act(node: nat, action: Action)

  /** What a node may do by itself, and what it may be made to do. */
  predicate NodeEnabled(ps: Params, net: Net, n: nat, a: Action)
    requires n in net.engines && n in net.signing && n in ps.keys
  {
    match a
    case DoFinish(p, signature, publicKey) =>
      && p in net.signing[n]
      && publicKey == KeyOf(ps, n, p.request.Kind())
    case DoReceive(r) => Deliverable(ps, net, n, r)
    case DoTimeout(id) => TimeoutTimer(id) in net.engines[n].timers
    case DoCleanup(id) => CleanupTimer(id) in net.engines[n].timers
    case _ => true
  }

  function Acted(ps: Params, net: Net, n: nat, a: Action): Net
    requires n in net.engines && n in net.signing
  {
    net.(engines := net.engines[n := Apply(net.engines[n], ps.cfg, a)],
         signing := if a.DoRestart? then net.signing[n := {}] else net.signing)
  }

  predicate Next(ps: Params, net: Net, step: Step, net': Net) {
    match step
    case Finalise(event) =>
      && RefOf(event) !in net.chain
      && net' == net.(chain := net.chain[RefOf(event) := EventOf(event)])
    case Propose(n, r) =>
      && n in net.engines && n in net.signing && n in ps.keys
      && Finalised(net, r)
      && Start(net.engines[n], ps.cfg, r).Some?
      && var p := Start(net.engines[n], ps.cfg, r).value;
         net' == net.(signing := net.signing[n := net.signing[n] + {p}],
                      signed := net.signed + {Signed(n, r.Kind(), KeyOf(ps, n, r.Kind()), p.message, r)})
    case Act(n, a) =>
      && n in net.engines && n in net.signing && n in ps.keys
      && NodeEnabled(ps, net, n, a)
      && net' == Acted(ps, net, n, a)
  }

  predicate Init(ps: Params, net: Net) {
    && net.engines.Keys == net.signing.Keys == ps.keys.Keys
    && net.chain == map[] && net.signed == {}
    && (forall n :: n in net.engines ==> net.engines[n] == Initial(net.engines[n].disk) && net.signing[n] == {})
  }

  /** A run: consecutive states joined by enabled steps. */
  predicate Run(ps: Params, states: seq<Net>, steps: seq<Step>) {
    && |states| == |steps| + 1
    && Init(ps, states[0])
    && forall i :: 0 <= i < |steps| ==> Next(ps, states[i], steps[i], states[i + 1])
  }

  // --------------------------------------------------------------------------
  // Invariant
  // --------------------------------------------------------------------------

  predicate SignedOk(ps: Params, net: Net, s: Signed) {
    && s.node in ps.keys
    && s.request.Kind() == s.kind
    && s.publicKey == KeyOf(ps, s.node, s.kind)
    && Canonical(ps.cfg, s.request) == Some(s.message)
    && Finalised(net, s.request)
  }

  predicate Backed(ps: Params, net: Net, v: Attestation) {
    if HonestKey(ps, v.kind, v.publicKey)
    then HasSigned(net, v.kind, v.publicKey, v.messageHash)
    else v.publicKey in ps.faulty
  }

  predicate AllBacked(ps: Params, net: Net, votes: seq<Attestation>) {
    forall k :: 0 <= k < |votes| ==> Backed(ps, net, votes[k])
  }

  predicate EngineBacked(ps: Params, net: Net, e: Engine) {
    && (forall id :: id in e.pending ==>
          AllBacked(ps, net, e.pending[id].attestations) && Finalised(net, e.pending[id].request))
    && (forall i :: 0 <= i < |e.log| && e.log[i].Resolved? ==>
          AllBacked(ps, net, e.log[i].outcome.attestations) && Finalised(net, e.log[i].outcome.request))
  }

  predicate SigningOk(ps: Params, net: Net, n: nat, p: Proposal)
    requires n in ps.keys
  {
    Signed(n, p.request.Kind(), KeyOf(ps, n, p.request.Kind()), p.message, p.request) in net.signed
  }

  predicate NetInv(ps: Params, net: Net) {
    && net.engines.Keys == net.signing.Keys == ps.keys.Keys
    && (forall s :: s in net.signed ==> SignedOk(ps, net, s))
    && (forall n, p :: n in net.signing && p in net.signing[n] ==> SigningOk(ps, net, n, p))
    && (forall n :: n in net.engines ==> Inv(net.engines[n], ps.cfg) && EngineBacked(ps, net, net.engines[n]))
    && (forall ref :: ref in net.chain ==> RefOf(net.chain[ref]) == ref && EventOf(net.chain[ref]) == net.chain[ref])
  }

  /** Facts about signatures and the chain are never lost. */
  predicate Grows(net: Net, net': Net) {
    && net.signed <= net'.signed
    && forall ref :: ref in net.chain ==> ref in net'.chain && net'.chain[ref] == net.chain[ref]
  }

  lemma BackedGrows(ps: Params, net: Net, net': Net, votes: seq<Attestation>)
    requires Grows(net, net') && AllBacked(ps, net, votes)
    ensures AllBacked(ps, net', votes)
  {
    forall k | 0 <= k < |votes| ensures Backed(ps, net', votes[k]) {
      assert Backed(ps, net, votes[k]);
    }
  }

  lemma EngineBackedGrows(ps: Params, net: Net, net': Net, e: Engine)
    requires Grows(net, net') && EngineBacked(ps, net, e)
    ensures EngineBacked(ps, net', e)
  {
    forall id | id in e.pending ensures AllBacked(ps, net', e.pending[id].attestations) {
      BackedGrows(ps, net, net', e.pending[id].attestations);
    }
    forall i | 0 <= i < |e.log| && e.log[i].Resolved? ensures AllBacked(ps, net', e.log[i].outcome.attestations) {
      BackedGrows(ps, net, net', e.log[i].outcome.attestations);
    }
  }

  // --------------------------------------------------------------------------
  // Engine steps keep votes backed
  // --------------------------------------------------------------------------

  lemma {:induction false} CheckKeepsBacked(ps: Params, net: Net, e: Engine, id: string)
    requires EngineBacked(ps, net, e)
    ensures EngineBacked(ps, net, CheckConsensus(e, ps.cfg, id))
  {
    hide AllBacked, Finalised;
  }

  lemma {:induction false} FinishKeepsBacked(ps: Params, net: Net, n: nat, e: Engine, a: Action)
    requires a.DoFinish? && n in ps.keys && SigningOk(ps, net, n, a.proposal)
    requires a.publicKey == KeyOf(ps, n, a.proposal.request.Kind()) && Finalised(net, a.proposal.request)
    requires EngineBacked(ps, net, e)
    ensures EngineBacked(ps, net, Apply(e, ps.cfg, a))
  {
    var own := LocalAttestation(a.proposal, a.signature, a.publicKey);
    assert HonestKey(ps, own.kind, own.publicKey);
    assert HasSigned(net, own.kind, own.publicKey, own.messageHash);
    assert AllBacked(ps, net, [own]);
    hide AllBacked, Finalised, Hex;
    var withRound := Open(e, a.proposal, a.signature, a.publicKey);
    assert EngineBacked(ps, net, withRound);
    CheckKeepsBacked(ps, net, withRound, a.proposal.request.transferId);
  }

  lemma {:induction false} ReceiveKeepsBacked(ps: Params, net: Net, n: nat, r: Received)
    requires n in net.engines && Deliverable(ps, net, n, r) && EngineBacked(ps, net, net.engines[n])
    ensures EngineBacked(ps, net, Receive(net.engines[n], ps.cfg, r))
  {
    var e := net.engines[n];
    if Admits(e, ps.cfg, r) && r.transferId in e.pending && Countable(e.pending[r.transferId], r) {
      var round, counted := e.pending[r.transferId], Counted(e.pending[r.transferId], r);
      assert AllBacked(ps, net, round.attestations);
      forall k | 0 <= k < |counted.attestations| ensures Backed(ps, net, counted.attestations[k]) {
        if k < |round.attestations| {
          assert counted.attestations[k] == round.attestations[k];
        }
      }
      hide AllBacked, Finalised, Admits, Countable;
      CheckKeepsBacked(ps, net, e.(pending := e.pending[r.transferId := counted]), r.transferId);
    }
  }

  lemma {:induction false} OtherKeepsBacked(ps: Params, net: Net, e: Engine, a: Action)
    requires !a.DoFinish? && !a.DoReceive? && EngineBacked(ps, net, e)
    ensures EngineBacked(ps, net, Apply(e, ps.cfg, a))
  {
    hide AllBacked, Finalised, Mark, Load;
  }

  lemma {:induction false} ActKeepsBacked(ps: Params, net: Net, n: nat, a: Action)
    requires NetInv(ps, net) && n in net.engines && NodeEnabled(ps, net, n, a)
    ensures EngineBacked(ps, net, Apply(net.engines[n], ps.cfg, a))
    ensures Inv(Apply(net.engines[n], ps.cfg, a), ps.cfg)
  {
    hide Inv, Apply, Canonical, EngineBacked, Deliverable;
    var e := net.engines[n];
    if a.DoFinish? {
      var p := a.proposal;
      assert SigningOk(ps, net, n, p);
      assert SignedOk(ps, net, Signed(n, p.request.Kind(), KeyOf(ps, n, p.request.Kind()), p.message, p.request));
      FinishKeepsBacked(ps, net, n, e, a);
    } else if a.DoReceive? {
      ReceiveKeepsBacked(ps, net, n, a.received);
      ApplyReceive(e, ps.cfg, a);
    } else {
      OtherKeepsBacked(ps, net, e, a);
    }
    StepKeepsInv(e, ps.cfg, a);
  }

  lemma ApplyReceive(e: Engine, cfg: Config, a: Action)
    requires a.DoReceive?
    ensures Apply(e, cfg, a) == Receive(e, cfg, a.received)
  {}

  lemma {:induction false} NextKeepsNetInv(ps: Params, net: Net, step: Step, net': Net)
    requires NetInv(ps, net) && Next(ps, net, step, net')
    ensures NetInv(ps, net')
  {
    hide Inv, Apply, Canonical, EngineBacked, SignedOk, SigningOk, Start, NodeEnabled;
    if step.Act? {
      ActKeepsBacked(ps, net, step.node, step.action);
    }
    assert Grows(net, net');
    forall n | n in net'.engines ensures EngineBacked(ps, net', net'.engines[n]) {
      EngineBackedGrows(ps, net, net', net'.engines[n]);
    }
    SignedStays(ps, net, step, net');
    SigningStays(ps, net, step, net');
  }

  lemma {:induction false} SignedStays(ps: Params, net: Net, step: Step, net': Net)
    requires NetInv(ps, net) && Next(ps, net, step, net')
    ensures forall s :: s in net'.signed ==> SignedOk(ps, net', s)
  {
    hide Inv, Apply, Canonical, EngineBacked, Start, NodeEnabled, SigningOk;
    forall s | s in net'.signed ensures SignedOk(ps, net', s) {
      if s in net.signed {
        assert SignedOk(ps, net, s);
      } else {
        StartIsCanonical(net.engines[step.node], ps.cfg, step.request);
      }
    }
  }

  lemma {:induction false} SigningStays(ps: Params, net: Net, step: Step, net': Net)
    requires NetInv(ps, net) && Next(ps, net, step, net')
    ensures net'.signing.Keys == ps.keys.Keys
    ensures forall n, p :: n in net'.signing && p in net'.signing[n] ==> SigningOk(ps, net', n, p)
  {
    hide Inv, Apply, Canonical, EngineBacked, Start, NodeEnabled, SignedOk;
    forall n, p | n in net'.signing && p in net'.signing[n] ensures SigningOk(ps, net', n, p) {
      if p in net.signing[n] {
        assert SigningOk(ps, net, n, p);
      } else {
        StartIsCanonical(net.engines[step.node], ps.cfg, step.request);
      }
    }
  }

  lemma StartIsCanonical(e: Engine, cfg: Config, r: Request)
    requires Start(e, cfg, r).Some?
    ensures var p := Start(e, cfg, r).value; p.request == r && Canonical(cfg, r) == Some(p.message)
  {}

  lemma InitHasNetInv(ps: Params, net: Net)
    requires Init(ps, net)
    ensures NetInv(ps, net)
  {
    hide Load, RoundOk, OutcomeOk, AllBacked;
  }

  /** The invariant holds in every state of every run. */
  lemma {:induction false} RunKeepsNetInv(ps: Params, states: seq<Net>, steps: seq<Step>, i: nat)
    requires Run(ps, states, steps) && i < |states|
    ensures NetInv(ps, states[i])
  {
    hide NetInv, Next, Init;
    if i == 0 {
      InitHasNetInv(ps, states[0]);
    } else {
      RunKeepsNetInv(ps, states, steps, i - 1);
      NextKeepsNetInv(ps, states[i - 1], steps[i - 1], states[i]);
    }
  }

  // --------------------------------------------------------------------------
  // What a message says
  // --------------------------------------------------------------------------

  predicate Is32ByteId(id: string) { Base58.ValidText(id) && |Base58.Full(id)| == 32 }

  /** Ids of a DCC burn encode 32 bytes; the recipient field of a deposit is 32 bytes. */
  predicate WellFormed(r: Request) {
    match r
    case MintRequest(_, deposit, _) => |deposit.recipientField| == 32
    case UnlockRequest(id, burn, _) => Is32ByteId(id) && Is32ByteId(burn.txId)
  }

  /** What is signed of a request: all of its event, burn times to the second. */
  function Content(r: Request): Request {
    match r
    case MintRequest(_, _, _) => EventOf(r)
    case UnlockRequest(_, burn, _) => EventOf(r).(burn := burn.(timestampMs := burn.timestampMs / 1000))
  }

  lemma CanonicalKeepsKind(cfg: Config, a: Request, b: Request)
    requires Canonical(cfg, a).Some? && Canonical(cfg, a) == Canonical(cfg, b)
    ensures a.Kind() == b.Kind()
  {
    match (a, b)
    case (MintRequest(i, d, _), UnlockRequest(j, u, _)) =>
      MintIsNotUnlock(i, d, cfg.dccBridgeChainId, j, u, cfg.dccChainId, cfg.unlockExpirySeconds);
    case (UnlockRequest(j, u, _), MintRequest(i, d, _)) =>
      MintIsNotUnlock(i, d, cfg.dccBridgeChainId, j, u, cfg.dccChainId, cfg.unlockExpirySeconds);
    case _ =>
  }

  lemma UnlockCanonical(cfg: Config, a: Request)
    requires a.UnlockRequest? && Canonical(cfg, a).Some?
    ensures var u, expiration := a.burn, UnlockExpiration(a.burn.timestampMs, cfg.unlockExpirySeconds);
            && UnlockInRange(u.amount, cfg.dccChainId, expiration)
            && Canonical(cfg, a) == Some(UnlockBytes(Base58.DccId(a.transferId), u.recipient, u.amount,
                                                     Base58.DccId(u.txId), cfg.dccChainId, expiration))
  {
    hide UnlockBytes, Base58.DccId;
  }

  /** Equal unlock messages agree in every signed field, ids by their 32 bytes. */
  lemma UnlockDeterminesFields(cfg: Config, a: Request, b: Request)
    requires a.UnlockRequest? && b.UnlockRequest?
    requires Canonical(cfg, a).Some? && Canonical(cfg, a) == Canonical(cfg, b)
    ensures Base58.DccId(a.transferId) == Base58.DccId(b.transferId)
    ensures Base58.DccId(a.burn.txId) == Base58.DccId(b.burn.txId)
    ensures a.burn.recipient == b.burn.recipient && a.burn.amount == b.burn.amount
    ensures a.burn.timestampMs / 1000 == b.burn.timestampMs / 1000
  {
    hide Canonical, UnlockBytes, UnlockInRange, Base58.DccId;
    var u, v := a.burn, b.burn;
    UnlockCanonical(cfg, a);
    UnlockCanonical(cfg, b);
    UnlockBytesInjective(
      Base58.DccId(a.transferId), u.recipient, u.amount, Base58.DccId(u.txId), cfg.dccChainId,
      UnlockExpiration(u.timestampMs, cfg.unlockExpirySeconds),
      Base58.DccId(b.transferId), v.recipient, v.amount, Base58.DccId(v.txId), cfg.dccChainId,
      UnlockExpiration(v.timestampMs, cfg.unlockExpirySeconds));
  }

  lemma UnlockDeterminesContent(cfg: Config, a: Request, b: Request)
    requires a.UnlockRequest? && b.UnlockRequest? && WellFormed(a) && WellFormed(b)
    requires Canonical(cfg, a).Some? && Canonical(cfg, a) == Canonical(cfg, b)
    ensures Content(a) == Content(b)
  {
    hide Canonical, Base58.DccId, Base58.ValidText, Base58.Full;
    UnlockDeterminesFields(cfg, a, b);
    Base58.DccIdInjective(a.transferId, b.transferId);
    Base58.DccIdInjective(a.burn.txId, b.burn.txId);
  }

  /** Equal canonical messages come from the same transfer, the same kind and the same event. */
  lemma CanonicalDeterminesContent(cfg: Config, a: Request, b: Request)
    requires WellFormed(a) && WellFormed(b)
    requires Canonical(cfg, a).Some? && Canonical(cfg, a) == Canonical(cfg, b)
    ensures Content(a) == Content(b) && a.transferId == b.transferId && a.Kind() == b.Kind()
    ensures a.MintRequest? ==> a.deposit == b.deposit
    ensures a.UnlockRequest? ==>
              && a.burn.recipient == b.burn.recipient && a.burn.amount == b.burn.amount && a.burn.txId == b.burn.txId
              && a.burn.timestampMs / 1000 == b.burn.timestampMs / 1000
  {
    CanonicalKeepsKind(cfg, a, b);
    if a.MintRequest? {
      hide MintMessage;
      MintMessageDeterminesDeposit(a.transferId, a.deposit, cfg.dccBridgeChainId,
                                   b.transferId, b.deposit, cfg.dccBridgeChainId);
    } else {
      UnlockDeterminesContent(cfg, a, b);
    }
  }

  /** What is signed of a request: the mint text or the 140 unlock bytes, for the configured chain and window. */
  lemma {:induction false} CanonicalSays(cfg: Config, a: Request)
    ensures a.UnlockRequest? ==>
              && (Canonical(cfg, a).Some? <==>
                    && 0 <= a.burn.amount < 0x1_0000_0000_0000_0000 && 0 <= cfg.dccChainId < 0x1_0000_0000
                    && -0x8000_0000_0000_0000 <= a.burn.timestampMs / 1000 + cfg.unlockExpirySeconds
                       < 0x8000_0000_0000_0000)
              && (Canonical(cfg, a).Some? ==>
                    SaysUnlock(Canonical(cfg, a).value, a.transferId, a.burn, cfg.dccChainId, cfg.unlockExpirySeconds))
    ensures a.MintRequest? ==>
              && (Canonical(cfg, a).Some? <==> a.deposit.recipientField != [])
              && (Canonical(cfg, a).Some? ==>
                    exists r, m, s, k ::
                      && AddressOf(r, a.deposit.recipientField) && Spells(m, a.deposit.amount)
                      && Spells(s, a.deposit.slot) && Spells(k, cfg.dccBridgeChainId)
                      && Canonical(cfg, a)
                         == Some(Utf8("SOL_DCC_BRIDGE_V1|MINT|" + a.transferId + "|" + r + "|" + m + "|" + s + "|"
                                      + k)))
  {
    hide MintMessage, UnlockMessage, SaysUnlock, AddressOf, Spells, Utf8;
    match a
    case MintRequest(id, d, _) => MintMessageSays(id, d, cfg.dccBridgeChainId);
    case UnlockRequest(id, b, _) => UnlockMessageSays(id, b, cfg.dccChainId, cfg.unlockExpirySeconds);
  }

  // --------------------------------------------------------------------------
  // Quorums
  // --------------------------------------------------------------------------

  function KeySet(votes: seq<Attestation>): set<bytes> { set k | 0 <= k < |votes| :: votes[k].publicKey }

  predicate DistinctKeys(votes: seq<Attestation>) {
    forall j, k :: 0 <= j < k < |votes| ==> votes[j].publicKey != votes[k].publicKey
  }

  lemma {:induction false} KeySetSize(votes: seq<Attestation>)
    requires DistinctKeys(votes)
    ensures |KeySet(votes)| == |votes|
  {
    if votes != [] {
      var init, last := votes[..|votes| - 1], votes[|votes| - 1].publicKey;
      KeySetSize(init);
      assert KeySet(votes) == KeySet(init) + {last};
      assert last !in KeySet(init);
    }
  }

  /** The honest nodes that signed a message with their key for a kind. */
  function Signers(net: Net, kind: Kind, message: bytes): set<nat> {
    set s | s in net.signed && s.kind == kind && s.message == message :: s.node
  }

  lemma {:induction false} KeysOfNodes(ps: Params, nodes: set<nat>, kind: Kind, keys: set<bytes>)
    requires nodes <= ps.keys.Keys && keys <= (set n | n in nodes :: KeyOf(ps, n, kind))
    ensures |keys| <= |nodes|
    decreases nodes
  {
    if nodes == {} {
      assert keys == {};
    } else {
      var n :| n in nodes;
      var key := KeyOf(ps, n, kind);
      KeysOfNodes(ps, nodes - {n}, kind, keys - {key});
      assert |keys - {key}| >= |keys| - 1;
    }
  }

  /** A vote under an honest key is a signature for a request whose message it is. */
  lemma {:induction false} HonestVoteKind(ps: Params, net: Net, kind: Kind, request: Request, v: Attestation)
    requires NetInv(ps, net) && Backed(ps, net, v) && v.publicKey !in ps.faulty
    requires request.Kind() == kind && Canonical(ps.cfg, request) == Some(v.messageHash)
    ensures exists n :: n in Signers(net, kind, v.messageHash) && n in ps.keys && KeyOf(ps, n, kind) == v.publicKey
  {
    var s :| s in net.signed && s.kind == v.kind && s.publicKey == v.publicKey && s.message == v.messageHash;
    assert SignedOk(ps, net, s);
    CanonicalKeepsKind(ps.cfg, s.request, request);
    assert s.node in Signers(net, kind, v.messageHash);
  }

  lemma SignersAreNodes(ps: Params, net: Net, kind: Kind, message: bytes)
    requires NetInv(ps, net)
    ensures Signers(net, kind, message) <= ps.keys.Keys
  {
    forall n | n in Signers(net, kind, message) ensures n in ps.keys {
      var s :| s in net.signed && s.kind == kind && s.message == message && s.node == n;
      assert SignedOk(ps, net, s);
    }
  }

  /** Node n signed the message as one of this kind. */
  predicate SignedBy(net: Net, n: nat, kind: Kind, message: bytes) {
    exists s :: s in net.signed && s.node == n && s.kind == kind && s.message == message
  }

  lemma SignersSigned(net: Net, kind: Kind, message: bytes)
    ensures forall n <- Signers(net, kind, message) :: SignedBy(net, n, kind, message)
  {}

  lemma OutcomeFacts(ps: Params, net: Net, n: nat, k: nat)
    requires NetInv(ps, net) && n in net.engines && k < |net.engines[n].log| && net.engines[n].log[k].Resolved?
    ensures var o := net.engines[n].log[k].outcome;
            OutcomeOk(ps.cfg, o) && AllBacked(ps, net, o.attestations) && Finalised(net, o.request)
  {
    hide OutcomeOk, AllBacked, Finalised;
    assert Inv(net.engines[n], ps.cfg) && EngineBacked(ps, net, net.engines[n]);
  }

  lemma OutcomeShape(cfg: Config, o: Outcome)
    requires OutcomeOk(cfg, o)
    ensures o.achieved ==> o.required <= |o.attestations|
    ensures AsksFor(cfg, o.request, o.required)
    ensures DistinctKeys(o.attestations) && Canonical(cfg, o.request) == Some(o.message)
    ensures forall k :: 0 <= k < |o.attestations| ==> o.attestations[k].messageHash == o.message
  {}

  /**
   * Every round resolved as achieved, on any node at any time, rests on at least
   * `required` minus the number of faulty keys distinct honest validators, each of which
   * signed that round's message for an event the source chain had finalised.
   */
  lemma {:induction false} AchievedRestsOnHonestValidators(ps: Params, states: seq<Net>, steps: seq<Step>, i: nat,
                                                           n: nat, k: nat)
    requires Run(ps, states, steps) && i < |states| && n in states[i].engines && k < |states[i].engines[n].log|
    requires var m := states[i].engines[n].log[k]; m.Resolved? && m.outcome.achieved
    ensures var o := states[i].engines[n].log[k].outcome;
            && |Signers(states[i], o.request.Kind(), o.message)| >= o.required - |ps.faulty|
            && Finalised(states[i], o.request)
            && forall s <- Signers(states[i], o.request.Kind(), o.message) ::
                 SignedBy(states[i], s, o.request.Kind(), o.message)
    ensures var (cfg, o) := (ps.cfg, states[i].engines[n].log[k].outcome);
            AsksFor(cfg, o.request, o.required)
  {
    var net := states[i];
    hide NetInv, Run, OutcomeOk, Finalised, AllBacked, Signers, SignedBy, Canonical, DistinctKeys, RequiredFor, AsksFor;
    RunKeepsNetInv(ps, states, steps, i);
    OutcomeFacts(ps, net, n, k);
    var o := net.engines[n].log[k].outcome;
    OutcomeShape(ps.cfg, o);
    SignersSigned(net, o.request.Kind(), o.message);
    QuorumNeedsSigners(ps, net, o.request, o.message, o.attestations);
  }

  /** Votes under distinct keys on a canonical message outnumber its honest signers by at most the faulty keys. */
  lemma {:induction false} QuorumNeedsSigners(ps: Params, net: Net, request: Request, message: bytes,
                                              votes: seq<Attestation>)
    requires NetInv(ps, net) && AllBacked(ps, net, votes) && DistinctKeys(votes)
    requires Canonical(ps.cfg, request) == Some(message)
    requires forall k :: 0 <= k < |votes| ==> votes[k].messageHash == message
    ensures |Signers(net, request.Kind(), message)| >= |votes| - |ps.faulty|
  {
    hide NetInv, Canonical, Backed;
    var kind := request.Kind();
    var nodes := Signers(net, kind, message);
    SignersAreNodes(ps, net, kind, message);
    KeySetSize(votes);
    var honest := KeySet(votes) - ps.faulty;
    forall key | key in honest ensures exists n :: n in nodes && KeyOf(ps, n, kind) == key {
      var k :| 0 <= k < |votes| && votes[k].publicKey == key;
      HonestVoteKind(ps, net, kind, request, votes[k]);
    }
    assert honest <= (set n | n in nodes :: KeyOf(ps, n, kind));
    KeysOfNodes(ps, nodes, kind, honest);
    DifferenceSize(KeySet(votes), ps.faulty);
  }

  lemma {:induction false} DifferenceSize<T>(a: set<T>, b: set<T>)
    ensures |a - b| >= |a| - |b|
  {
    assert a == (a - b) + (a * b);
    assert b == (b - a) + (a * b);
    assert |a| == |a - b| + |a * b|;
    assert |b| == |b - a| + |a * b|;
  }

  /** Each honest signer of a round's message finalised an event with the round's own content. */
  lemma {:induction false} SignersFinalisedThatEvent(ps: Params, net: Net, request: Request, message: bytes, n: nat)
    requires NetInv(ps, net) && Canonical(ps.cfg, request) == Some(message)
    requires WellFormed(request) && (forall ref :: ref in net.chain ==> WellFormed(net.chain[ref]))
    requires n in Signers(net, request.Kind(), message)
    ensures RefOf(request) in net.chain && Content(net.chain[RefOf(request)]) == Content(request)
    ensures exists s :: s in net.signed && s.node == n && s.message == message
                        && Finalised(net, s.request) && Content(s.request) == Content(request)
                        && s.node in ps.keys
                        && s.publicKey == if request.MintRequest? then ps.keys[n].mint else ps.keys[n].unlock
  {
    var s :| s in net.signed && s.kind == request.Kind() && s.message == message && s.node == n;
    assert SignedOk(ps, net, s);
    assert WellFormed(net.chain[RefOf(s.request)]) && WellFormed(s.request);
    CanonicalDeterminesContent(ps.cfg, s.request, request);
    assert RefOf(s.request) == RefOf(request);
  }

  /** The local time at which a node made a request is not part of what it signs. */
  lemma CanonicalIgnoresTime(cfg: Config, r: Request)
    ensures Canonical(cfg, EventOf(r)) == Canonical(cfg, r)
  {}

  /** `message` is what a committee member signs for some event the source chain has finalised. */
  predicate SaysFinalised(ps: Params, net: Net, message: bytes) {
    exists ref :: ref in net.chain && Canonical(ps.cfg, net.chain[ref]) == Some(message)
  }

  /** A vote on a message that is none of a finalised event belongs to a faulty key. */
  lemma {:induction false} OtherMessageVotesAreFaulty(ps: Params, net: Net, v: Attestation)
    requires NetInv(ps, net) && Backed(ps, net, v)
    ensures SaysFinalised(ps, net, v.messageHash) || v.publicKey in ps.faulty
  {
    hide Canonical, Inv, EngineBacked;
    if HonestKey(ps, v.kind, v.publicKey) {
      var s :| s in net.signed && s.kind == v.kind && s.publicKey == v.publicKey && s.message == v.messageHash;
      assert SignedOk(ps, net, s);
      CanonicalIgnoresTime(ps.cfg, s.request);
      assert RefOf(s.request) in net.chain && Canonical(ps.cfg, net.chain[RefOf(s.request)]) == Some(v.messageHash);
    }
  }

  /**
   * Whatever the bytes: unless they are the message of some finalised event, attestations on
   * them under distinct keys number at most the faulty keys, in every state of every run.
   */
  lemma {:induction false} NoQuorumOnAnotherMessage(ps: Params, states: seq<Net>, steps: seq<Step>, i: nat,
                                                    message: bytes, votes: seq<Attestation>)
    requires Run(ps, states, steps) && i < |states|
    requires !SaysFinalised(ps, states[i], message)
    requires DistinctKeys(votes) && AllBacked(ps, states[i], votes)
    requires forall k :: 0 <= k < |votes| ==> votes[k].messageHash == message
    ensures |votes| <= |ps.faulty|
  {
    hide NetInv, Run, Canonical, Backed;
    RunKeepsNetInv(ps, states, steps, i);
    forall key | key in KeySet(votes) ensures key in ps.faulty {
      var k :| 0 <= k < |votes| && votes[k].publicKey == key;
      OtherMessageVotesAreFaulty(ps, states[i], votes[k]);
    }
    KeySetSize(votes);
    DifferenceSize(KeySet(votes), ps.faulty);
    assert KeySet(votes) - ps.faulty == {};
  }

  lemma {:induction false} FinalisedMessageHasContent(ps: Params, net: Net, request: Request, message: bytes)
    requires NetInv(ps, net) && Canonical(ps.cfg, request) == Some(message)
    requires WellFormed(request) && (forall ref :: ref in net.chain ==> WellFormed(net.chain[ref]))
    ensures SaysFinalised(ps, net, message) ==>
              RefOf(request) in net.chain && Content(net.chain[RefOf(request)]) == Content(request)
  {
    hide Canonical, Inv, EngineBacked, WellFormed, SignedOk, SigningOk;
    if SaysFinalised(ps, net, message) {
      var ref :| ref in net.chain && Canonical(ps.cfg, net.chain[ref]) == Some(message);
      CanonicalDeterminesContent(ps.cfg, net.chain[ref], request);
      assert ref == RefOf(net.chain[ref]) == RefOf(request);
    }
  }

  /**
   * In terms of events: no quorum forms on the canonical message of an event whose content is
   * not the one finalised for its transfer.
   */
  lemma {:induction false} NoQuorumOnAnotherContent(ps: Params, states: seq<Net>, steps: seq<Step>, i: nat,
                                                    request: Request, message: bytes, votes: seq<Attestation>)
    requires Run(ps, states, steps) && i < |states|
    requires WellFormed(request) && (forall ref :: ref in states[i].chain ==> WellFormed(states[i].chain[ref]))
    requires Canonical(ps.cfg, request) == Some(message)
    requires RefOf(request) in states[i].chain ==> Content(states[i].chain[RefOf(request)]) != Content(request)
    requires DistinctKeys(votes) && AllBacked(ps, states[i], votes)
    requires forall k :: 0 <= k < |votes| ==> votes[k].messageHash == message
    ensures |votes| <= |ps.faulty|
  {
    hide *;
    RunKeepsNetInv(ps, states, steps, i);
    FinalisedMessageHasContent(ps, states[i], request, message);
    NoQuorumOnAnotherMessage(ps, states, steps, i, message, votes);
  }

  /** Rounds achieved for one transfer, on whichever nodes, agree on the message. */
  lemma {:induction false} AchievedRoundsAgree(ps: Params, states: seq<Net>, steps: seq<Step>, i: nat,
                                               n: nat, k: nat, n': nat, k': nat)
    requires Run(ps, states, steps) && i < |states|
    requires n in states[i].engines && k < |states[i].engines[n].log| && states[i].engines[n].log[k].Resolved?
    requires n' in states[i].engines && k' < |states[i].engines[n'].log| && states[i].engines[n'].log[k'].Resolved?
    requires RefOf(states[i].engines[n].log[k].outcome.request) == RefOf(states[i].engines[n'].log[k'].outcome.request)
    ensures states[i].engines[n].log[k].outcome.message == states[i].engines[n'].log[k'].outcome.message
  {
    RunKeepsNetInv(ps, states, steps, i);
    hide NetInv, Run;
    OutcomeFacts(ps, states[i], n, k);
    OutcomeFacts(ps, states[i], n', k');
  }
}
