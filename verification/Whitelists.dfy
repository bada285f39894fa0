/**
 * What the whitelist is worth. Here the network is bound by unforgeability alone: under a
 * committee key it can deliver only what that key signed, under any other key whatever
 * verifies. With proper whitelists the faulty keys are bounded by what is listed; with an
 * empty one any keys at all make up a quorum.
 */
module Whitelists {
  import opened Bytes
  import opened Options
  import opened ConsensusEngine
  import opened EngineInvariants
  import opened EngineRounds
  import opened Network
  import ProcessedSet

  predicate CommitteeKey(ps: Params, key: bytes) {
    exists n :: n in ps.keys && (key == ps.keys[n].mint || key == ps.keys[n].unlock)
  }

  predicate Unforgeable(ps: Params, net: Net, n: nat, r: Received)
    requires n in net.engines
  {
    && r.publicKey.Some? && r.messageHash.Some? && Admits(net.engines[n], ps.cfg, r)
    && CommitteeKey(ps, r.publicKey.value) ==>
      HasSigned(net, r.kind, r.publicKey.value, r.messageHash.value)
  }

  predicate OpenNext(ps: Params, net: Net, step: Step, net': Net) {
    if step.Act? && step.action.DoReceive? then
      && step.node in net.engines && step.node in net.signing && step.node in ps.keys
      && Unforgeable(ps, net, step.node, step.action.received)
      && net' == Acted(ps, net, step.node, step.action)
    else Next(ps, net, step, net')
  }

  /** A run over a network that is bound by unforgeability alone. */
  predicate OpenRun(ps: Params, states: seq<Net>, steps: seq<Step>) {
    && |states| == |steps| + 1
    && Init(ps, states[0])
    && forall i :: 0 <= i < |steps| ==> OpenNext(ps, states[i], steps[i], states[i + 1])
  }

  lemma RunLength(ps: Params, states: seq<Net>, steps: seq<Step>)
    requires OpenRun(ps, states, steps)
    ensures |states| == |steps| + 1
  {}

  // --------------------------------------------------------------------------
  // Proper whitelists
  // --------------------------------------------------------------------------

  /** Something verifies under this key. A byte string that is no key of either scheme signs nothing. */
  ghost predicate CanSign(ps: Params, key: bytes) { exists kind, m, s :: ps.cfg.verify(kind, key, m, s) }

  /** A whitelist that is in force and whose keys, as far as they can sign, are the committee's or faulty. */
  ghost predicate Listed(ps: Params, e: Engine) {
    && e.whitelist != {}
    && forall key :: Hex(key) in e.whitelist && CanSign(ps, key) ==> CommitteeKey(ps, key) || key in ps.faulty
  }

  /** Whenever a node takes an attestation in, its whitelist is proper. */
  ghost predicate ListedReceives(ps: Params, states: seq<Net>, steps: seq<Step>)
    requires |states| == |steps| + 1
  {
    forall i :: 0 <= i < |steps| && steps[i].Act? && steps[i].action.DoReceive?
                && steps[i].node in states[i].engines ==>
      Listed(ps, states[i].engines[steps[i].node])
  }

  /** Behind a proper whitelist, unforgeability already bounds who can be counted. */
  lemma {:induction false} ListedIsDeliverable(ps: Params, net: Net, n: nat, r: Received)
    requires NetInv(ps, net) && n in net.engines && Listed(ps, net.engines[n]) && Unforgeable(ps, net, n, r)
    ensures Deliverable(ps, net, n, r)
  {
    hide Inv, EngineBacked, Hex, Canonical;
    if r.publicKey.Some? && r.messageHash.Some? && Admits(net.engines[n], ps.cfg, r) {
      var key := r.publicKey.value;
      assert CanSign(ps, key);
      if CommitteeKey(ps, key) {
        var s :| s in net.signed && s.kind == r.kind && s.publicKey == key && s.message == r.messageHash.value;
        assert SignedOk(ps, net, s);
        assert HonestKey(ps, r.kind, key);
      } else {
        assert key in ps.faulty;
        assert !HonestKey(ps, r.kind, key);
      }
    }
  }

  ghost predicate OnlyDeliverable(ps: Params, net: Net, n: nat)
    requires n in net.engines
  {
    forall r :: Unforgeable(ps, net, n, r) ==> Deliverable(ps, net, n, r)
  }

  /** A key outside the committee that the whitelist lets in can be counted, unless it is one of the faulty. */
  lemma {:induction false} AdmittedOutsiderIsFaulty(ps: Params, net: Net, n: nat, key: bytes)
    requires NetInv(ps, net) && n in net.engines && OnlyDeliverable(ps, net, n)
    requires CanSign(ps, key) && !CommitteeKey(ps, key) && WhitelistAdmits(net.engines[n], key)
    ensures key in ps.faulty
  {
    hide Inv, EngineBacked, Hex, Canonical, NetInv;
    var kind, m, s :| ps.cfg.verify(kind, key, m, s);
    var r := Received(Hex(key), "", kind, Some(s), Some(key), Some(m));
    assert Unforgeable(ps, net, n, r) && Deliverable(ps, net, n, r);
    assert !HonestKey(ps, kind, key);
  }

  /**
   * While anybody outside can sign, unforgeability alone bounds whom a node can count, by the committee and
   * the faulty keys, exactly when its whitelist is in force and lists nobody else who can sign.
   */
  lemma {:induction false} WhitelistBoundsExactly(ps: Params, net: Net, n: nat, outsider: bytes)
    requires NetInv(ps, net) && n in net.engines
    requires CanSign(ps, outsider) && !CommitteeKey(ps, outsider) && outsider !in ps.faulty
    ensures OnlyDeliverable(ps, net, n) <==> Listed(ps, net.engines[n])
  {
    hide NetInv, Unforgeable, Deliverable, CommitteeKey, CanSign;
    var e := net.engines[n];
    if Listed(ps, e) {
      forall r | Unforgeable(ps, net, n, r) ensures Deliverable(ps, net, n, r) {
        ListedIsDeliverable(ps, net, n, r);
      }
    }
    if OnlyDeliverable(ps, net, n) {
      assert e.whitelist != {} by {
        if e.whitelist == {} {
          AdmittedOutsiderIsFaulty(ps, net, n, outsider);
        }
      }
      forall key | Hex(key) in e.whitelist && CanSign(ps, key) ensures CommitteeKey(ps, key) || key in ps.faulty {
        if !CommitteeKey(ps, key) {
          AdmittedOutsiderIsFaulty(ps, net, n, key);
        }
      }
    }
  }

  /** So a run over the open network in which every receiving node has a proper whitelist is a run. */
  lemma {:induction false} ListedRunIsRun(ps: Params, states: seq<Net>, steps: seq<Step>, i: nat)
    requires OpenRun(ps, states, steps) && ListedReceives(ps, states, steps) && i < |states|
    ensures Run(ps, states[..i + 1], steps[..i])
  {
    hide Init, Next, Listed, Unforgeable, NetInv;
    if i > 0 {
      var before, pre := states[..i], steps[..i - 1];
      ListedRunIsRun(ps, states, steps, i - 1);
      RunKeepsNetInv(ps, before, pre, i - 1);
      LastStepIsNext(ps, states[i - 1], steps[i - 1], states[i]);
      forall k | 0 <= k < i ensures Next(ps, states[..i + 1][k], steps[..i][k], states[..i + 1][k + 1]) {
        if k < i - 1 {
          assert Next(ps, before[k], pre[k], before[k + 1]);
        }
      }
    }
  }

  lemma {:induction false} LastStepIsNext(ps: Params, net: Net, step: Step, net': Net)
    requires NetInv(ps, net) && OpenNext(ps, net, step, net')
    requires step.Act? && step.action.DoReceive? && step.node in net.engines ==> Listed(ps, net.engines[step.node])
    ensures Next(ps, net, step, net')
  {
    hide Listed, Unforgeable, NetInv, Deliverable, Apply;
    if step.Act? && step.action.DoReceive? {
      ListedIsDeliverable(ps, net, step.node, step.action.received);
    }
  }

  /**
   * If every receiving node's whitelist is in force and lists only committee and faulty keys, every round
   * resolved as achieved rests on required minus f distinct honest validators, f being the number of
   * listed keys that are not the committee's, and on a finalised event.
   */
  lemma {:induction false} WhitelistsBoundTheFaulty(ps: Params, states: seq<Net>, steps: seq<Step>, i: nat, n: nat,
                                                    k: nat)
    requires OpenRun(ps, states, steps) && ListedReceives(ps, states, steps) && i < |states|
    requires n in states[i].engines && k < |states[i].engines[n].log|
    requires var m := states[i].engines[n].log[k]; m.Resolved? && m.outcome.achieved
    ensures var o := states[i].engines[n].log[k].outcome;
            && |Signers(states[i], o.request.Kind(), o.message)| >= o.required - |ps.faulty|
            && Finalised(states[i], o.request)
  {
    hide *;
    RunLength(ps, states, steps);
    ListedRunIsRun(ps, states, steps, i);
    AchievedRestsOnHonestValidators(ps, states[..i + 1], steps[..i], i, n, k);
  }

  // --------------------------------------------------------------------------
  // Empty whitelists
  // --------------------------------------------------------------------------

  ghost predicate NoWhitelist(net: Net) { forall n :: n in net.engines ==> net.engines[n].whitelist == {} }

  /** A key nobody knows, with its own signature. */
  datatype Outsider = Outsider(key: bytes, signature: bytes)

  ghost predicate Outsiders(ps: Params, kind: Kind, message: bytes, own: bytes, outsiders: seq<Outsider>) {
    && (forall k :: 0 <= k < |outsiders| ==>
          !CommitteeKey(ps, outsiders[k].key) && outsiders[k].key != own
          && ps.cfg.verify(kind, outsiders[k].key, message, outsiders[k].signature))
    && (forall j, k :: 0 <= j < k < |outsiders| ==> outsiders[j].key != outsiders[k].key)
  }

  function VoteOf(o: Outsider, id: string, kind: Kind, message: bytes): Received {
    Received(Hex(o.key), id, kind, Some(o.signature), Some(o.key), Some(message))
  }

  /** Node n has an open round for r that holds its own vote and those of the first k outsiders. */
  ghost predicate Collecting(ps: Params, net: Net, n: nat, r: Request, message: bytes, own: bytes,
                             outsiders: seq<Outsider>, k: nat)
  {
    && n in net.engines && n in net.signing && n in ps.keys && k <= |outsiders|
    && NoWhitelist(net) && net.signed == {Signed(n, r.Kind(), own, message, r)}
    && var e := net.engines[n];
       && Inv(e, ps.cfg) && |e.processed| <= MAX_PROCESSED_TRANSFERS && IsOpen(e, r.transferId)
       && var round := e.pending[r.transferId];
          && round.request == r && round.message == message && |round.attestations| == 1 + k
          && round.attestations[0].publicKey == own
          && forall j :: 0 <= j < k ==> round.attestations[j + 1].publicKey == outsiders[j].key
  }

  ghost predicate Achieved(net: Net, n: nat, r: Request, message: bytes) {
    && n in net.engines && net.engines[n].log != []
    && var m := net.engines[n].log[|net.engines[n].log| - 1];
       m.Resolved? && m.outcome.achieved && m.outcome.request == r && m.outcome.message == message
  }

  /** One more outsider's vote is counted. */
  lemma {:induction false} OutsiderIsCounted(ps: Params, net: Net, n: nat, r: Request, message: bytes, own: bytes,
                                             outsiders: seq<Outsider>, k: nat)
    requires Collecting(ps, net, n, r, message, own, outsiders, k) && k < |outsiders|
    requires Outsiders(ps, r.Kind(), message, own, outsiders) && RequiredFor(ps.cfg, r.Kind()) == |outsiders| + 1
    ensures var net' := Acted(ps, net, n, DoReceive(VoteOf(outsiders[k], r.transferId, r.Kind(), message)));
            && OpenNext(ps, net, Act(n, DoReceive(VoteOf(outsiders[k], r.transferId, r.Kind(), message))), net')
            && NoWhitelist(net') && net'.signed == net.signed
            && if k + 1 < |outsiders| then Collecting(ps, net', n, r, message, own, outsiders, k + 1)
               else Achieved(net', n, r, message)
  {
    hide Inv, Canonical, RequiredFor, Hex, CommitteeKey, HasSigned;
    var e := net.engines[n];
    var vote := VoteOf(outsiders[k], r.transferId, r.Kind(), message);
    var round := e.pending[r.transferId];
    forall j | 0 <= j < |round.attestations| ensures round.attestations[j].publicKey != outsiders[k].key {
      if j > 0 {
        assert round.attestations[(j - 1) + 1].publicKey == outsiders[j - 1].key;
      }
    }
    CountedExactly(e, ps.cfg, vote);
    VoteEffect(e, ps.cfg, vote);
    ReceiveKeepsInv(e, ps.cfg, vote);
    ReceiveKeepsWhitelist(e, ps.cfg, vote);
  }

  lemma ReceiveKeepsWhitelist(e: Engine, cfg: Config, r: Received)
    ensures Receive(e, cfg, r).whitelist == e.whitelist
  {
    hide Admits, Countable, RequiredFor, EvictOldest;
  }

  lemma RunGrows(ps: Params, states: seq<Net>, steps: seq<Step>, step: Step, net': Net)
    requires OpenRun(ps, states, steps) && OpenNext(ps, states[|steps|], step, net')
    ensures OpenRun(ps, states + [net'], steps + [step])
  {
    hide Init, OpenNext;
    forall i | 0 <= i < |steps| + 1
      ensures OpenNext(ps, (states + [net'])[i], (steps + [step])[i], (states + [net'])[i + 1])
    {
      if i < |steps| {
        assert OpenNext(ps, states[i], steps[i], states[i + 1]);
      }
    }
  }

  ghost predicate AllBare(states: seq<Net>) { forall i :: 0 <= i < |states| ==> NoWhitelist(states[i]) }

  /** A run without whitelists whose last state has an achieved round with one honest signer. */
  ghost predicate OneSignerRun(ps: Params, start: Net, n: nat, r: Request, message: bytes, states: seq<Net>,
                               steps: seq<Step>) {
    && OpenRun(ps, states, steps) && states[0] == start && AllBare(states)
    && Achieved(states[|steps|], n, r, message) && Signers(states[|steps|], r.Kind(), message) == {n}
  }

  lemma {:induction false} OutsidersFillTheRound(ps: Params, states: seq<Net>, steps: seq<Step>, n: nat, r: Request,
                                                 message: bytes, own: bytes, outsiders: seq<Outsider>, k: nat)
    requires OpenRun(ps, states, steps) && AllBare(states)
    requires Collecting(ps, states[|steps|], n, r, message, own, outsiders, k) && k < |outsiders|
    requires Outsiders(ps, r.Kind(), message, own, outsiders) && RequiredFor(ps.cfg, r.Kind()) == |outsiders| + 1
    ensures exists states', steps' :: OneSignerRun(ps, states[0], n, r, message, states', steps')
    decreases |outsiders| - k
  {
    hide Collecting, OpenRun, OpenNext, Outsiders, Acted, Achieved, RequiredFor, NoWhitelist;
    RunLength(ps, states, steps);
    var step := Act(n, DoReceive(VoteOf(outsiders[k], r.transferId, r.Kind(), message)));
    var last := states[|steps|];
    CollectingNodes(ps, last, n, r, message, own, outsiders, k);
    var net' := Acted(ps, last, n, step.action);
    OutsiderIsCounted(ps, last, n, r, message, own, outsiders, k);
    RunGrows(ps, states, steps, step, net');
    if k + 1 < |outsiders| {
      OutsidersFillTheRound(ps, states + [net'], steps + [step], n, r, message, own, outsiders, k + 1);
    } else {
      OneSigner(net', n, r.Kind(), own, message, r);
      assert OneSignerRun(ps, states[0], n, r, message, states + [net'], steps + [step]);
    }
  }

  lemma CollectingNodes(ps: Params, net: Net, n: nat, r: Request, message: bytes, own: bytes, outsiders: seq<Outsider>,
                        k: nat)
    requires Collecting(ps, net, n, r, message, own, outsiders, k)
    ensures n in net.engines && n in net.signing && net.signed == {Signed(n, r.Kind(), own, message, r)}
  {}

  lemma OneSigner(net: Net, n: nat, kind: Kind, own: bytes, message: bytes, r: Request)
    requires net.signed == {Signed(n, kind, own, message, r)}
    ensures Signers(net, kind, message) == {n}
  {
    assert Signed(n, kind, own, message, r) in net.signed;
  }

  /** From the start: the event is finalised, node n proposes it and finishes its proposal. */
  lemma {:induction false} ProposalOpensRound(ps: Params, net0: Net, n: nat, r: Request, message: bytes,
                                              signature: bytes, outsiders: seq<Outsider>)
    requires Init(ps, net0) && n in ps.keys && r.transferId !in net0.engines[n].processed
    requires Canonical(ps.cfg, r) == Some(message) && RequiredFor(ps.cfg, r.Kind()) >= 2
    ensures var (p, own) := (Proposal(r, message), KeyOf(ps, n, r.Kind()));
            var net1 := net0.(chain := net0.chain[RefOf(r) := EventOf(r)]);
            var net2 := net1.(signing := net1.signing[n := net1.signing[n] + {p}],
                              signed := net1.signed + {Signed(n, r.Kind(), own, message, r)});
            var net3 := Acted(ps, net2, n, DoFinish(p, signature, own));
            && OpenNext(ps, net0, Finalise(r), net1) && OpenNext(ps, net1, Propose(n, r), net2)
            && OpenNext(ps, net2, Act(n, DoFinish(p, signature, own)), net3)
            && NoWhitelist(net0) && NoWhitelist(net1) && NoWhitelist(net2) && NoWhitelist(net3)
            && Collecting(ps, net3, n, r, message, own, outsiders, 0)
  {
    hide Canonical, RequiredFor, Hex, Load, Inv;
    var e := net0.engines[n];
    var p, own := Proposal(r, message), KeyOf(ps, n, r.Kind());
    InitialEngine(e, ps.cfg);
    FinishKeepsInv(e, ps.cfg, p, signature, own);
    FinishOpens(e, ps.cfg, p, signature, own);
  }

  lemma InitialEngine(e: Engine, cfg: Config)
    requires e == Initial(e.disk)
    ensures Inv(e, cfg) && e.whitelist == {} && e.pending == map[] && |e.processed| <= MAX_PROCESSED_TRANSFERS
  {
    hide Load;
    ProcessedSet.LoadIsBounded(e.disk);
  }

  lemma FinishOpens(e: Engine, cfg: Config, p: Proposal, signature: bytes, publicKey: bytes)
    requires RequiredFor(cfg, p.request.Kind()) >= 2
    ensures var e' := Finish(e, cfg, p, signature, publicKey);
            && e'.whitelist == e.whitelist && e'.processed == e.processed && IsOpen(e', p.request.transferId)
            && e'.pending[p.request.transferId]
               == Round(p.request, [LocalAttestation(p, signature, publicKey)], p.message, false, e.serials)
  {
    hide Hex, RequiredFor;
  }

  /**
   * With whitelists never filled, as many fresh keys as the threshold asks for less one let a single
   * honest validator's proposal be achieved: from every initial state there is a run, never breaking
   * unforgeability, that ends with the round achieved and that validator as the only honest signer.
   */
  lemma {:induction false} EmptyWhitelistAchievesAlone(ps: Params, net0: Net, n: nat, r: Request,
                                                       message: bytes, signature: bytes, outsiders: seq<Outsider>)
    requires Init(ps, net0) && n in ps.keys && r.transferId !in net0.engines[n].processed
    requires Canonical(ps.cfg, r) == Some(message)
    requires RequiredFor(ps.cfg, r.Kind()) == |outsiders| + 1 >= 2
    requires Outsiders(ps, r.Kind(), message, KeyOf(ps, n, r.Kind()), outsiders)
    ensures exists states, steps :: OneSignerRun(ps, net0, n, r, message, states, steps)
  {
    var p, own := Proposal(r, message), KeyOf(ps, n, r.Kind());
    var net1 := net0.(chain := net0.chain[RefOf(r) := EventOf(r)]);
    var net2 := net1.(signing := net1.signing[n := net1.signing[n] + {p}],
                      signed := net1.signed + {Signed(n, r.Kind(), own, message, r)});
    var net3 := Acted(ps, net2, n, DoFinish(p, signature, own));
    ProposalOpensRound(ps, net0, n, r, message, signature, outsiders);
    hide *;
    ThreeSteps(ps, net0, Finalise(r), net1, Propose(n, r), net2, Act(n, DoFinish(p, signature, own)), net3);
    OutsidersFillTheRound(ps, [net0, net1, net2, net3],
                          [Finalise(r), Propose(n, r), Act(n, DoFinish(p, signature, own))],
                          n, r, message, own, outsiders, 0);
  }

  lemma ThreeSteps(ps: Params, net0: Net, s0: Step, net1: Net, s1: Step, net2: Net, s2: Step, net3: Net)
    requires Init(ps, net0) && OpenNext(ps, net0, s0, net1) && OpenNext(ps, net1, s1, net2)
             && OpenNext(ps, net2, s2, net3)
    requires NoWhitelist(net0) && NoWhitelist(net1) && NoWhitelist(net2) && NoWhitelist(net3)
    ensures OpenRun(ps, [net0, net1, net2, net3], [s0, s1, s2]) && AllBare([net0, net1, net2, net3])
  {
    hide Init, OpenNext, NoWhitelist;
  }
}
