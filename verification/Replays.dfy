/**
 * Replay protection over network runs: while a transfer is in a node's processed set the node
 * takes up no proposal for it, and the set holds on to it through whatever else happens.
 */
module Replays {
  import opened ConsensusEngine
  import ProcessedSet
  import opened EngineInvariants
  import opened Network

  /** What node n itself does in a run, in order. */
  function NodeRun(n: nat, steps: seq<Step>): seq<Action> {
    if steps == [] then []
    else
      var last := steps[|steps| - 1];
      NodeRun(n, steps[..|steps| - 1]) + if last.Act? && last.node == n then [last.action] else []
  }

  lemma {:induction false} ExecSnoc(e: Engine, cfg: Config, run: seq<Action>, a: Action)
    ensures Exec(e, cfg, run + [a]) == Apply(Exec(e, cfg, run), cfg, a)
    decreases run
  {
    hide Apply;
    if run == [] {
      assert run + [a] == [a] && [a][1..] == [];
    } else {
      assert (run + [a])[1..] == run[1..] + [a];
      ExecSnoc(Apply(e, cfg, run[0]), cfg, run[1..], a);
    }
  }

  lemma {:induction false} MarkCountSnoc(run: seq<Action>, a: Action)
    ensures MarkCount(run + [a]) == MarkCount(run) + if a.DoMark? then 1 else 0
    decreases run
  {
    if run == [] {
      assert run + [a] == [a] && [a][1..] == [];
    } else {
      assert (run + [a])[1..] == run[1..] + [a];
      MarkCountSnoc(run[1..], a);
    }
  }

  lemma ExecNothing(e: Engine, cfg: Config)
    ensures Exec(e, cfg, []) == e
  {}

  lemma StepOfRun(ps: Params, states: seq<Net>, steps: seq<Step>, k: nat)
    requires Run(ps, states, steps) && k < |steps|
    ensures |states| == |steps| + 1 && Next(ps, states[k], steps[k], states[k + 1])
  {
    hide Next, Init;
  }

  lemma StepOfNode(ps: Params, net: Net, step: Step, net': Net, n: nat)
    requires Next(ps, net, step, net') && n in net.engines
    ensures n in net'.engines
    ensures net'.engines[n] == if step.Act? && step.node == n then Apply(net.engines[n], ps.cfg, step.action)
                               else net.engines[n]
  {
    hide Apply, NodeEnabled, Start, Finalised;
  }

  /** A node's engine is where its own actions have brought it. */
  lemma {:induction false} EngineFollowsItsActions(ps: Params, states: seq<Net>, steps: seq<Step>, i: nat, j: nat,
                                                   n: nat)
    requires |states| == |steps| + 1 && Run(ps, states, steps) && i <= j < |states| && n in states[i].engines
    ensures n in states[j].engines
    ensures states[j].engines[n] == Exec(states[i].engines[n], ps.cfg, NodeRun(n, steps[i..j]))
    decreases j - i
  {
    hide Run, Next, Apply, Exec;
    if i == j {
      ExecNothing(states[i].engines[n], ps.cfg);
    } else {
      EngineFollowsItsActions(ps, states, steps, i, j - 1, n);
      StepOfRun(ps, states, steps, j - 1);
      StepOfNode(ps, states[j - 1], steps[j - 1], states[j], n);
      assert steps[i..j][..j - i - 1] == steps[i..j - 1];
      if steps[j - 1].Act? && steps[j - 1].node == n {
        ExecSnoc(states[i].engines[n], ps.cfg, NodeRun(n, steps[i..j - 1]), steps[j - 1].action);
      } else {
        assert NodeRun(n, steps[i..j]) == NodeRun(n, steps[i..j - 1]);
      }
    }
  }

  /** Along these actions the id at position j of the processed set stays in it. */
  predicate Remembered(e: Engine, j: nat, run: seq<Action>) {
    && QueueOk(e) && Load(e.disk) == e.processed && DiskWorks(e, run) && NoEmptyMark(run)
    && j < |e.processed| && |e.processed| - 1 - j + MarkCount(run) < 100_000
  }

  lemma RememberedStays(e: Engine, cfg: Config, run: seq<Action>, j: nat)
    requires Remembered(e, j, run)
    ensures j < |e.processed| && e.processed[j] in Exec(e, cfg, run).processed
  {
    hide QueueOk, Load, Exec;
    ProcessedIdStays(e, cfg, run, j);
  }

  lemma {:induction false} RememberedBefore(e: Engine, j: nat, run: seq<Action>, a: Action)
    requires Remembered(e, j, run + [a])
    ensures Remembered(e, j, run)
  {
    hide QueueOk, Load;
    MarkCountSnoc(run, a);
    forall i | 0 <= i < |run| && run[i].DoMark? ensures run[i].transferId != "" {
      assert (run + [a])[i] == run[i];
    }
  }

  lemma ShorterIsRemembered(e: Engine, j: nat, n: nat, steps: seq<Step>)
    requires steps != [] && Remembered(e, j, NodeRun(n, steps))
    ensures Remembered(e, j, NodeRun(n, steps[..|steps| - 1]))
  {
    hide Remembered;
    var last, before := steps[|steps| - 1], NodeRun(n, steps[..|steps| - 1]);
    if last.Act? && last.node == n {
      RememberedBefore(e, j, before, last.action);
    } else {
      assert NodeRun(n, steps) == before;
    }
  }

  /** No proposal for this transfer is under way on node n, and no round is stored for it. */
  predicate Idle(net: Net, n: nat, id: string) {
    n in net.engines && n in net.signing && id !in net.engines[n].pending
    && forall p <- net.signing[n] :: p.request.transferId != id
  }

  lemma {:induction false} ProcessedStepStartsNothing(ps: Params, net: Net, step: Step, net': Net, n: nat, id: string)
    requires Next(ps, net, step, net') && n in net.engines && n in net.signing && id in net.engines[n].processed
    ensures n in net'.signing
    ensures forall p <- net'.signing[n] :: p.request.transferId == id ==> p in net.signing[n]
    ensures Idle(net, n, id) ==> Idle(net', n, id)
  {
    hide Canonical, Inv, Deliverable, Apply, Start;
    if step.Propose? && step.node == n {
      ProcessedSet.ProcessedCannotStart(net.engines[n], ps.cfg, step.request);
      StartIsCanonical(net.engines[n], ps.cfg, step.request);
    }
    if Idle(net, n, id) && step.Act? && step.node == n {
      PendingGrowsByFinish(net.engines[n], ps.cfg, step.action, id);
    }
  }

  lemma PendingGrowsByFinish(e: Engine, cfg: Config, a: Action, id: string)
    requires id !in e.pending && !(a.DoFinish? && a.proposal.request.transferId == id)
    ensures id !in Apply(e, cfg, a).pending
  {
    hide Canonical, RequiredFor, Admits, Countable, Load, EvictOldest, Mark, Persist;
  }

  /**
   * Once a transfer is processed on a node, then through restarts, timeouts, resolutions and fewer than
   * 100,000 marks over a working disk: it stays processed, the node takes up no proposal for it beyond
   * those already waiting for a signature, and if there were none it opens no round for it.
   */
  lemma {:induction false} ProcessedTransferIsNotReplayed(ps: Params, states: seq<Net>, steps: seq<Step>, i: nat,
                                                          j: nat, n: nat, position: nat)
    requires |states| == |steps| + 1 && Run(ps, states, steps) && i <= j < |states| && n in states[i].engines
    requires Remembered(states[i].engines[n], position, NodeRun(n, steps[i..j]))
    ensures var id := states[i].engines[n].processed[position];
            && n in states[j].engines && n in states[i].signing && n in states[j].signing
            && id in states[j].engines[n].processed
            && (forall p <- states[j].signing[n] :: p.request.transferId == id ==> p in states[i].signing[n])
            && (Idle(states[i], n, id) ==> Idle(states[j], n, id))
    decreases j - i
  {
    hide Run, Next, Apply, Exec, NetInv, Init, Remembered, QueueOk, Load, Idle, MarkCount;
    var e := states[i].engines[n];
    RememberedStays(e, ps.cfg, NodeRun(n, steps[i..j]), position);
    var id := e.processed[position];
    EngineFollowsItsActions(ps, states, steps, i, j, n);
    NodesStay(ps, states, steps, i);
    NodesStay(ps, states, steps, j);
    if i < j {
      assert steps[i..j][..j - i - 1] == steps[i..j - 1];
      ShorterIsRemembered(e, position, n, steps[i..j]);
      ProcessedTransferIsNotReplayed(ps, states, steps, i, j - 1, n, position);
      StepOfRun(ps, states, steps, j - 1);
      ProcessedStepStartsNothing(ps, states[j - 1], steps[j - 1], states[j], n, id);
    }
  }

  lemma NodesStay(ps: Params, states: seq<Net>, steps: seq<Step>, i: nat)
    requires Run(ps, states, steps) && i < |states|
    ensures states[i].engines.Keys == states[i].signing.Keys
  {
    hide Run;
    RunKeepsNetInv(ps, states, steps, i);
  }
}
