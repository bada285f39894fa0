/**
 * The set of processed transfers: an insertion-ordered queue of bounded size that
 * survives a restart, and the one id that breaks the bound.
 */
module ProcessedSet {
  import opened ConsensusEngine
  import opened Options

  predicate NoDup(p: seq<string>) { forall i, j :: 0 <= i < j < |p| ==> p[i] != p[j] }

  /** The set after marking the ids one by one. */
  function MarkAll(p: seq<string>, ids: seq<string>): seq<string>
    decreases ids
  {
    if ids == [] then p else MarkAll(Mark(p, ids[0]), ids[1..])
  }

  /** Marking appends at the end, removes at the front if anywhere, and never duplicates. */
  lemma MarkIsQueue(p: seq<string>, id: string)
    requires NoDup(p)
    ensures NoDup(Mark(p, id))
    ensures id in p || Mark(p, id) == p + [id] || (|p| >= 100_000 && Mark(p, id) == p[1..] + [id])
    ensures id in p ==> Mark(p, id) == p || Mark(p, id) == p[1..]
  {
    if id !in p && |p| >= 100_000 {
      assert (p + [id])[1..] == p[1..] + [id];
    }
  }

  /** The bound survives a mark exactly unless a new id meets a full set headed by the empty id. */
  lemma BoundKeptExactly(p: seq<string>, id: string)
    requires |p| <= 100_000
    ensures |Mark(p, id)| <= 100_000
       <==> !(|p| == 100_000 && id !in p && p[0] == "")
  {}

  /** With no empty id the set stays bounded and free of duplicates along every run. */
  lemma {:induction false} RunStaysBounded(p: seq<string>, ids: seq<string>)
    requires NoDup(p) && |p| <= 100_000 && "" !in p && "" !in ids
    ensures NoDup(MarkAll(p, ids)) && |MarkAll(p, ids)| <= 100_000 && "" !in MarkAll(p, ids)
    decreases ids
  {
    if ids != [] {
      MarkIsQueue(p, ids[0]);
      RunStaysBounded(Mark(p, ids[0]), ids[1..]);
    }
  }

  /** Once the empty id is the oldest entry of a full set, nothing ever leaves it. */
  lemma {:induction false} EmptyIdStopsEviction(p: seq<string>, ids: seq<string>)
    requires p != [] && p[0] == "" && NoDup(p + ids)
    ensures MarkAll(p, ids) == p + ids
    decreases ids
  {
    if ids == [] {
      assert p + ids == p;
    } else {
      assert ids[0] !in p by {
        forall i | 0 <= i < |p| ensures p[i] != ids[0] {
          assert (p + ids)[i] == p[i] && (p + ids)[|p|] == ids[0];
        }
      }
      assert p + ids == (p + [ids[0]]) + ids[1..];
      EmptyIdStopsEviction(p + [ids[0]], ids[1..]);
    }
  }

  /** The newest ids of a list, up to the cap. */
  function Newest(p: seq<string>): seq<string> {
    if |p| > 100_000 then p[|p| - 100_000..] else p
  }

  /** Marking fresh non-empty ids keeps exactly the newest 100,000 of all, in order. */
  lemma {:induction false} MarksKeepNewest(p: seq<string>, ids: seq<string>)
    requires NoDup(p + ids) && "" !in p + ids && |p| <= 100_000
    ensures MarkAll(p, ids) == Newest(p + ids)
    decreases ids
  {
    if ids == [] {
      assert p + ids == p;
    } else {
      assert ids[0] !in p by {
        forall i | 0 <= i < |p| ensures p[i] != ids[0] {
          assert (p + ids)[i] == p[i] && (p + ids)[|p|] == ids[0];
        }
      }
      var all := p + ids;
      var added := p + [ids[0]];
      assert all == added + ids[1..];
      if |p| == 100_000 {
        assert added[0] == all[0] != "";
        assert all[1..] == added[1..] + ids[1..];
        assert forall i, j :: 0 <= i < j < |all[1..]| ==> all[1..][i] != all[1..][j];
        MarksKeepNewest(added[1..], ids[1..]);
      } else {
        MarksKeepNewest(added, ids[1..]);
      }
    }
  }

  lemma {:induction false} AddAllNoDup(p: seq<string>, ids: seq<string>)
    requires NoDup(p)
    ensures NoDup(AddAll(p, ids)) && |AddAll(p, ids)| <= |p| + |ids|
    decreases ids
  {
    if ids != [] {
      AddAllNoDup(Add(p, ids[0]), ids[1..]);
    }
  }

  lemma {:induction false} AddAllFresh(p: seq<string>, ids: seq<string>)
    requires NoDup(p + ids)
    ensures AddAll(p, ids) == p + ids
    decreases ids
  {
    if ids == [] {
      assert p + ids == p;
    } else {
      assert ids[0] !in p by {
        forall i | 0 <= i < |p| ensures p[i] != ids[0] {
          assert (p + ids)[i] == p[i] && (p + ids)[|p|] == ids[0];
        }
      }
      assert p + ids == (p + [ids[0]]) + ids[1..];
      AddAllFresh(p + [ids[0]], ids[1..]);
    }
  }

  /** Saving then loading restores the same ordered set exactly when it is a set within the bound. */
  lemma LoadRestoresExactly(p: seq<string>)
    ensures Load(p) == p <==> NoDup(p) && |p| <= 100_000
  {
    var none: seq<string> := [];
    var kept := if |p| > 100_000 then p[|p| - 100_000..] else p;
    AddAllNoDup(none, kept);
    if NoDup(p) && |p| <= 100_000 {
      assert none + p == p;
      AddAllFresh(none, p);
    }
  }

  lemma {:induction false} AddAllHolds(p: seq<string>, ids: seq<string>, x: string)
    ensures x in AddAll(p, ids) <==> x in p || x in ids
    decreases ids
  {
    if ids != [] {
      AddAllHolds(Add(p, ids[0]), ids[1..], x);
      assert x in ids <==> x == ids[0] || x in ids[1..];
    }
  }

  /** What is loaded is what the last 100,000 entries of the file hold, in order when none is repeated. */
  lemma {:induction false} LoadKeepsMostRecent(file: seq<string>, x: string)
    ensures var recent := if |file| > 100_000 then file[|file| - 100_000..] else file;
            (x in Load(file) <==> x in recent) && (NoDup(recent) ==> Load(file) == recent)
  {
    var recent := if |file| > 100_000 then file[|file| - 100_000..] else file;
    var none: seq<string> := [];
    AddAllHolds(none, recent, x);
    if NoDup(recent) {
      assert none + recent == recent;
      AddAllFresh(none, recent);
    }
  }

  /** Whatever the file holds, a fresh engine starts with a bounded, duplicate-free set. */
  lemma LoadIsBounded(file: seq<string>)
    ensures NoDup(Load(file)) && |Load(file)| <= 100_000
  {
    AddAllNoDup([], if |file| > 100_000 then file[|file| - 100_000..] else file);
  }

  /** Within the bound, resolving a round never evicts: the second eviction site is idle. */
  lemma ResolvingNeverEvicts(e: Engine, cfg: Config, id: string)
    requires |e.processed| <= 100_000
    ensures CheckConsensus(e, cfg, id).processed == e.processed
  {}

  /** A transfer that is in the set, or already has a round, cannot start a proposal; any other can. */
  lemma ProcessedCannotStart(e: Engine, cfg: Config, r: Request)
    ensures Start(e, cfg, r).Some?
       <==> r.transferId !in e.processed && r.transferId !in e.pending && Canonical(cfg, r).Some?
    ensures Start(e, cfg, r).Some? ==>
              Start(e, cfg, r).value.request == r && Some(Start(e, cfg, r).value.message) == Canonical(cfg, r)
  {}
}
