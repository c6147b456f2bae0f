/**
 Locks and progress: one mutex per server for the whole run, one lock per worker at a time, no
 deadlock, and a bound on the steps that the work at hand can take.
 */
module AttachProgress {
  import opened Devices
  import opened AttachProtocol

  // ----- the lock table -----

  /** Entries of nodeSync are never evicted and never change. */
  lemma {:induction false} MutexIsForever(s: State, ls: seq<Label>, srv: ServerId)
    requires Inv(s) && srv in s.nodeSync
    ensures srv in Run(s, ls).nodeSync && Run(s, ls).nodeSync[srv] == s.nodeSync[srv]
  {
    if ls != [] {
      MutexIsForever(s, ls[..|ls| - 1], srv);
      var t := Run(s, ls[..|ls| - 1]);
      var l := ls[|ls| - 1];
      if Enabled(t, l) && l.Go? {
        RunKeeps(s, ls[..|ls| - 1]);
        StepsAreLawful(t, l.w, l.reply);
      }
    }
  }

  /** Distinct servers have distinct mutexes, and a worker that asks for a lock holds none. */
  lemma LockDiscipline(s0: State, ls: seq<Label>)
    requires Init(s0)
    ensures var s := Run(s0, ls);
      && (forall a, b :: a in s.nodeSync && b in s.nodeSync && a != b ==> s.nodeSync[a] != s.nodeSync[b])
      && (forall w, m :: 0 <= w < |s.workers| && m in s.held && !Critical(s.workers[w].at) ==> s.held[m] != w)
      && (forall m, n :: m in s.held && n in s.held && s.held[m] == s.held[n] ==> m == n)
  {
    RunKeeps(s0, ls);
  }

  // ----- the measure -----

  const PerServer := 7

  ghost function Base(p: Point, serverCount: nat): nat {
    match p
    case Finished(_) => 0
    case Releasing(_) => 1
    case FinalWait => 2
    case DetachCall(_) => 3
    case AttachCall => 3
    case DetachWait(_) => 4
    case AttachWait => 5
    case DetachRead => 5
    case WantLock => 6
    case WantMutex => 7
    case PubCheck(_, _) => 8
    case UnpubReadServer => 8
    case PubReadVolume(_) => 9
    case UnpubReadVolume => 9
    case PubReadServer => 10
    case AllReadVolume => 1 + PerServer * serverCount
  }

  /** The steps a worker can still take, at most. */
  ghost function Remaining(k: Worker, serverCount: nat): nat {
    Base(k.at, serverCount) + if k.at.Finished? then 0 else PerServer * |k.rest|
  }

  ghost function Total(ks: seq<Worker>, serverCount: nat): nat {
    if ks == [] then 0 else Total(ks[..|ks| - 1], serverCount) + Remaining(ks[|ks| - 1], serverCount)
  }

  ghost function Measure(s: State): nat { Total(s.workers, |s.servers|) }

  lemma {:induction false} TotalUpdate(ks: seq<Worker>, w: WorkerId, k: Worker, n: nat)
    requires w < |ks|
    ensures Total(ks[w := k], n) + Remaining(ks[w], n) == Total(ks, n) + Remaining(k, n)
  {
    var last := |ks| - 1;
    if w == last {
      assert ks[w := k][..last] == ks[..last];
    } else {
      assert ks[w := k][..last] == ks[..last][w := k];
      TotalUpdate(ks[..last], w, k, n);
    }
  }

  lemma {:induction false} TotalPositive(ks: seq<Worker>, w: WorkerId, n: nat)
    requires w < |ks|
    ensures Remaining(ks[w], n) <= Total(ks, n)
  {
    if w < |ks| - 1 { TotalPositive(ks[..|ks| - 1], w, n); }
  }

  lemma {:induction false} ListingFits(listing: seq<ServerId>, keys: set<ServerId>)
    requires forall i, j :: 0 <= i < j < |listing| ==> listing[i] != listing[j]
    requires forall srv :: srv in listing ==> srv in keys
    ensures |listing| <= |keys|
  {
    if listing != [] {
      assert listing[0] in listing;
      forall srv | srv in listing[1..] ensures srv in keys - {listing[0]} {
        assert srv in listing;
      }
      ListingFits(listing[1..], keys - {listing[0]});
    }
  }

  lemma WorkerAdvances(s: State, w: WorkerId, k: Worker, r: Reply)
    requires Shaped(k) && GoEnabled(s, k, r)
    ensures Remaining(ChangeOf(s, w, k, r).next, |s.servers|) < Remaining(k, |s.servers|)
  {
    if k.at.AllReadVolume? && r.Answer? {
      ListingFits(r.listing, s.servers.Keys);
    }
  }

  /** Every step of a worker takes it closer to the end; other labels but Spawn leave the measure alone. */
  lemma {:induction false} StepDecreases(s: State, l: Label)
    requires Inv(s) && Enabled(s, l) && !l.Spawn?
    ensures if l.Go? then Measure(Step(s, l)) < Measure(s) else Measure(Step(s, l)) == Measure(s)
    ensures |Step(s, l).workers| == |s.workers|
    ensures Step(s, l).servers.Keys == s.servers.Keys
  {
    match l
    case Go(w, r) =>
      var c := ChangeOf(s, w, s.workers[w], r);
      assert WorkerOk(s, w);
      WorkerAdvances(s, w, s.workers[w], r);
      TotalUpdate(s.workers, w, c.next, |s.servers|);
      StepsAreLawful(s, w, r);
      SameServers(s, w, c);
    case Recover(srv) =>
      assert Step(s, l).servers.Keys == s.servers.Keys;
      assert |Step(s, l).servers| == |Step(s, l).servers.Keys| == |s.servers|;
    case Spawn(_) =>
  }

  lemma SameServers(s: State, w: WorkerId, c: Change)
    requires w < |s.workers| && (c.devices.Some? ==> s.workers[w].server in s.servers)
    ensures Apply(s, w, c).servers.Keys == s.servers.Keys
    ensures |Apply(s, w, c).servers| == |s.servers|
  {
    var t := Apply(s, w, c);
    assert t.servers.Keys == s.servers.Keys;
    assert |t.servers| == |t.servers.Keys| && |s.servers| == |s.servers.Keys|;
  }

  // ----- no deadlock -----

  ghost predicate AllFinished(s: State) {
    forall w :: 0 <= w < |s.workers| ==> s.workers[w].at.Finished?
  }

  /** What a worker can always be told, unless it is queueing for a held mutex. */
  ghost function Unblock(k: Worker): Reply {
    if k.at.WantMutex? || k.at.WantLock? || k.at.Releasing? then Plain else Refused
  }

  /**
   In every reachable state with unfinished work some worker can move, be every wait a timeout and
   every call refused: a worker is only ever blocked by a lock holder, and a lock holder is never blocked.
   */
  lemma SomeoneCanMove(s: State) returns (w: WorkerId)
    requires Inv(s) && !AllFinished(s)
    ensures w < |s.workers| && Enabled(s, Go(w, Unblock(s.workers[w])))
  {
    w :| 0 <= w < |s.workers| && !s.workers[w].at.Finished?;
    var k := s.workers[w];
    assert WorkerOk(s, w);
    if k.at.WantLock? && k.mutex in s.held {
      w := s.held[k.mutex];
      assert WorkerOk(s, w);
    }
  }

  lemma RunPrepend(s: State, l: Label, ls: seq<Label>)
    ensures Run(s, [l] + ls) == Run(Step(s, l), ls)
    decreases |ls|
  {
    if ls == [] {
      assert [l] + ls == [l] && [l][..0] == [];
    } else {
      var last := |ls| - 1;
      assert ([l] + ls)[..|ls|] == [l] + ls[..last];
      RunPrepend(s, l, ls[..last]);
    }
  }

  /** From every reachable state the RPCs in flight can be run to their ends. */
  lemma {:induction false} CanFinish(s: State) returns (ls: seq<Label>)
    requires Inv(s)
    ensures AllFinished(Run(s, ls)) && |ls| <= Measure(s)
    decreases Measure(s)
  {
    if AllFinished(s) {
      ls := [];
    } else {
      var w := SomeoneCanMove(s);
      var l := Go(w, Unblock(s.workers[w]));
      StepKeeps(s, l);
      StepDecreases(s, l);
      var rest := CanFinish(Step(s, l));
      RunPrepend(s, l, rest);
      ls := [l] + rest;
    }
  }

  /** Each label is enabled when its turn comes, and no new RPC arrives. */
  ghost predicate Genuine(s: State, ls: seq<Label>) {
    ls == [] ||
    (Genuine(s, ls[..|ls| - 1]) && Enabled(Run(s, ls[..|ls| - 1]), ls[|ls| - 1]) && !ls[|ls| - 1].Spawn?)
  }

  ghost function WorkerSteps(ls: seq<Label>): nat {
    if ls == [] then 0 else WorkerSteps(ls[..|ls| - 1]) + if ls[|ls| - 1].Go? then 1 else 0
  }

  /** However it is scheduled and however the backend answers, the work at hand ends after Measure steps. */
  lemma {:induction false} StepsAreBounded(s: State, ls: seq<Label>)
    requires Inv(s) && Genuine(s, ls)
    ensures WorkerSteps(ls) + Measure(Run(s, ls)) <= Measure(s)
  {
    if ls != [] {
      StepsAreBounded(s, ls[..|ls| - 1]);
      RunKeeps(s, ls[..|ls| - 1]);
      StepDecreases(Run(s, ls[..|ls| - 1]), ls[|ls| - 1]);
    }
  }
}
