/**
 Hydrate's singleflight and its bounded pool. Any number of callers run at once,
 one step at a time: the first for a path leads the fetch, later ones wait for the
 leader's result, and a leader fetches only while it holds one of the pool's slots.
 */
module Hydration {
  import opened Options

  type Path = string
  type Caller = nat

  datatype Outcome = Done | Failed(reason: nat) | Cancelled

  /** Where one call of Hydrate stands. `shared` names the leader whose result was returned. */
  datatype Phase =
    | Reading(path: Path)
    | Wanting(path: Path)
    | Waiting(path: Path, leader: Caller)
    | Queued(path: Path)
    | Fetching(path: Path)
    | Fetched(path: Path, result: Outcome)
    | Recorded(path: Path, result: Outcome)
    | Unlisted(path: Path, result: Outcome)
    | Returned(path: Path, result: Outcome, shared: Option<Caller>)

  /** inflight maps a path to its leader; results and closed are the two halves of a shared fetch. */
  datatype State = State(
    callers: map<Caller, Phase>, inflight: map<Path, Caller>, results: map<Caller, Outcome>, closed: set<Caller>,
    slots: nat, workers: nat)

  const DEFAULT_WORKERS := 8

  function New(workers: int): State {
    State(map[], map[], map[], {}, 0, if workers <= 0 then DEFAULT_WORKERS else workers)
  }

  datatype Step =
    | Begin(t: Caller, path: Path)
    | ReadMarker(t: Caller, present: bool)
    | Enter(t: Caller)
    | TakeShared(t: Caller)
    | GiveUp(t: Caller)
    | Acquire(t: Caller)
    | FetchEnds(t: Caller, result: Outcome)
    | Release(t: Caller)
    | Unlist(t: Caller)
    | Close(t: Caller)

  predicate Enabled(s: State, e: Step) {
    if e.Begin? then e.t !in s.callers else
    e.t in s.callers && var c := s.callers[e.t];
    match e
    case ReadMarker(_, _) => c.Reading?
    case Enter(_) => c.Wanting?
    case TakeShared(_) => c.Waiting? && c.leader in s.closed && c.leader in s.results
    case GiveUp(_) => c.Waiting? || c.Queued?
    case Acquire(_) => c.Queued? && s.slots < s.workers
    case FetchEnds(_, _) => c.Fetching?
    case Release(_) => c.Fetched? && s.slots > 0
    case Unlist(_) => c.Recorded?
    case Close(_) => c.Unlisted?
  }

  function Next(s: State, e: Step): State
    requires Enabled(s, e)
  {
    match e
    case Begin(t, path) => s.(callers := s.callers[t := Reading(path)])
    case ReadMarker(t, present) =>
      var p := s.callers[t].path;
      s.(callers := s.callers[t := if present then Wanting(p) else Returned(p, Done, None)])
    case Enter(t) =>
      var p := s.callers[t].path;
      if p in s.inflight then s.(callers := s.callers[t := Waiting(p, s.inflight[p])])
      else s.(callers := s.callers[t := Queued(p)], inflight := s.inflight[p := t])
    case TakeShared(t) =>
      var c := s.callers[t];
      s.(callers := s.callers[t := Returned(c.path, s.results[c.leader], Some(c.leader))])
    case GiveUp(t) =>
      var c := s.callers[t];
      if c.Waiting? then s.(callers := s.callers[t := Returned(c.path, Cancelled, None)])
      else s.(callers := s.callers[t := Recorded(c.path, Cancelled)], results := s.results[t := Cancelled])
    case Acquire(t) => s.(callers := s.callers[t := Fetching(s.callers[t].path)], slots := s.slots + 1)
    case FetchEnds(t, r) => s.(callers := s.callers[t := Fetched(s.callers[t].path, r)])
    case Release(t) =>
      var c := s.callers[t];
      s.(callers := s.callers[t := Recorded(c.path, c.result)], results := s.results[t := c.result], slots := s.slots - 1)
    case Unlist(t) =>
      var c := s.callers[t];
      s.(callers := s.callers[t := Unlisted(c.path, c.result)], inflight := s.inflight - {c.path})
    case Close(t) =>
      var c := s.callers[t];
      s.(callers := s.callers[t := Returned(c.path, c.result, None)], closed := s.closed + {t})
  }

  // ------------------------------------------------------------ what every step keeps

  /** Between registering and deleting. */
  predicate Listed(c: Phase) { c.Queued? || c.Fetching? || c.Fetched? || c.Recorded? }

  /** Holding a slot. */
  predicate InPool(c: Phase) { c.Fetching? || c.Fetched? }

  ghost function Pool(s: State): set<Caller> { set t | t in s.callers && InPool(s.callers[t]) }

  /** What is known of one caller, by where it stands. */
  ghost predicate CallerOk(s: State, t: Caller)
    requires t in s.callers
  {
    var c := s.callers[t];
    && (Listed(c) ==> c.path in s.inflight && s.inflight[c.path] == t)
    && (c.Waiting? ==> LedBy(s, c.leader, c.path))
    && (c.Recorded? || c.Unlisted? ==> t in s.results && s.results[t] == c.result && t !in s.closed)
    && (c.Returned? ==> t in s.results ==> t in s.closed && s.results[t] == c.result)
    && (c.Returned? && c.shared.Some? ==> t !in s.results && SharedOk(s, c))
    && (c.Reading? || c.Wanting? || c.Waiting? || c.Queued? || InPool(c) ==> t !in s.results)
    && (t in s.closed ==> c.Returned? && t in s.results)
  }

  /** Someone who leads a fetch of the path and has yet to finish, or has closed it. */
  ghost predicate LedBy(s: State, l: Caller, p: Path) {
    l in s.callers && s.callers[l].path == p && (Listed(s.callers[l]) || s.callers[l].Unlisted? || l in s.closed)
  }

  /** A shared result is the leader's own, final one. */
  ghost predicate SharedOk(s: State, c: Phase)
    requires c.Returned? && c.shared.Some?
  {
    var l := c.shared.value;
    l in s.closed && l in s.callers && s.callers[l] == Returned(c.path, c.result, None)
  }

  ghost predicate InflightOk(s: State, p: Path)
    requires p in s.inflight
  {
    s.inflight[p] in s.callers && Listed(s.callers[s.inflight[p]]) && s.callers[s.inflight[p]].path == p
  }

  ghost predicate Inv(s: State) {
    && s.workers > 0 && s.slots == |Pool(s)| <= s.workers
    && (forall t :: t in s.callers ==> CallerOk(s, t))
    && (forall p :: p in s.inflight ==> InflightOk(s, p))
    && (forall t :: t in s.closed || t in s.results ==> t in s.callers)
  }

  ghost predicate CallersOk(s: State) { forall t :: t in s.callers ==> CallerOk(s, t) }
  ghost predicate PathsOk(s: State) { forall p :: p in s.inflight ==> InflightOk(s, p) }

  /** A closed leader has returned on its own account. */
  lemma ClosedReturned(s: State, l: Caller)
    requires Inv(s) && l in s.closed
    ensures l in s.callers && s.callers[l].Returned? && s.callers[l].shared.None? && l in s.results
    ensures s.results[l] == s.callers[l].result
  {
    assert CallerOk(s, l);
  }

  lemma PathsKept(s: State, e: Step)
    requires Inv(s) && Enabled(s, e)
    ensures PathsOk(Next(s, e))
  {
    var n := Next(s, e);
    if !e.Begin? { assert CallerOk(s, e.t); }
    forall p | p in n.inflight ensures InflightOk(n, p) {
      if p in s.inflight { assert InflightOk(s, p); }
    }
  }

  /** Whoever led a path to someone's waiting still does, or has closed. */
  lemma StillLed(s: State, e: Step, l: Caller, p: Path)
    requires Inv(s) && Enabled(s, e) && LedBy(s, l, p)
    ensures LedBy(Next(s, e), l, p)
  {
    assert CallerOk(s, l);
    if l in s.closed { ClosedReturned(s, l); }
  }

  /** A caller other than the one stepping: its own phase is as it was. */
  lemma OthersKept(s: State, e: Step, u: Caller)
    requires Inv(s) && Enabled(s, e) && u in s.callers && u != e.t
    ensures u in Next(s, e).callers && CallerOk(Next(s, e), u)
  {
    var n, c := Next(s, e), s.callers[u];
    assert CallerOk(s, u);
    assert n.callers[u] == c;
    if c.Waiting? { StillLed(s, e, c.leader, c.path); }
    if c.Returned? && c.shared.Some? { ClosedReturned(s, c.shared.value); }
    if !e.Begin? { assert CallerOk(s, e.t); }
  }

  lemma EnterOk(s: State, e: Step)
    requires Inv(s) && Enabled(s, e) && e.Enter?
    ensures CallerOk(Next(s, e), e.t)
  {
    assert CallerOk(s, e.t);
    var p := s.callers[e.t].path;
    if p in s.inflight { assert InflightOk(s, p); }
  }

  lemma ShareOk(s: State, e: Step)
    requires Inv(s) && Enabled(s, e) && e.TakeShared?
    ensures CallerOk(Next(s, e), e.t)
  {
    assert CallerOk(s, e.t);
    ClosedReturned(s, s.callers[e.t].leader);
  }

  lemma OwnStepOk(s: State, e: Step)
    requires Inv(s) && Enabled(s, e) && !e.Enter? && !e.TakeShared?
    ensures CallerOk(Next(s, e), e.t)
  {
    if !e.Begin? { assert CallerOk(s, e.t); }
  }

  lemma CallersKept(s: State, e: Step)
    requires Inv(s) && Enabled(s, e)
    ensures CallersOk(Next(s, e))
  {
    var n := Next(s, e);
    forall u | u in n.callers ensures CallerOk(n, u) {
      if u != e.t {
        OthersKept(s, e, u);
      } else if e.Enter? {
        EnterOk(s, e);
      } else if e.TakeShared? {
        ShareOk(s, e);
      } else {
        OwnStepOk(s, e);
      }
    }
  }

  lemma PoolMember(s: State, e: Step, u: Caller)
    requires Enabled(s, e)
    ensures u != e.t ==> (u in Pool(Next(s, e)) <==> u in Pool(s))
    ensures e.t in Pool(Next(s, e)) <==> e.Acquire? || e.FetchEnds?
    ensures e.t in Pool(s) <==> e.FetchEnds? || e.Release?
  {
    var n := Next(s, e);
    if u != e.t { assert (u in n.callers <==> u in s.callers) && (u in s.callers ==> n.callers[u] == s.callers[u]); }
    assert e.t in n.callers && (InPool(n.callers[e.t]) <==> e.Acquire? || e.FetchEnds?);
  }

  lemma PoolChange(s: State, e: Step)
    requires Enabled(s, e)
    ensures Pool(Next(s, e)) == (if e.Acquire? then Pool(s) + {e.t} else if e.Release? then Pool(s) - {e.t} else Pool(s))
    ensures (e.Acquire? ==> e.t !in Pool(s)) && (e.Release? ==> e.t in Pool(s))
  {
    forall u { PoolMember(s, e, u); }
  }

  /** The semaphore counts exactly the callers in the pool, and never passes its capacity. */
  lemma PoolKept(s: State, e: Step)
    requires Inv(s) && Enabled(s, e)
    ensures Next(s, e).slots == |Pool(Next(s, e))| <= Next(s, e).workers
  {
    PoolChange(s, e);
    var before, after := Pool(s), Pool(Next(s, e));
    if e.Release? { assert |after + {e.t}| == |after| + 1 && after + {e.t} == before; }
  }

  lemma StepInv(s: State, e: Step)
    requires Inv(s) && Enabled(s, e)
    ensures Inv(Next(s, e))
  {
    CallersKept(s, e);
    PathsKept(s, e);
    PoolKept(s, e);
  }

  // ------------------------------------------------------------ whole runs

  ghost predicate Run(xs: seq<State>, es: seq<Step>, workers: int) {
    && |xs| == |es| + 1 && xs[0] == New(workers)
    && forall k :: 0 <= k < |es| ==> Enabled(xs[k], es[k]) && xs[k + 1] == Next(xs[k], es[k])
  }

  lemma {:induction false} RunInv(xs: seq<State>, es: seq<Step>, workers: int, k: nat)
    requires Run(xs, es, workers) && k < |xs|
    ensures Inv(xs[k]) && xs[k].workers == New(workers).workers
    decreases k
  {
    if k == 0 {
      assert Pool(xs[0]) == {};
    } else {
      RunInv(xs, es, workers, k - 1);
      StepInv(xs[k - 1], es[k - 1]);
    }
  }

  /** At most one fetch per path runs, and never more than the pool allows. */
  lemma FetchesAreBounded(xs: seq<State>, es: seq<Step>, workers: int, k: nat)
    requires Run(xs, es, workers) && k < |xs|
    ensures |Pool(xs[k])| <= if workers <= 0 then DEFAULT_WORKERS else workers
    ensures forall a, b :: a in Pool(xs[k]) && b in Pool(xs[k]) && xs[k].callers[a].path == xs[k].callers[b].path ==> a == b
  {
    RunInv(xs, es, workers, k);
    var s := xs[k];
    forall a, b | a in Pool(s) && b in Pool(s) && s.callers[a].path == s.callers[b].path ensures a == b {
      assert CallerOk(s, a) && CallerOk(s, b);
    }
  }

  /** A path is in flight exactly while one caller is between registering it and deleting it. */
  lemma InflightIsOneLeader(xs: seq<State>, es: seq<Step>, workers: int, k: nat, p: Path)
    requires Run(xs, es, workers) && k < |xs|
    ensures p in xs[k].inflight <==> exists t :: t in xs[k].callers && Listed(xs[k].callers[t]) && xs[k].callers[t].path == p
    ensures forall t :: t in xs[k].callers && Listed(xs[k].callers[t]) && xs[k].callers[t].path == p ==>
              p in xs[k].inflight && t == xs[k].inflight[p]
  {
    RunInv(xs, es, workers, k);
    var s := xs[k];
    if p in s.inflight { assert InflightOk(s, p); }
    forall t | t in s.callers && Listed(s.callers[t]) && s.callers[t].path == p
      ensures p in s.inflight && t == s.inflight[p]
    {
      assert CallerOk(s, t);
    }
  }

  /** A caller that returns a shared result returns what the leader it waited for returned. */
  lemma SharedIsTheLeaders(xs: seq<State>, es: seq<Step>, workers: int, k: nat, t: Caller)
    requires Run(xs, es, workers) && k < |xs| && t in xs[k].callers
    requires xs[k].callers[t].Returned? && xs[k].callers[t].shared.Some?
    ensures var l := xs[k].callers[t].shared.value;
      l in xs[k].callers && xs[k].callers[l] == Returned(xs[k].callers[t].path, xs[k].callers[t].result, None)
  {
    RunInv(xs, es, workers, k);
    assert CallerOk(xs[k], t);
  }

  /** What a caller returned never changes. */
  lemma {:induction false} ReturnedStays(xs: seq<State>, es: seq<Step>, workers: int, k: nat, j: nat, t: Caller)
    requires Run(xs, es, workers) && k <= j < |xs| && t in xs[k].callers && xs[k].callers[t].Returned?
    ensures t in xs[j].callers && xs[j].callers[t] == xs[k].callers[t]
    decreases j
  {
    if k < j { ReturnedStays(xs, es, workers, k, j - 1, t); }
  }

  // ------------------------------------------------------------ results

  /** The result a call carries to its return, once it has one. */
  function Carried(c: Phase): Option<Outcome> {
    match c
    case Fetched(_, r) => Some(r)
    case Recorded(_, r) => Some(r)
    case Unlisted(_, r) => Some(r)
    case Returned(_, r, _) => Some(r)
    case _ => None
  }

  /** Whose result it is: its own, unless it was shared. */
  function SharedFrom(c: Phase): Option<Caller> { if c.Returned? then c.shared else None }

  lemma CarriedStays(s: State, e: Step, t: Caller)
    requires Enabled(s, e) && t in s.callers && Carried(s.callers[t]).Some?
    ensures t in Next(s, e).callers && Carried(Next(s, e).callers[t]) == Carried(s.callers[t])
    ensures Next(s, e).callers[t].path == s.callers[t].path && SharedFrom(Next(s, e).callers[t]) == SharedFrom(s.callers[t])
  {
  }

  lemma {:induction false} CarriedLater(xs: seq<State>, es: seq<Step>, workers: int, k: nat, j: nat, t: Caller)
    requires Run(xs, es, workers) && k <= j < |xs| && t in xs[k].callers && Carried(xs[k].callers[t]).Some?
    ensures t in xs[j].callers && Carried(xs[j].callers[t]) == Carried(xs[k].callers[t])
    ensures xs[j].callers[t].path == xs[k].callers[t].path && SharedFrom(xs[j].callers[t]) == SharedFrom(xs[k].callers[t])
    decreases j
  {
    if k < j {
      CarriedLater(xs, es, workers, k, j - 1, t);
      CarriedStays(xs[j - 1], es[j - 1], t);
    }
  }

  /** Everyone who returned t's result returned r. */
  ghost predicate AllShared(s: State, t: Caller, r: Outcome) {
    forall u :: u in s.callers && s.callers[u].Returned? && s.callers[u].shared == Some(t) ==> s.callers[u].result == r
  }

  /**
   What a fetch ended with is what its leader carries at every later moment and
   returns, and what every caller that shares it returns.
   */
  lemma FetchResultIsReturned(xs: seq<State>, es: seq<Step>, workers: int, i: nat, j: nat)
    requires Run(xs, es, workers) && i < j < |xs| && es[i].FetchEnds?
    ensures var t := es[i].t;
      && t in xs[j].callers && Carried(xs[j].callers[t]) == Some(es[i].result) && SharedFrom(xs[j].callers[t]) == None
      && AllShared(xs[j], t, es[i].result)
  {
    var t := es[i].t;
    CarriedLater(xs, es, workers, i + 1, j, t);
    SharedAlike(xs, es, workers, j, t);
  }

  lemma SharedAlike(xs: seq<State>, es: seq<Step>, workers: int, j: nat, t: Caller)
    requires Run(xs, es, workers) && j < |xs| && t in xs[j].callers && Carried(xs[j].callers[t]).Some?
    ensures AllShared(xs[j], t, Carried(xs[j].callers[t]).value)
  {
    var s := xs[j];
    forall u | u in s.callers && s.callers[u].Returned? && s.callers[u].shared == Some(t)
      ensures s.callers[u].result == Carried(s.callers[t]).value
    {
      SharedIsTheLeaders(xs, es, workers, j, u);
    }
  }

  /** A call that gave up returns that it was cancelled; a leader that did so while queued, to its waiters too. */
  lemma GivingUpIsReturned(xs: seq<State>, es: seq<Step>, workers: int, i: nat, j: nat)
    requires Run(xs, es, workers) && i < j < |xs| && es[i].GiveUp?
    ensures var t := es[i].t;
      && t in xs[j].callers && Carried(xs[j].callers[t]) == Some(Cancelled) && AllShared(xs[j], t, Cancelled)
  {
    CarriedLater(xs, es, workers, i + 1, j, es[i].t);
    SharedAlike(xs, es, workers, j, es[i].t);
  }

  /** The step gives call t's path its result r: t finds no marker, a fetch of the path ends so, or a call for it gives up. */
  ghost predicate Origin(s: State, e: Step, t: Caller, p: Path, r: Outcome)
    requires Enabled(s, e)
  {
    || (e == ReadMarker(t, false) && r == Done)
    || (e.FetchEnds? && e.result == r && s.callers[e.t].path == p)
    || (e.GiveUp? && r == Cancelled && s.callers[e.t].path == p)
  }

  /** The call has fetched, or shares what one has. */
  ghost predicate HasFetched(s: State, t: Caller)
    requires t in s.callers
  {
    !s.callers[t].Returned? || t in s.results || s.callers[t].shared.Some?
  }

  /** A step gives a call its result in one of those ways, or leaves it, or shares the one its closed leader has. */
  lemma ResultArrives(s: State, e: Step, t: Caller)
    requires Inv(s) && Enabled(s, e) && t in Next(s, e).callers && Carried(Next(s, e).callers[t]).Some?
    ensures var c := Next(s, e).callers[t]; var r := Carried(c).value;
      || (Origin(s, e, t, c.path, r) && (HasFetched(Next(s, e), t) ==> !e.ReadMarker?))
      || (SameResult(s, t, c) && (HasFetched(Next(s, e), t) ==> HasFetched(s, t)))
      || (e == TakeShared(t) && t in s.callers && s.callers[t].Waiting? && var l := s.callers[t].leader;
            SameResult(s, l, c) && HasFetched(s, l))
  {
    if t in s.callers { assert CallerOk(s, t); }
    if e == TakeShared(t) { ClosedReturned(s, s.callers[t].leader); }
  }

  predicate SameResult(s: State, t: Caller, c: Phase) {
    t in s.callers && Carried(s.callers[t]) == Carried(c) && s.callers[t].path == c.path
  }

  /** Step i is a call's result's origin, before k; and if it has fetched, not a marker that was missing. */
  ghost predicate CameFrom(xs: seq<State>, es: seq<Step>, k: nat, t: Caller, i: nat)
    requires |xs| == |es| + 1 && k < |xs| && t in xs[k].callers && Carried(xs[k].callers[t]).Some?
  {
    && i < k && Enabled(xs[i], es[i])
    && (exists u :: Origin(xs[i], es[i], u, xs[k].callers[t].path, Carried(xs[k].callers[t]).value))
    && (HasFetched(xs[k], t) ==> !es[i].ReadMarker?)
  }

  lemma Handed(xs: seq<State>, es: seq<Step>, k: nat, t: Caller, u: Caller, i: nat)
    requires |xs| == |es| + 1 && 0 < k < |xs| && t in xs[k].callers && Carried(xs[k].callers[t]).Some?
    requires SameResult(xs[k - 1], u, xs[k].callers[t]) && (HasFetched(xs[k], t) ==> HasFetched(xs[k - 1], u))
    requires CameFrom(xs, es, k - 1, u, i)
    ensures CameFrom(xs, es, k, t, i)
  {
  }

  /**
   No result is made up: what a call returns, a fetch of its path ended with, or
   a call for it gave up; only a call that found no marker is done without either.
   */
  lemma {:induction false} ResultsAreReal(xs: seq<State>, es: seq<Step>, workers: int, k: nat, t: Caller) returns (i: nat)
    requires Run(xs, es, workers) && k < |xs| && t in xs[k].callers && Carried(xs[k].callers[t]).Some?
    ensures CameFrom(xs, es, k, t, i)
    decreases k
  {
    var s, e := xs[k - 1], es[k - 1];
    RunInv(xs, es, workers, k - 1);
    ResultArrives(s, e, t);
    var c := xs[k].callers[t];
    if Origin(s, e, t, c.path, Carried(c).value) && (HasFetched(xs[k], t) ==> !e.ReadMarker?) {
      i := k - 1;
    } else {
      var u := if SameResult(s, t, c) && (HasFetched(xs[k], t) ==> HasFetched(s, t)) then t else s.callers[t].leader;
      i := ResultsAreReal(xs, es, workers, k - 1, u);
      Handed(xs, es, k, t, u, i);
    }
  }

  // ------------------------------------------------------------ nobody is stuck

  /** How far a call is from its return. */
  function Rank(c: Phase): nat {
    match c
    case Reading(_) => 7
    case Wanting(_) => 6
    case Waiting(_, _) => 5
    case Queued(_) => 5
    case Fetching(_) => 4
    case Fetched(_, _) => 3
    case Recorded(_, _) => 2
    case Unlisted(_, _) => 1
    case Returned(_, _, _) => 0
  }

  /** Every step brings the call that takes it nearer its return, on the same path, and moves no other call. */
  lemma StepRanks(s: State, e: Step)
    requires Enabled(s, e)
    ensures e.t in Next(s, e).callers && forall u :: u in s.callers && u != e.t ==> u in Next(s, e).callers && Next(s, e).callers[u] == s.callers[u]
    ensures if e.Begin? then Next(s, e).callers[e.t] == Reading(e.path)
            else Rank(Next(s, e).callers[e.t]) < Rank(s.callers[e.t]) && Next(s, e).callers[e.t].path == s.callers[e.t].path
  {
  }

  /** The steps call t has taken, its begin aside. */
  function Taken(es: seq<Step>, t: Caller): nat {
    if es == [] then 0
    else Taken(es[..|es| - 1], t) + if es[|es| - 1].t == t && !es[|es| - 1].Begin? then 1 else 0
  }

  /** So a call takes seven steps at most. */
  lemma {:induction false} CallsEnd(xs: seq<State>, es: seq<Step>, workers: int, k: nat, t: Caller)
    requires Run(xs, es, workers) && k < |xs|
    ensures if t in xs[k].callers then Taken(es[..k], t) + Rank(xs[k].callers[t]) <= 7 else Taken(es[..k], t) == 0
    decreases k
  {
    if k > 0 {
      CallsEnd(xs, es, workers, k - 1, t);
      StepRanks(xs[k - 1], es[k - 1]);
      assert es[..k][..k - 1] == es[..k - 1];
    }
  }

  /** Nobody is stuck: while some call has not returned, some caller can take a step of its own. */
  lemma Progress(s: State, t: Caller)
    requires Inv(s) && t in s.callers && !s.callers[t].Returned?
    ensures exists e :: Enabled(s, e) && !e.Begin? && !e.GiveUp?
  {
    assert CallerOk(s, t);
    var c := s.callers[t];
    if c.Waiting? && c.leader !in s.closed {
      LeaderMoves(s, c.leader);
    } else if c.Waiting? {
      ClosedReturned(s, c.leader);
      assert Enabled(s, TakeShared(t));
    } else if c.Reading? {
      assert Enabled(s, ReadMarker(t, true));
    } else if c.Wanting? {
      assert Enabled(s, Enter(t));
    } else {
      LeaderMoves(s, t);
    }
  }

  /** A leader can move, or every slot is held by one that can. */
  lemma LeaderMoves(s: State, t: Caller)
    requires Inv(s) && t in s.callers && (Listed(s.callers[t]) || s.callers[t].Unlisted?)
    ensures exists e :: Enabled(s, e) && !e.Begin? && !e.GiveUp?
  {
    var c := s.callers[t];
    if c.Queued? && s.slots == s.workers {
      assert Pool(s) != {};
      var h :| h in Pool(s);
      HolderMoves(s, h);
    } else if c.Queued? {
      assert Enabled(s, Acquire(t));
    } else if InPool(c) {
      assert t in Pool(s);
      HolderMoves(s, t);
    } else if c.Recorded? {
      assert Enabled(s, Unlist(t));
    } else {
      assert Enabled(s, Close(t));
    }
  }

  lemma HolderMoves(s: State, h: Caller)
    requires Inv(s) && h in Pool(s)
    ensures exists e :: Enabled(s, e) && !e.Begin? && !e.GiveUp?
  {
    if s.callers[h].Fetching? {
      assert Enabled(s, FetchEnds(h, Done));
    } else {
      SlotTaken(s, h);
      assert Enabled(s, Release(h));
    }
  }

  lemma Extend(xs: seq<State>, es: seq<Step>, workers: int, e: Step) returns (ys: seq<State>, fs: seq<Step>)
    requires Run(xs, es, workers) && Enabled(xs[|es|], e)
    ensures Run(ys, fs, workers) && |fs| == |es| + 1 && ys[|fs|] == Next(xs[|es|], e)
  {
    ys, fs := xs + [Next(xs[|es|], e)], es + [e];
  }

  lemma FirstOfTwoFetches() returns (xs: seq<State>, es: seq<Step>)
    ensures Run(xs, es, 1)
    ensures xs[|es|] == State(map[0 := Fetching("p"), 1 := Wanting("p")], map["p" := 0], map[], {}, 1, 1)
  {
    xs, es := [New(1)], [];
    xs, es := Extend(xs, es, 1, Begin(0, "p"));
    xs, es := Extend(xs, es, 1, Begin(1, "p"));
    xs, es := Extend(xs, es, 1, ReadMarker(0, true));
    xs, es := Extend(xs, es, 1, ReadMarker(1, true));
    xs, es := Extend(xs, es, 1, Enter(0));
    xs, es := Extend(xs, es, 1, Acquire(0));
  }

  /** One marker can be fetched twice: the second caller read it before the first one's fetch removed it. */
  lemma OneMarkerTwoFetches() returns (xs: seq<State>, es: seq<Step>)
    ensures Run(xs, es, 1)
    ensures xs[|es|].callers == map[0 := Returned("p", Done, None), 1 := Fetching("p")]
  {
    xs, es := FirstOfTwoFetches();
    xs, es := Extend(xs, es, 1, FetchEnds(0, Done));
    xs, es := Extend(xs, es, 1, Release(0));
    xs, es := Extend(xs, es, 1, Unlist(0));
    xs, es := Extend(xs, es, 1, Close(0));
    xs, es := Extend(xs, es, 1, Enter(1));
    xs, es := Extend(xs, es, 1, Acquire(1));
  }

  /** A fetch that ends holds a slot to give back. */
  lemma FetchGivesBack(s: State, t: Caller, result: Outcome)
    requires Inv(s) && t in s.callers && s.callers[t].Fetching?
    ensures Enabled(s, FetchEnds(t, result)) && Enabled(Next(s, FetchEnds(t, result)), Release(t))
    ensures Inv(Next(Next(s, FetchEnds(t, result)), Release(t)))
  {
    StepInv(s, FetchEnds(t, result));
    assert t in Pool(s);
    SlotTaken(s, t);
    StepInv(Next(s, FetchEnds(t, result)), Release(t));
  }

  // ------------------------------------------------------------ the hydrator

  /** The map, the channel's count and the shared fetches, changed in place one critical section at a time. */
  class Hydrator {
    var inflight: map<Path, Caller>
    var slots: nat
    const workers: nat
    var results: map<Caller, Outcome>
    var closed: set<Caller>
    var callers: map<Caller, Phase>

    ghost function View(): State
      reads this
    {
      State(callers, inflight, results, closed, slots, workers)
    }

    constructor (workers: int)
      ensures View() == New(workers) && Inv(View())
    {
      this.workers := if workers <= 0 then DEFAULT_WORKERS else workers;
      inflight, slots, results, closed, callers := map[], 0, map[], {}, map[];
      new;
      assert Pool(View()) == {};
    }

    /** Under the mutex: wait on the fetch that is there, or register one's own. */
    method Join(t: Caller) returns (leads: bool)
      requires Inv(View()) && Enabled(View(), Enter(t))
      modifies this
      ensures View() == Next(old(View()), Enter(t)) && Inv(View())
      ensures leads <==> callers[t].Queued?
      ensures leads <==> old(callers[t].path) !in old(inflight)
      ensures t in callers && callers[t].path in inflight && inflight[callers[t].path] == if leads then t else callers[t].leader
    {
      StepInv(View(), Enter(t));
      var p := callers[t].path;
      leads := p !in inflight;
      if leads {
        callers := callers[t := Queued(p)];
        inflight := inflight[p := t];
      } else {
        callers := callers[t := Waiting(p, inflight[p])];
      }
    }

    /** A slot, if one is free; otherwise nothing has happened yet. */
    method TryAcquire(t: Caller) returns (got: bool)
      requires Inv(View()) && t in callers && callers[t].Queued?
      modifies this
      ensures got <==> old(slots) < workers
      ensures Inv(View()) && View() == if got then Next(old(View()), Acquire(t)) else old(View())
      ensures got ==> callers[t] == Fetching(old(callers[t].path)) && slots == old(slots) + 1
    {
      got := slots < workers;
      if got {
        StepInv(View(), Acquire(t));
        slots := slots + 1;
        callers := callers[t := Fetching(callers[t].path)];
      }
    }

    /** The fetch is over: the slot goes back and the leader's error is recorded. */
    method EndFetch(t: Caller, result: Outcome)
      requires Inv(View()) && t in callers && callers[t].Fetching?
      modifies this
      ensures Inv(View()) && Enabled(old(View()), FetchEnds(t, result))
      ensures Enabled(Next(old(View()), FetchEnds(t, result)), Release(t))
      ensures View() == Next(Next(old(View()), FetchEnds(t, result)), Release(t))
      ensures t in results && results[t] == result && callers[t] == Recorded(old(callers[t].path), result) && slots == old(slots) - 1
    {
      ghost var mid := Next(View(), FetchEnds(t, result));
      FetchGivesBack(View(), t, result);
      callers := callers[t := Recorded(callers[t].path, result)];
      results := results[t := result];
      slots := slots - 1;
      assert callers == Next(mid, Release(t)).callers;
    }

    /** Deleted under the mutex first, and only then announced to the waiters. */
    method Announce(t: Caller)
      requires Inv(View()) && t in callers && callers[t].Recorded?
      modifies this
      ensures Inv(View()) && View() == Next(Next(old(View()), Unlist(t)), Close(t))
      ensures t in closed && t in callers && callers[t] == Returned(old(callers[t].path), old(callers[t].result), None)
      ensures old(callers[t].path) !in inflight
    {
      ghost var mid := Next(View(), Unlist(t));
      StepInv(View(), Unlist(t));
      StepInv(mid, Close(t));
      var c := callers[t];
      inflight := inflight - {c.path};
      closed := closed + {t};
      callers := callers[t := Returned(c.path, c.result, None)];
      assert callers == Next(mid, Close(t)).callers;
    }

    /** What a waiter gets once its leader has announced. */
    method Await(t: Caller) returns (result: Outcome)
      requires Inv(View()) && t in callers && callers[t].Waiting? && callers[t].leader in closed
      modifies this
      ensures Inv(View()) && t in callers && callers[t].Returned? && result == callers[t].result
      ensures old(callers[t].leader) in callers
      ensures callers[old(callers[t].leader)] == Returned(callers[t].path, result, None)
    {
      ClosedReturned(View(), callers[t].leader);
      StepInv(View(), TakeShared(t));
      var c := callers[t];
      result := results[c.leader];
      callers := callers[t := Returned(c.path, result, Some(c.leader))];
      assert CallerOk(View(), t);
    }
  }

  lemma SlotTaken(s: State, t: Caller)
    requires Inv(s) && t in Pool(s)
    ensures s.slots > 0
  {
    assert |Pool(s)| > 0;
  }
}
