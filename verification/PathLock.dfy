/**
 The per-path resolution lock (`Conflicts.lockPath`): a turn object per path,
 counted by the threads that hold or await it, and dropped with the last one.
 Unlocking and counting down are two steps, and other threads run between them.
 Each section under the map's own mutex is one step.
 */
module PathLock {
  type Path = string

  /** Where a thread inside lockPath stands; a thread outside is absent from the map. */
  datatype Pc =
    | Waiting(path: Path, turn: nat)    // counted, and waiting for the turn's mutex
    | Holding(path: Path, turn: nat)
    | Released(path: Path, turn: nat)   // unlocked, not yet counted down

  datatype Turn = Turn(locked: bool, waiters: nat)

  datatype State = State(threads: map<nat, Pc>, resolving: map<Path, nat>, turns: map<nat, Turn>, next: nat)

  datatype Step = Enter(t: nat, path: Path) | Acquire(t: nat) | Unlock(t: nat) | Leave(t: nat)

  ghost predicate Enabled(s: State, step: Step) {
    match step
    case Enter(t, _) => t !in s.threads
    case Acquire(t) => t in s.threads && s.threads[t].Waiting? && s.threads[t].turn in s.turns &&
                       !s.turns[s.threads[t].turn].locked
    case Unlock(t) => t in s.threads && s.threads[t].Holding? && s.threads[t].turn in s.turns
    case Leave(t) => t in s.threads && s.threads[t].Released? && s.threads[t].turn in s.turns &&
                     s.turns[s.threads[t].turn].waiters > 0
  }

  function Next(s: State, step: Step): State
    requires Enabled(s, step)
  {
    match step
    case Enter(t, p) =>
      var turn := if p in s.resolving then s.resolving[p] else s.next;
      var was := if p in s.resolving && turn in s.turns then s.turns[turn] else Turn(false, 0);
      State(s.threads[t := Waiting(p, turn)],
            s.resolving[p := turn],
            s.turns[turn := was.(waiters := was.waiters + 1)],
            if p in s.resolving then s.next else s.next + 1)
    case Acquire(t) =>
      var pc := s.threads[t];
      s.(threads := s.threads[t := Holding(pc.path, pc.turn)],
         turns := s.turns[pc.turn := s.turns[pc.turn].(locked := true)])
    case Unlock(t) =>
      var pc := s.threads[t];
      s.(threads := s.threads[t := Released(pc.path, pc.turn)],
         turns := s.turns[pc.turn := s.turns[pc.turn].(locked := false)])
    case Leave(t) =>
      var pc := s.threads[t];
      var left := s.turns[pc.turn].waiters - 1;
      s.(threads := s.threads - {t},
         turns := s.turns[pc.turn := s.turns[pc.turn].(waiters := left)],
         resolving := if left == 0 then s.resolving - {pc.path} else s.resolving)
  }

  /** The threads inside lockPath for p: waiting, holding or about to be counted down. */
  ghost function Registered(s: State, p: Path): set<nat> {
    set t | t in s.threads && s.threads[t].path == p
  }

  ghost function Holders(s: State, p: Path): set<nat> {
    set t | t in s.threads && s.threads[t].path == p && s.threads[t].Holding?
  }

  ghost predicate AtItsTurn(s: State, t: nat)
    requires t in s.threads
  {
    s.threads[t].path in s.resolving && s.resolving[s.threads[t].path] == s.threads[t].turn
  }

  /** Every registered thread of a path points at the one turn the map holds for it. */
  ghost predicate OneTurn(s: State) {
    && (forall t :: t in s.threads ==> AtItsTurn(s, t))
    && (forall p, q :: p in s.resolving && q in s.resolving && s.resolving[p] == s.resolving[q] ==> p == q)
    && (forall p :: p in s.resolving ==> s.resolving[p] in s.turns && s.resolving[p] < s.next)
  }

  ghost predicate CountedAt(s: State, p: Path) {
    && (p in s.resolving ==> s.resolving[p] in s.turns && s.turns[s.resolving[p]].waiters == |Registered(s, p)|)
    && (p in s.resolving <==> Registered(s, p) != {})
  }

  /** The count is the registered threads, and the entry stands exactly while it is positive. */
  ghost predicate Counted(s: State) { forall p :: CountedAt(s, p) }

  /** The turn is locked exactly while one thread of the path holds it. */
  ghost predicate ExclusiveAt(s: State, p: Path) {
    |Holders(s, p)| == (if p in s.resolving && s.resolving[p] in s.turns && s.turns[s.resolving[p]].locked then 1 else 0)
  }

  ghost predicate Exclusive(s: State) { forall p :: ExclusiveAt(s, p) }

  ghost predicate Inv(s: State) { OneTurn(s) && Counted(s) && Exclusive(s) }

  /** A step on p's turn leaves every other path's turn alone. */
  lemma OtherTurn(s: State, p: Path, q: Path)
    requires OneTurn(s) && p in s.resolving && q in s.resolving && p != q
    ensures s.resolving[p] != s.resolving[q]
  {
  }

  lemma EnterSets(s: State, t: nat, p: Path, q: Path)
    requires t !in s.threads
    ensures var s' := Next(s, Enter(t, p));
      && Registered(s', q) == (if q == p then Registered(s, q) + {t} else Registered(s, q))
      && |Registered(s', q)| == |Registered(s, q)| + (if q == p then 1 else 0)
      && Holders(s', q) == Holders(s, q)
  {
    var s' := Next(s, Enter(t, p));
    assert s'.threads == s.threads[t := Waiting(p, s'.threads[t].turn)];
    assert Registered(s', q) == (if q == p then Registered(s, q) + {t} else Registered(s, q));
    assert t !in Registered(s, q);
  }

  lemma EnterTurn(s: State, t: nat, p: Path, q: Path)
    requires OneTurn(s) && t !in s.threads
    ensures var s' := Next(s, Enter(t, p));
      && s'.resolving.Keys == s.resolving.Keys + {p}
      && (q != p && q in s.resolving ==> s'.resolving[q] == s.resolving[q] && s'.turns[s'.resolving[q]] == s.turns[s.resolving[q]])
      && (p in s.resolving ==> s'.resolving[p] == s.resolving[p])
      && (p in s.resolving ==>
            s'.turns[s'.resolving[p]] == s.turns[s.resolving[p]].(waiters := s.turns[s.resolving[p]].waiters + 1))
      && (p !in s.resolving ==> s'.turns[s'.resolving[p]] == Turn(false, 1))
  {
    if p in s.resolving && q in s.resolving && p != q { OtherTurn(s, p, q); }
  }

  lemma EnterAt(s: State, t: nat, p: Path, q: Path)
    requires OneTurn(s) && t !in s.threads && CountedAt(s, q) && ExclusiveAt(s, q)
    ensures CountedAt(Next(s, Enter(t, p)), q) && ExclusiveAt(Next(s, Enter(t, p)), q)
  {
    EnterSets(s, t, p, q);
    EnterTurn(s, t, p, q);
  }

  lemma EnterInv(s: State, t: nat, p: Path)
    requires Inv(s) && t !in s.threads
    ensures Inv(Next(s, Enter(t, p)))
  {
    var s' := Next(s, Enter(t, p));
    assert CountedAt(s, p) && ExclusiveAt(s, p);
    forall u | u in s'.threads ensures AtItsTurn(s', u) {
      if u != t {
        assert AtItsTurn(s, u);
        if p !in s.resolving { assert u !in Registered(s, p); }
      }
    }
    assert OneTurn(s');
    forall q ensures CountedAt(s', q) && ExclusiveAt(s', q) {
      EnterAt(s, t, p, q);
    }
  }

  /** A step that changes one thread's stage and its turn's mutex, and nothing else. */
  lemma TurnStepInv(s: State, t: nat, pc: Pc, locked: bool)
    requires Inv(s) && t in s.threads
    requires pc.path == s.threads[t].path && pc.turn == s.threads[t].turn && pc.Holding? == locked
    requires pc.turn in s.turns && if locked then !s.turns[pc.turn].locked else s.threads[t].Holding?
    ensures Inv(s.(threads := s.threads[t := pc],
                   turns := s.turns[pc.turn := s.turns[pc.turn].(locked := locked)]))
  {
    var s' := s.(threads := s.threads[t := pc],
                 turns := s.turns[pc.turn := s.turns[pc.turn].(locked := locked)]);
    assert AtItsTurn(s, t);
    forall u | u in s'.threads ensures AtItsTurn(s', u) { assert AtItsTurn(s, u); }
    assert OneTurn(s');
    forall q ensures CountedAt(s', q) && ExclusiveAt(s', q) {
      assert CountedAt(s, q) && ExclusiveAt(s, q);
      assert Registered(s', q) == Registered(s, q);
      if q != pc.path {
        assert Holders(s', q) == Holders(s, q);
      } else if locked {
        assert Holders(s, q) == {};
        assert Holders(s', q) == {t};
      } else {
        assert t in Holders(s, q);
        assert Holders(s', q) == Holders(s, q) - {t};
      }
    }
  }

  lemma LeaveInv(s: State, t: nat)
    requires Inv(s) && Enabled(s, Leave(t))
    ensures Inv(Next(s, Leave(t)))
  {
    var s' := Next(s, Leave(t));
    var p := s.threads[t].path;
    assert AtItsTurn(s, t);
    assert CountedAt(s, p) && t in Registered(s, p);
    assert Registered(s', p) == Registered(s, p) - {t};
    forall u | u in s'.threads ensures AtItsTurn(s', u) {
      assert AtItsTurn(s, u);
      if s.threads[u].path == p { assert u in Registered(s', p) && |Registered(s', p)| > 0; }
    }
    assert OneTurn(s');
    forall q ensures CountedAt(s', q) && ExclusiveAt(s', q) {
      assert CountedAt(s, q) && ExclusiveAt(s, q);
      if q != p { assert Registered(s', q) == Registered(s, q); }
      assert Holders(s', q) == Holders(s, q);
      if q == p && p !in s'.resolving { assert Holders(s', q) <= Registered(s', q) == {}; }
    }
  }

  lemma StepInv(s: State, step: Step)
    requires Inv(s) && Enabled(s, step)
    ensures Inv(Next(s, step))
  {
    match step
    case Enter(t, p) => EnterInv(s, t, p);
    case Acquire(t) => TurnStepInv(s, t, Holding(s.threads[t].path, s.threads[t].turn), true);
    case Unlock(t) => TurnStepInv(s, t, Released(s.threads[t].path, s.threads[t].turn), false);
    case Leave(t) => LeaveInv(s, t);
  }

  /** Where a step takes its thread: in, to the turn, out of it, and gone; and no other thread. */
  lemma StepMoves(s: State, step: Step)
    requires Enabled(s, step)
    ensures var s' := Next(s, step);
      match step
      case Enter(t, p) => s'.threads == s.threads[t := s'.threads[t]] && s'.threads[t].Waiting? && s'.threads[t].path == p
      case Acquire(t) => s'.threads == s.threads[t := Holding(s.threads[t].path, s.threads[t].turn)]
      case Unlock(t) => s'.threads == s.threads[t := Released(s.threads[t].path, s.threads[t].turn)]
      case Leave(t) => s'.threads == s.threads - {t}
  {
  }

  ghost predicate Run(ss: seq<State>, steps: seq<Step>) {
    && |ss| == |steps| + 1
    && ss[0] == State(map[], map[], map[], 0)
    && forall i :: 0 <= i < |steps| ==> Enabled(ss[i], steps[i]) && ss[i + 1] == Next(ss[i], steps[i])
  }

  lemma {:induction false} RunInv(ss: seq<State>, steps: seq<Step>, k: nat)
    requires Run(ss, steps) && k < |ss|
    ensures Inv(ss[k])
    decreases k
  {
    if k > 0 {
      RunInv(ss, steps, k - 1);
      StepInv(ss[k - 1], steps[k - 1]);
    }
  }

  /**
   In every reachable state a path has at most one holder, its registered
   threads share one turn, the turn counts exactly them, and the entry exists
   exactly while there is one.
   */
  lemma LockIsExact(ss: seq<State>, steps: seq<Step>, k: nat, p: Path)
    requires Run(ss, steps) && k < |ss|
    ensures |Holders(ss[k], p)| <= 1
    ensures forall t, u :: t in Registered(ss[k], p) && u in Registered(ss[k], p) ==> ss[k].threads[t].turn == ss[k].threads[u].turn
    ensures p in ss[k].resolving <==> Registered(ss[k], p) != {}
    ensures p in ss[k].resolving ==> ss[k].resolving[p] in ss[k].turns &&
                                     ss[k].turns[ss[k].resolving[p]].waiters == |Registered(ss[k], p)|
  {
    RunInv(ss, steps, k);
    assert CountedAt(ss[k], p) && ExclusiveAt(ss[k], p);
    forall t | t in Registered(ss[k], p) ensures ss[k].resolving[p] == ss[k].threads[t].turn { assert AtItsTurn(ss[k], t); }
  }

  /** No lock is stuck: a free turn with waiters can always be taken by each of them. */
  lemma WaiterCanProceed(ss: seq<State>, steps: seq<Step>, k: nat, t: nat)
    requires Run(ss, steps) && k < |ss| && t in ss[k].threads && ss[k].threads[t].Waiting?
    ensures Enabled(ss[k], Acquire(t)) || exists u :: u in ss[k].threads && Enabled(ss[k], Unlock(u)) &&
                                                     ss[k].threads[u].path == ss[k].threads[t].path
  {
    RunInv(ss, steps, k);
    var s := ss[k];
    var p := s.threads[t].path;
    assert AtItsTurn(s, t);
    if s.turns[s.threads[t].turn].locked {
      assert ExclusiveAt(s, p) && Holders(s, p) != {};
      var u :| u in Holders(s, p);
      assert AtItsTurn(s, u) && Enabled(s, Unlock(u));
    }
  }

  lemma OnlyHolder(s: State, t: nat)
    requires Inv(s) && t in s.threads && s.threads[t].Holding?
    ensures Holders(s, s.threads[t].path) == {t}
  {
    var hs := Holders(s, s.threads[t].path);
    assert ExclusiveAt(s, s.threads[t].path) && t in hs;
    assert |hs - {t}| == |hs| - 1 == 0;
  }

  lemma NoHolder(s: State, t: nat)
    requires Enabled(s, Unlock(t)) && Holders(s, s.threads[t].path) == {t}
    ensures Holders(Next(s, Unlock(t)), s.threads[t].path) == {}
  {
    var s', p := Next(s, Unlock(t)), s.threads[t].path;
    StepMoves(s, Unlock(t));
    forall u: nat ensures u !in Holders(s', p) {
      assert u in Holders(s, p) <==> u == t;
      if u in s'.threads && u != t { assert s'.threads[u] == s.threads[u]; }
    }
  }

  /** The lock as lockPath changes it, one step at a time, with its threads as history. */
  class Locks {
    var resolving: map<Path, nat>
    var turns: map<nat, Turn>
    var next: nat
    ghost var threads: map<nat, Pc>

    ghost function View(): State
      reads this
    {
      State(threads, resolving, turns, next)
    }

    constructor ()
      ensures View() == State(map[], map[], map[], 0)
    {
      resolving, turns, next, threads := map[], map[], 0, map[];
    }

    method Register(ghost t: nat, p: Path) returns (turn: nat)
      requires Inv(View()) && Enabled(View(), Step.Enter(t, p))
      modifies this
      ensures View() == Next(old(View()), Step.Enter(t, p)) && Inv(View())
      ensures threads[t] == Waiting(p, turn)
    {
      EnterInv(View(), t, p);
      assert OneTurn(View());
      if p in resolving {
        turn := resolving[p];
      } else {
        turn := next;
        next := next + 1;
        turns := turns[turn := Turn(false, 0)];
        resolving := resolving[p := turn];
      }
      turns := turns[turn := turns[turn].(waiters := turns[turn].waiters + 1)];
      threads := threads[t := Waiting(p, turn)];
      assert resolving == old(resolving)[p := turn];
    }

    method Take(ghost t: nat, p: Path, turn: nat)
      requires Inv(View()) && Enabled(View(), Step.Acquire(t)) && threads[t] == Waiting(p, turn)
      modifies this
      ensures View() == Next(old(View()), Step.Acquire(t)) && Inv(View())
      ensures threads == old(threads)[t := Holding(p, turn)] && Holders(View(), p) == {t}
    {
      StepInv(View(), Step.Acquire(t));
      turns := turns[turn := turns[turn].(locked := true)];
      threads := threads[t := Holding(p, turn)];
      OnlyHolder(View(), t);
    }

    method Give(ghost t: nat, p: Path, turn: nat)
      requires Inv(View()) && Enabled(View(), Step.Unlock(t)) && threads[t] == Holding(p, turn)
      modifies this
      ensures View() == Next(old(View()), Step.Unlock(t)) && Inv(View())
      ensures threads == old(threads)[t := Released(p, turn)] && Holders(View(), p) == {}
    {
      StepInv(View(), Step.Unlock(t));
      OnlyHolder(View(), t);
      turns := turns[turn := turns[turn].(locked := false)];
      threads := threads[t := Released(p, turn)];
      assert View() == Next(old(View()), Step.Unlock(t));
      NoHolder(old(View()), t);
    }

    method CountDown(ghost t: nat, p: Path, turn: nat)
      requires Inv(View()) && Enabled(View(), Step.Leave(t)) && threads[t] == Released(p, turn)
      modifies this
      ensures View() == Next(old(View()), Step.Leave(t)) && Inv(View())
      ensures threads == old(threads) - {t} && (p in resolving <==> Registered(View(), p) != {})
    {
      StepInv(View(), Step.Leave(t));
      turns := turns[turn := turns[turn].(waiters := turns[turn].waiters - 1)];
      if turns[turn].waiters == 0 { resolving := resolving - {p}; }
      threads := threads - {t};
      assert CountedAt(View(), p);
    }
  }
}
