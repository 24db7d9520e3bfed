/**
 The pull loop's page and its retry pass as loops over the records: the page is
 the composition of the delivery machine's steps, and the pass reports exactly
 how many debts it left, so that a debt that stands always has a pass due.
 */
module PullLoop {
  import opened Options
  import opened Paths
  import opened Delivery

  /** One change of a page applied, and owed if that failed. */
  ghost function Dealt(log: seq<Change>, w: World, o: Outcome): (w': World)
    requires w.poll.Page? && w.poll.at < w.poll.next <= |log| && !w.poll.owing && Possible(log[w.poll.at], o)
    ensures w'.poll.Page? && w'.poll.at == w.poll.at + 1 && w'.poll.next == w.poll.next && !w'.poll.owing
  {
    var w1 := Next(log, w, ApplyChange(o));
    if w1.poll.owing then Next(log, w1, Owe) else w1
  }

  /** The changes of a page from `at` on, applied or owed one after another. */
  ghost function ApplyAll(log: seq<Change>, w: World, outcomes: seq<Outcome>): World
    requires w.poll.Page? && w.poll.at <= w.poll.next <= |log| && !w.poll.owing
    requires |outcomes| == w.poll.next - w.poll.at
    requires forall i :: 0 <= i < |outcomes| ==> Possible(log[w.poll.at + i], outcomes[i])
    decreases |outcomes|
  {
    if outcomes == [] then w
    else
      assert Possible(log[w.poll.at + 0], outcomes[0]);
      var rest := outcomes[1..];
      assert forall i :: 0 <= i < |rest| ==> rest[i] == outcomes[i + 1] && Possible(log[w.poll.at + (i + 1)], outcomes[i + 1]);
      ApplyAll(log, Dealt(log, w, outcomes[0]), rest)
  }

  /** A step of a page that starts at `from`, with the outcome its change meets. */
  ghost predicate PageStep(log: seq<Change>, w: World, s: Step, w': World, outcomes: seq<Outcome>, from: nat) {
    && Enabled(log, w, s) && w' == Next(log, w, s)
    && w.poll.Page? && from <= w.poll.at < from + |outcomes|
    && (s.Owe? || (s.ApplyChange? && s.o == outcomes[w.poll.at - from]))
  }

  ghost predicate PageSteps(log: seq<Change>, ws: seq<World>, steps: seq<Step>, outcomes: seq<Outcome>, from: nat) {
    && |ws| == |steps| + 1
    && forall i :: 0 <= i < |steps| ==> PageStep(log, ws[i], steps[i], ws[i + 1], outcomes, from)
  }

  lemma Widened(log: seq<Change>, ws: seq<World>, steps: seq<Step>, outcomes: seq<Outcome>, from: nat)
    requires outcomes != [] && PageSteps(log, ws, steps, outcomes[1..], from + 1)
    ensures PageSteps(log, ws, steps, outcomes, from)
  {
    forall i | 0 <= i < |steps| ensures PageStep(log, ws[i], steps[i], ws[i + 1], outcomes, from) {
      assert PageStep(log, ws[i], steps[i], ws[i + 1], outcomes[1..], from + 1);
    }
  }

  lemma Prepended(log: seq<Change>, w: World, s: Step, ws: seq<World>, steps: seq<Step>, outcomes: seq<Outcome>, from: nat)
    requires PageSteps(log, ws, steps, outcomes, from) && PageStep(log, w, s, ws[0], outcomes, from)
    ensures PageSteps(log, [w] + ws, [s] + steps, outcomes, from)
  {
    var vs, more := [w] + ws, [s] + steps;
    forall i | 0 <= i < |more| ensures PageStep(log, vs[i], more[i], vs[i + 1], outcomes, from) {
      if i > 0 { assert PageStep(log, ws[i - 1], steps[i - 1], ws[i - 1 + 1], outcomes, from); }
    }
  }

  /** What ApplyAll does is a stretch of the machine's steps: every change of the page in turn, with its own outcome, and its debt. */
  lemma {:induction false} ApplyAllIsSteps(log: seq<Change>, w: World, outcomes: seq<Outcome>) returns (ws: seq<World>, steps: seq<Step>)
    requires w.poll.Page? && w.poll.at <= w.poll.next <= |log| && !w.poll.owing
    requires |outcomes| == w.poll.next - w.poll.at
    requires forall i :: 0 <= i < |outcomes| ==> Possible(log[w.poll.at + i], outcomes[i])
    ensures PageSteps(log, ws, steps, outcomes, w.poll.at)
    ensures ws[0] == w && ws[|steps|] == ApplyAll(log, w, outcomes)
    decreases |outcomes|
  {
    if outcomes == [] {
      ws, steps := [w], [];
    } else {
      assert Possible(log[w.poll.at + 0], outcomes[0]);
      var rest := outcomes[1..];
      forall i | 0 <= i < |rest| ensures Possible(log[w.poll.at + 1 + i], rest[i]) {
        assert Possible(log[w.poll.at + (i + 1)], outcomes[i + 1]);
      }
      ws, steps := ApplyAllIsSteps(log, Dealt(log, w, outcomes[0]), rest);
      Widened(log, ws, steps, outcomes, w.poll.at);
      ws, steps := DealtIsSteps(log, w, ws, steps, outcomes);
    }
  }

  lemma DealtIsSteps(log: seq<Change>, w: World, us: seq<World>, more: seq<Step>, outcomes: seq<Outcome>) returns (ws: seq<World>, steps: seq<Step>)
    requires w.poll.Page? && w.poll.at < w.poll.next <= |log| && !w.poll.owing
    requires outcomes != [] && Possible(log[w.poll.at], outcomes[0])
    requires PageSteps(log, us, more, outcomes, w.poll.at) && us[0] == Dealt(log, w, outcomes[0])
    ensures PageSteps(log, ws, steps, outcomes, w.poll.at) && ws[0] == w && ws[|steps|] == us[|more|]
  {
    var s := ApplyChange(outcomes[0]);
    var w1 := Next(log, w, s);
    if w1.poll.owing {
      Prepended(log, w1, Owe, us, more, outcomes, w.poll.at);
      Prepended(log, w, s, [w1] + us, [Owe] + more, outcomes, w.poll.at);
      ws, steps := [w] + ([w1] + us), [s] + ([Owe] + more);
    } else {
      Prepended(log, w, s, us, more, outcomes, w.poll.at);
      ws, steps := [w] + us, [s] + more;
    }
  }

  /** What a retry of one owed path meets. */
  datatype Answer = StatFailed(retryable: bool) | Gone | Applied | ApplyFailed

  /** The debts a pass leaves: those not settled, and all behind a backend that is down. */
  function LeftOwed(owed: seq<Path>, answers: seq<Answer>): seq<Path>
    requires |owed| == |answers|
  {
    if owed == [] then []
    else match answers[0]
      case StatFailed(true) => owed
      case StatFailed(false) => [owed[0]] + LeftOwed(owed[1..], answers[1..])
      case ApplyFailed => [owed[0]] + LeftOwed(owed[1..], answers[1..])
      case Gone => LeftOwed(owed[1..], answers[1..])
      case Applied => LeftOwed(owed[1..], answers[1..])
  }

  /** What a retry does to the records: it settles its own path, or leaves the debt. */
  ghost function RetryOf(p: Path, a: Answer): Step { Retry(p, a == Gone || a == Applied, {}) }

  /** The pass as steps of the delivery machine, a path after another until the backend is down. */
  ghost function RetryAll(log: seq<Change>, w: World, owed: seq<Path>, answers: seq<Answer>): World
    requires |owed| == |answers| && w.poll.Idle?
    decreases |owed|
  {
    if owed == [] then w
    else
      var w1 := Next(log, w, RetryOf(owed[0], answers[0]));
      if answers[0] == StatFailed(true) then w1 else RetryAll(log, w1, owed[1..], answers[1..])
  }

  ghost function Elements(s: seq<Path>): set<Path> { set i | 0 <= i < |s| :: s[i] }

  ghost predicate Distinct(s: seq<Path>) { forall i, j :: 0 <= i < j < |s| ==> s[i] != s[j] }

  lemma {:induction false} DistinctCount(s: seq<Path>)
    requires Distinct(s)
    ensures |Elements(s)| == |s|
  {
    if s != [] {
      DistinctCount(s[1..]);
      assert s == [s[0]] + s[1..];
      JoinElements([s[0]], s[1..]);
      assert Elements([s[0]]) == {s[0]} by { assert [s[0]][0] == s[0]; }
      assert s[0] !in Elements(s[1..]);
    }
  }

  const MAX_REFETCH_BACKOFF := 6

  /** 1 << n. */
  function Shift(n: nat): nat
    requires n <= MAX_REFETCH_BACKOFF
  {
    [1, 2, 4, 8, 16, 32, 64][n]
  }

  /** The retry delay after `fails` passes that left a debt: doubled each time, to a bound. */
  function Backoff(base: nat, fails: nat): (wait: nat)
    ensures base <= wait <= 64 * base
    ensures fails == 0 ==> wait == base
    ensures 0 < fails <= MAX_REFETCH_BACKOFF ==> wait == 2 * (base * Shift(fails - 1))
    ensures fails >= MAX_REFETCH_BACKOFF ==> wait == 64 * base
  {
    base * Shift(if fails < MAX_REFETCH_BACKOFF then fails else MAX_REFETCH_BACKOFF)
  }

  class Downloader {
    var persisted: nat
    var refetch: set<Path>
    var cursor: nat
    var poll: Poll
    var refetchDue: Option<nat>
    var refetchFails: nat
    const refetchBase: nat

    ghost function View(): World
      reads this
    {
      World(persisted, refetch, cursor, poll)
    }

    /** A debt that stands has a pass due. */
    ghost predicate Armed()
      reads this
    {
      refetch != {} ==> refetchDue.Some?
    }

    constructor (base: nat)
      ensures View() == World(0, {}, 0, Idle) && Armed() && refetchBase == base
    {
      persisted, refetch, cursor, poll := 0, {}, 0, Idle;
      refetchDue, refetchFails, refetchBase := None, 0, base;
    }

    method ArmRefetch(now: nat)
      modifies this
      ensures View() == old(View()) && refetchDue.Some? && refetchFails == old(refetchFails)
      ensures refetchDue == if old(refetchDue).Some? then old(refetchDue)
                            else Some(now + Backoff(refetchBase, old(refetchFails)))
    {
      if refetchDue.Some? { return; }
      refetchDue := Some(now + Backoff(refetchBase, refetchFails));
    }

    /** One change of the page: its outcome, and the debt when it failed. */
    method ApplyOne(log: seq<Change>, o: Outcome, now: nat)
      requires poll.Page? && poll.at < poll.next <= |log| && !poll.owing && Possible(log[poll.at], o) && Armed()
      modifies this
      ensures View() == Dealt(log, old(View()), o) && Armed()
      ensures cursor == old(cursor) && persisted == old(persisted)
      ensures !o.ok && !log[old(poll.at)].removed ==> log[old(poll.at)].path in refetch && refetchDue.Some?
    {
      var ch := log[poll.at];
      var next, at, forget := poll.next, poll.at, poll.forget;
      if o.skipped {
        poll := Page(next, at + 1, forget, false);
        return;
      }
      if o.moved { refetch := set p | p in refetch :: Renamed(p, ch.movedFrom.value, ch.path); }
      if ch.removed {
        if o.ok { forget := forget + o.removals; }
        poll := Page(next, at + 1, forget, false);
        return;
      }
      forget := forget - {ch.path};
      refetch := refetch - o.echoes;
      if !o.ok {
        refetch := refetch + {ch.path};
        ArmRefetch(now);
      }
      poll := Page(next, at + 1, forget, false);
    }

    method ApplyPage(log: seq<Change>, next: nat, outcomes: seq<Outcome>, now: nat)
      requires poll.Page? && poll.at == cursor && poll.next == next <= |log| && !poll.owing
      requires |outcomes| == next - cursor && Armed()
      requires forall i :: 0 <= i < |outcomes| ==> Possible(log[cursor + i], outcomes[i])
      modifies this
      ensures View() == ApplyAll(log, old(View()), outcomes) && Armed()
      ensures poll.Page? && poll.at == next == poll.next && !poll.owing && cursor == old(cursor) && persisted == old(persisted)
    {
      ghost var done := ApplyAll(log, View(), outcomes);
      var i := 0;
      while i < |outcomes|
        invariant 0 <= i <= |outcomes| && poll.Page? && poll.at == cursor + i && poll.next == next && !poll.owing
        invariant cursor == old(cursor) && persisted == old(persisted) && Armed()
        invariant ApplyAll(log, View(), outcomes[i..]) == done
      {
        ghost var rest := outcomes[i..];
        assert rest[1..] == outcomes[i + 1..] && rest[0] == outcomes[i];
        assert Possible(log[cursor + i], rest[0]);
        ghost var w := View();
        ApplyOne(log, outcomes[i], now);
        assert ApplyAll(log, w, rest) == ApplyAll(log, View(), rest[1..]);
        i := i + 1;
      }
    }

    method RunPage(log: seq<Change>, next: nat, outcomes: seq<Outcome>, flushOk: bool, advanceOk: bool, now: nat)
      requires poll.Idle? && cursor <= next <= |log| && |outcomes| == next - cursor && Armed()
      requires forall i :: 0 <= i < |outcomes| ==> Possible(log[cursor + i], outcomes[i])
      modifies this
      ensures var w1 := ApplyAll(log, Next(log, old(View()), Fetch(next)), outcomes);
        && w1.poll.Page? && w1.poll.at == next && w1.poll.next == next
        && var w2 := Next(log, w1, Flush(flushOk));
           View() == if flushOk then Next(log, w2, Advance(advanceOk)) else w2
      ensures poll.Idle? && Armed()
      ensures cursor == if flushOk then next else old(cursor)
      ensures persisted == if flushOk && advanceOk && next > old(cursor) then next else old(persisted)
    {
      poll := Page(next, cursor, {}, false);
      ApplyPage(log, next, outcomes, now);
      if !flushOk {
        poll := Idle;
        return;
      }
      refetch := refetch - poll.forget;
      if next > cursor {
        if advanceOk { persisted := next; }
        cursor := next;
      }
      poll := Idle;
    }

    /** One owed path retried: whether it is still owed. */
    method RetryOne(ghost log: seq<Change>, p: Path, a: Answer) returns (owed: bool)
      requires poll.Idle?
      modifies this`refetch
      ensures View() == Next(log, old(View()), RetryOf(p, a)) && owed == !(a == Gone || a == Applied)
      ensures refetch == if owed then old(refetch) else old(refetch) - {p}
    {
      ghost var none: set<Path> := {};
      assert refetch - none - none == refetch && refetch - none == refetch;
      owed := a != Gone && a != Applied;
      if !owed { refetch := refetch - {p}; }
    }

    /** refetchPass: every owed path tried once, and how many are still owed. */
    method RefetchPass(ghost log: seq<Change>, owed: seq<Path>, answers: seq<Answer>) returns (left: nat)
      requires poll.Idle? && |owed| == |answers| && Distinct(owed) && refetch == Elements(owed)
      modifies this`refetch
      ensures View() == RetryAll(log, old(View()), owed, answers)
      ensures refetch == Elements(LeftOwed(owed, answers)) && left == |refetch|
    {
      left := 0;
      var i := 0;
      ghost var kept: seq<Path> := [];
      ghost var was := View();
      assert kept + owed[0..] == owed && answers[0..] == answers && kept + LeftOwed(owed, answers) == LeftOwed(owed, answers);
      while i < |owed|
        invariant Passing(owed, answers, i, kept, refetch) && left == |kept| && poll.Idle?
        invariant RetryAll(log, View(), owed[i..], answers[i..]) == RetryAll(log, was, owed, answers)
      {
        SplitOwed(owed, answers, i);
        Retried(owed, answers, i, kept, refetch);
        var stillOwed := RetryOne(log, owed[i], answers[i]);
        if stillOwed { left, kept := left + 1, kept + [owed[i]]; }
        if answers[i] == StatFailed(true) {
          left := left + (|owed| - i - 1);
          return;
        }
        i := i + 1;
      }
      PassOver(owed, answers, kept, refetch);
    }

    /** dueRefetch, not cancelled: run the pass if it is due, and arm the next if one is needed. */
    method DueRefetch(ghost log: seq<Change>, now: nat, owed: seq<Path>, answers: seq<Answer>)
      requires poll.Idle? && |owed| == |answers| && Distinct(owed) && refetch == Elements(owed) && Armed()
      modifies this
      ensures poll == old(poll) && cursor == old(cursor) && persisted == old(persisted) && Armed()
      ensures View() == if old(refetchDue).Some? && old(refetchDue).value <= now then RetryAll(log, old(View()), owed, answers)
                        else old(View())
      ensures var ran := old(refetchDue).Some? && old(refetchDue).value <= now;
        && refetch == (if ran then Elements(LeftOwed(owed, answers)) else old(refetch))
        && (ran && refetch == {} ==> refetchFails == 0 && refetchDue.None?)
        && (ran && refetch != {} ==> refetchFails == old(refetchFails) + 1 &&
                                     refetchDue == Some(now + Backoff(refetchBase, refetchFails)))
    {
      if refetchDue.None? || now < refetchDue.value { return; }
      refetchDue := None;
      var left := RefetchPass(log, owed, answers);
      if left == 0 {
        refetchFails := 0;
        return;
      }
      refetchFails := refetchFails + 1;
      ArmRefetch(now);
    }
  }

  lemma JoinElements(a: seq<Path>, b: seq<Path>)
    ensures Elements(a + b) == Elements(a) + Elements(b)
  {
    var s := a + b;
    forall p | p in Elements(a) + Elements(b) ensures p in Elements(s) {
      if p in Elements(a) { var i :| 0 <= i < |a| && a[i] == p; assert s[i] == p; }
      else { var i :| 0 <= i < |b| && b[i] == p; assert s[|a| + i] == p; }
    }
    forall p | p in Elements(s) ensures p in Elements(a) + Elements(b) {
      var i :| 0 <= i < |s| && s[i] == p;
      if i < |a| { assert a[i] == p; } else { assert b[i - |a|] == p; }
    }
  }

  /** Taking one path out of a list of distinct ones takes exactly it. */
  lemma DropMiddle(a: seq<Path>, p: Path, b: seq<Path>)
    requires Distinct(a + ([p] + b))
    ensures Elements(a + ([p] + b)) - {p} == Elements(a + b) && Distinct(a + b)
  {
    var s, t := a + ([p] + b), a + b;
    assert s[|a|] == p;
    forall i | 0 <= i < |t| ensures t[i] == s[if i < |a| then i else i + 1] && t[i] != p {
      assert s[if i < |a| then i else i + 1] != s[|a|];
    }
    JoinElements(a, [p] + b);
    JoinElements([p], b);
    JoinElements(a, b);
    assert Elements([p]) == {p} by { assert [p][0] == p; }
    assert p !in Elements(t);
  }

  /** Where a pass stands after i paths: `kept` are still owed, and so is everything not yet tried. */
  ghost predicate Passing(owed: seq<Path>, answers: seq<Answer>, i: nat, kept: seq<Path>, refetch: set<Path>)
    requires |owed| == |answers|
  {
    && i <= |owed| && refetch == Elements(kept + owed[i..]) && Distinct(kept + owed[i..])
    && LeftOwed(owed, answers) == kept + LeftOwed(owed[i..], answers[i..])
  }

  lemma SplitOwed(owed: seq<Path>, answers: seq<Answer>, i: nat)
    requires |owed| == |answers| && i < |owed|
    ensures owed[i..] == [owed[i]] + owed[i + 1..] && owed[i..][1..] == owed[i + 1..] && answers[i..][1..] == answers[i + 1..]
    ensures owed[i..][0] == owed[i] && answers[i..][0] == answers[i]
  {
  }

  lemma StillOwed(owed: seq<Path>, answers: seq<Answer>, i: nat, kept: seq<Path>, refetch: set<Path>)
    requires |owed| == |answers| && Passing(owed, answers, i, kept, refetch) && i < |owed|
    requires answers[i] == StatFailed(false) || answers[i] == ApplyFailed
    ensures Passing(owed, answers, i + 1, kept + [owed[i]], refetch)
  {
    SplitOwed(owed, answers, i);
    var rest := LeftOwed(owed[i + 1..], answers[i + 1..]);
    assert kept + owed[i..] == kept + [owed[i]] + owed[i + 1..];
    assert LeftOwed(owed[i..], answers[i..]) == [owed[i]] + rest;
    assert kept + ([owed[i]] + rest) == kept + [owed[i]] + rest;
  }

  lemma Settled(owed: seq<Path>, answers: seq<Answer>, i: nat, kept: seq<Path>, refetch: set<Path>)
    requires |owed| == |answers| && Passing(owed, answers, i, kept, refetch) && i < |owed|
    requires answers[i] == Gone || answers[i] == Applied
    ensures Passing(owed, answers, i + 1, kept, refetch - {owed[i]})
  {
    SplitOwed(owed, answers, i);
    DropMiddle(kept, owed[i], owed[i + 1..]);
  }

  lemma BackendDown(owed: seq<Path>, answers: seq<Answer>, i: nat, kept: seq<Path>, refetch: set<Path>)
    requires |owed| == |answers| && Passing(owed, answers, i, kept, refetch) && i < |owed| && answers[i] == StatFailed(true)
    ensures refetch == Elements(LeftOwed(owed, answers)) && |refetch| == |kept| + (|owed| - i)
  {
    SplitOwed(owed, answers, i);
    DistinctCount(kept + owed[i..]);
  }

  /** Where a pass stands after one path more, and what it leaves when the backend is down. */
  lemma Retried(owed: seq<Path>, answers: seq<Answer>, i: nat, kept: seq<Path>, refetch: set<Path>)
    requires |owed| == |answers| && Passing(owed, answers, i, kept, refetch) && i < |owed|
    ensures match answers[i]
      case StatFailed(true) => refetch == Elements(LeftOwed(owed, answers)) && |refetch| == |kept| + (|owed| - i)
      case StatFailed(false) => Passing(owed, answers, i + 1, kept + [owed[i]], refetch)
      case ApplyFailed => Passing(owed, answers, i + 1, kept + [owed[i]], refetch)
      case _ => Passing(owed, answers, i + 1, kept, refetch - {owed[i]})
  {
    match answers[i]
    case StatFailed(true) => BackendDown(owed, answers, i, kept, refetch);
    case StatFailed(false) => StillOwed(owed, answers, i, kept, refetch);
    case ApplyFailed => StillOwed(owed, answers, i, kept, refetch);
    case _ => Settled(owed, answers, i, kept, refetch);
  }

  lemma PassOver(owed: seq<Path>, answers: seq<Answer>, kept: seq<Path>, refetch: set<Path>)
    requires |owed| == |answers| && Passing(owed, answers, |owed|, kept, refetch)
    ensures refetch == Elements(LeftOwed(owed, answers)) && |refetch| == |kept|
  {
    assert kept + owed[|owed|..] == kept && kept + LeftOwed(owed[|owed|..], answers[|owed|..]) == kept;
    DistinctCount(kept);
  }
}
