/**
 The pull loop's promise about delivery: it advances its cursor past a page
 whether or not every change in it applied, and records a debt for each that did
 not. The feed is a log of changes and a cursor is a position in it; a page is
 whatever stretch the provider answers with. The engine's own record writes
 run between any two steps, and so do crashes.
 */
module Delivery {
  import opened Options
  import opened Paths

  datatype Change = Change(path: Path, movedFrom: Option<Path>, removed: bool)

  /** What one change did: what it moved, which baselines it set, what it removed. */
  datatype Outcome = Outcome(skipped: bool, moved: bool, echoes: set<Path>, removals: set<Path>, ok: bool)

  datatype Poll =
    | Idle
    | Page(next: nat, at: nat, forget: set<Path>, owing: bool)
    | Flushed(next: nat)

  datatype World = World(persisted: nat, refetch: set<Path>, cursor: nat, poll: Poll)

  datatype Step =
    | Fetch(next: nat)
    | ApplyChange(o: Outcome)
    | Owe
    | Flush(ok: bool)
    | Advance(ok: bool)
    | Retry(path: Path, settled: bool, echoes: set<Path>)
    | PushEcho(path: Path)            // SetEcho by a push
    | PushDelete(path: Path)          // ForgetDeleted by a push
    | PushForget(paths: set<Path>)    // ForgetMany by the engine
    | LocalRename(from: Path, to: Path)
    | Crash

  /** RenameSubtree's effect on one path's record. */
  function Renamed(p: Path, from: Path, to: Path): Path {
    if Renamable(from, to) && Inside(p, from) then Moved(p, from, to) else p
  }

  ghost function RenamedAll(s: set<Path>, from: Path, to: Path): set<Path> { set p | p in s :: Renamed(p, from, to) }

  /** The outcomes a change can have. */
  predicate Possible(ch: Change, o: Outcome) {
    && (o.moved ==> ch.movedFrom.Some? && !ch.removed && !o.skipped)
    && (o.skipped ==> o.ok && o.echoes == {} && o.removals == {})
  }

  ghost predicate Enabled(log: seq<Change>, w: World, s: Step) {
    match s
    case Fetch(n) => w.poll.Idle? && w.cursor <= n <= |log|
    case ApplyChange(o) => w.poll.Page? && w.poll.at < w.poll.next <= |log| && !w.poll.owing && Possible(log[w.poll.at], o)
    case Owe => w.poll.Page? && w.poll.at < w.poll.next <= |log| && w.poll.owing
    case Flush(_) => w.poll.Page? && w.poll.at == w.poll.next
    case Advance(_) => w.poll.Flushed?
    case Retry(_, _, _) => w.poll.Idle?
    case _ => true
  }

  ghost function Next(log: seq<Change>, w: World, s: Step): World
    requires Enabled(log, w, s)
  {
    match s
    case Fetch(n) => w.(poll := Page(n, w.cursor, {}, false))
    case ApplyChange(o) =>
      var ch := log[w.poll.at];
      var records := if o.moved then RenamedAll(w.refetch, ch.movedFrom.value, ch.path) else w.refetch;
      if o.skipped then w.(poll := w.poll.(at := w.poll.at + 1))
      else if ch.removed then
        w.(poll := w.poll.(at := w.poll.at + 1, forget := if o.ok then w.poll.forget + o.removals else w.poll.forget))
      else if o.ok then
        w.(refetch := records - o.echoes, poll := w.poll.(at := w.poll.at + 1, forget := w.poll.forget - {ch.path}))
      else
        w.(refetch := records - o.echoes, poll := w.poll.(owing := true, forget := w.poll.forget - {ch.path}))
    case Owe =>
      w.(refetch := w.refetch + {log[w.poll.at].path}, poll := w.poll.(at := w.poll.at + 1, owing := false))
    case Flush(ok) =>
      if ok then w.(refetch := w.refetch - w.poll.forget, poll := Flushed(w.poll.next)) else w.(poll := Idle)
    case Advance(ok) =>
      if w.poll.next > w.cursor then
        w.(persisted := if ok then w.poll.next else w.persisted, cursor := w.poll.next, poll := Idle)
      else w.(poll := Idle)
    case Retry(p, settled, echoes) => w.(refetch := w.refetch - echoes - if settled then {p} else {})
    case PushEcho(p) => w.(refetch := w.refetch - {p})
    case PushDelete(p) => w.(refetch := w.refetch - {p})
    case PushForget(ps) => w.(refetch := w.refetch - ps)
    case LocalRename(from, to) => w.(refetch := RenamedAll(w.refetch, from, to))
    case Crash => w.(cursor := w.persisted, poll := Idle)
  }

  ghost predicate Run(log: seq<Change>, ws: seq<World>, steps: seq<Step>) {
    && |ws| == |steps| + 1
    && (forall i :: 0 <= i < |steps| ==> Enabled(log, ws[i], steps[i]) && ws[i + 1] == Next(log, ws[i], steps[i]))
    && ws[0] == World(0, {}, 0, Idle)
  }

  /** What may end a debt. */
  datatype Why = BySetEcho | ByForgetMany | ByForgetDeleted | ByRetry

  /** Where a debt for p stands after a step: where its record went, or why it is gone. */
  datatype Debt = Standing(path: Path) | Discharged(why: Why)

  ghost function After(log: seq<Change>, w: World, s: Step, p: Path): Debt
    requires Enabled(log, w, s)
  {
    match s
    case ApplyChange(o) =>
      var ch := log[w.poll.at];
      var q := if o.moved then Renamed(p, ch.movedFrom.value, ch.path) else p;
      if !ch.removed && q in o.echoes then Discharged(BySetEcho) else Standing(q)
    case Flush(ok) => if ok && p in w.poll.forget then Discharged(ByForgetMany) else Standing(p)
    case Retry(q, settled, echoes) =>
      if p in echoes then Discharged(BySetEcho)
      else if settled && p == q then Discharged(ByRetry) else Standing(p)
    case PushEcho(q) => if p == q then Discharged(BySetEcho) else Standing(p)
    case PushDelete(q) => if p == q then Discharged(ByForgetDeleted) else Standing(p)
    case PushForget(ps) => if p in ps then Discharged(ByForgetMany) else Standing(p)
    case LocalRename(from, to) => Standing(Renamed(p, from, to))
    case _ => Standing(p)
  }

  /** The debt recorded for p at j, as it stands at k, followed through renames. */
  ghost function Followed(log: seq<Change>, ws: seq<World>, steps: seq<Step>, j: nat, k: nat, p: Path): Debt
    requires Run(log, ws, steps) && j <= k < |ws|
    decreases k
  {
    if j == k then Standing(p)
    else
      match Followed(log, ws, steps, j, k - 1, p)
      case Standing(q) => After(log, ws[k - 1], steps[k - 1], q)
      case Discharged(why) => Discharged(why)
  }

  /** One step never drops a record but in one of the named ways, and moves it with its subtree. */
  lemma StepKeepsDebt(log: seq<Change>, w: World, s: Step, p: Path)
    requires Enabled(log, w, s) && p in w.refetch && After(log, w, s, p).Standing?
    ensures After(log, w, s, p).path in Next(log, w, s).refetch
  {
  }

  /**
   The debts after a step, exactly: those that stood and were not discharged,
   where the step took them, and the one it records.
   */
  lemma StepDebtsIff(log: seq<Change>, w: World, s: Step, p: Path)
    requires Enabled(log, w, s)
    ensures p in Next(log, w, s).refetch <==>
      || (exists q :: q in w.refetch && After(log, w, s, q) == Standing(p))
      || (s.Owe? && p == log[w.poll.at].path)
  {
    var w' := Next(log, w, s);
    if q :| q in w.refetch && After(log, w, s, q) == Standing(p) { StepKeepsDebt(log, w, s, q); }
    if p in w'.refetch && !(s.Owe? && p == log[w.poll.at].path) {
      var q := Source(log, w, s, p);
    }
  }

  /** Where a debt that stands after a step came from. */
  lemma Source(log: seq<Change>, w: World, s: Step, p: Path) returns (q: Path)
    requires Enabled(log, w, s) && p in Next(log, w, s).refetch && !(s.Owe? && p == log[w.poll.at].path)
    ensures q in w.refetch && After(log, w, s, q) == Standing(p)
  {
    match s
    case LocalRename(from, to) => q :| q in w.refetch && Renamed(q, from, to) == p;
    case ApplyChange(o) =>
      if o.moved && !log[w.poll.at].removed {
        q :| q in w.refetch && Renamed(q, log[w.poll.at].movedFrom.value, log[w.poll.at].path) == p;
      } else {
        q := p;
      }
    case _ => q := p;
  }

  lemma {:induction false} DebtsStand(log: seq<Change>, ws: seq<World>, steps: seq<Step>, j: nat, k: nat, p: Path)
    requires Run(log, ws, steps) && j <= k < |ws| && p in ws[j].refetch
    ensures Followed(log, ws, steps, j, k, p).Standing? ==> Followed(log, ws, steps, j, k, p).path in ws[k].refetch
    decreases k
  {
    if j < k {
      DebtsStand(log, ws, steps, j, k - 1, p);
      if Followed(log, ws, steps, j, k, p).Standing? {
        StepKeepsDebt(log, ws[k - 1], steps[k - 1], Followed(log, ws, steps, j, k - 1, p).path);
      }
    }
  }

  /** Step j handled change m: it applied, or it was recorded as owed. */
  ghost predicate Handled(log: seq<Change>, ws: seq<World>, steps: seq<Step>, j: nat, m: nat)
    requires |ws| == |steps| + 1 && j < |steps|
  {
    && ws[j].poll.Page? && ws[j].poll.at == m
    && match steps[j]
       case ApplyChange(o) => o.ok
       case Owe => m < |log| && log[m].path in ws[j + 1].refetch
       case _ => false
  }

  /** How far the loop has come, the part a crash would lose included. */
  function Progress(w: World): nat {
    match w.poll
    case Idle => w.cursor
    case Page(_, at, _, _) => at
    case Flushed(n) => n
  }

  lemma ProgressStep(log: seq<Change>, w: World, s: Step)
    requires Enabled(log, w, s) && w.persisted <= w.cursor && w.cursor <= Progress(w)
    requires w.poll.Page? ==> w.poll.at <= w.poll.next <= |log|
    ensures var w' := Next(log, w, s);
      && w'.persisted <= w'.cursor <= Progress(w')
      && w'.persisted <= Progress(w)
      && (w'.poll.Page? ==> w'.poll.at <= w'.poll.next <= |log|)
      && Progress(w') <= Progress(w) + 1
      && (Progress(w') == Progress(w) + 1 ==> w.poll.Page? && (s.ApplyChange? || s.Owe?))
  {
  }

  lemma {:induction false} AllHandled(log: seq<Change>, ws: seq<World>, steps: seq<Step>, k: nat)
    requires Run(log, ws, steps) && k < |ws|
    ensures ws[k].persisted <= ws[k].cursor <= Progress(ws[k])
    ensures ws[k].poll.Page? ==> ws[k].poll.at <= ws[k].poll.next <= |log|
    ensures forall m :: 0 <= m < Progress(ws[k]) && m < |log| && !log[m].removed ==>
              exists j :: 0 <= j < k && Handled(log, ws, steps, j, m)
    decreases k
  {
    if k > 0 {
      AllHandled(log, ws, steps, k - 1);
      var w, s := ws[k - 1], steps[k - 1];
      ProgressStep(log, w, s);
      forall m | 0 <= m < Progress(ws[k]) && m < |log| && !log[m].removed
        ensures exists j :: 0 <= j < k && Handled(log, ws, steps, j, m)
      {
        if m < Progress(w) {
          var j :| 0 <= j < k - 1 && Handled(log, ws, steps, j, m);
        } else {
          assert Handled(log, ws, steps, k - 1, m);
        }
      }
    }
  }

  /**
   At-least-once delivery. In every run, crashes anywhere included, each
   non-removal change behind the persisted cursor was applied without error, or
   its debt stands in the store under the path its renames gave it, or that debt
   was discharged in one of the four ways.
   */
  lemma DeliveredAtLeastOnce(log: seq<Change>, ws: seq<World>, steps: seq<Step>, k: nat, m: nat) returns (j: nat)
    requires Run(log, ws, steps) && k < |ws|
    requires m < ws[k].persisted && m < |log| && !log[m].removed
    ensures j < k && ws[j].poll.Page? && ws[j].poll.at == m
    ensures (steps[j].ApplyChange? && steps[j].o.ok) || steps[j].Owe?
    ensures steps[j].Owe? && Followed(log, ws, steps, j + 1, k, log[m].path).Standing? ==>
              Followed(log, ws, steps, j + 1, k, log[m].path).path in ws[k].refetch
  {
    AllHandled(log, ws, steps, k);
    j :| 0 <= j < k && Handled(log, ws, steps, j, m);
    if steps[j].Owe? { DebtsStand(log, ws, steps, j + 1, k, log[m].path); }
  }

  // ------------------------------------------------------------ what the page's flush takes with it

  /** Steps f to k are one page: fetched at f, and neither flushed, given up nor cut short before k. */
  ghost predicate OnePage(log: seq<Change>, ws: seq<World>, steps: seq<Step>, f: nat, k: nat)
    requires Run(log, ws, steps)
  {
    && f < k < |ws| && steps[f].Fetch?
    && forall i :: f < i <= k ==> ws[i].poll.Page?
  }

  lemma {:induction false} PageKeepsCursor(log: seq<Change>, ws: seq<World>, steps: seq<Step>, f: nat, k: nat)
    requires Run(log, ws, steps) && OnePage(log, ws, steps, f, k)
    ensures ws[k].poll.next == steps[f].next && ws[k].cursor == ws[f].cursor && ws[k].persisted == ws[f].persisted
    decreases k
  {
    assert ws[k - 1 + 1].poll.Page?;
    if k > f + 1 {
      assert OnePage(log, ws, steps, f, k - 1);
      PageKeepsCursor(log, ws, steps, f, k - 1);
    }
  }

  /** Steps k to m wait with a flushed page. */
  ghost predicate StaysFlushed(ws: seq<World>, k: nat, m: nat) {
    k <= m < |ws| && forall i :: k <= i <= m ==> ws[i].poll.Flushed?
  }

  lemma {:induction false} FlushedKeepsCursor(log: seq<Change>, ws: seq<World>, steps: seq<Step>, k: nat, m: nat)
    requires Run(log, ws, steps) && StaysFlushed(ws, k, m)
    ensures ws[m].poll == ws[k].poll && ws[m].cursor == ws[k].cursor && ws[m].persisted == ws[k].persisted
    decreases m
  {
    if k < m {
      assert StaysFlushed(ws, k, m - 1) && ws[m - 1 + 1].poll.Flushed?;
      FlushedKeepsCursor(log, ws, steps, k, m - 1);
    }
  }

  /**
   The cursor moves. After a fetch of n, a successful flush and an advance, with
   nothing given up between, the cursor is n and every change before n has been
   handled; it is the persisted one too if the write succeeds.
   */
  lemma CursorAdvances(log: seq<Change>, ws: seq<World>, steps: seq<Step>, f: nat, k: nat, m: nat)
    requires Run(log, ws, steps) && OnePage(log, ws, steps, f, k) && k < |steps| && steps[k] == Flush(true)
    requires StaysFlushed(ws, k + 1, m) && m < |steps| && steps[m].Advance?
    ensures ws[m + 1].cursor == steps[f].next && ws[m + 1].poll == Idle
    ensures ws[m + 1].persisted == if steps[m].ok && steps[f].next > ws[f].cursor then steps[f].next else ws[f].persisted
    ensures forall c :: 0 <= c < steps[f].next && c < |log| && !log[c].removed ==> exists j :: 0 <= j <= m && Handled(log, ws, steps, j, c)
  {
    PageKeepsCursor(log, ws, steps, f, k);
    FlushedKeepsCursor(log, ws, steps, k + 1, m);
    assert Enabled(log, ws[f], steps[f]);
    AllHandled(log, ws, steps, m + 1);
    forall c | 0 <= c < steps[f].next && c < |log| && !log[c].removed
      ensures exists j :: 0 <= j <= m && Handled(log, ws, steps, j, c)
    {
      var j :| 0 <= j < m + 1 && Handled(log, ws, steps, j, c);
    }
  }

  /** Step i applies a removal that collects q for the flush. */
  ghost predicate Collects(log: seq<Change>, w: World, s: Step, q: Path)
    requires Enabled(log, w, s)
  {
    s.ApplyChange? && log[w.poll.at].removed && !s.o.skipped && s.o.ok && q in s.o.removals
  }

  /** Step i meets a report of q: it exists again, and is taken off the list. */
  ghost predicate Rereports(log: seq<Change>, w: World, s: Step, q: Path)
    requires Enabled(log, w, s)
  {
    s.ApplyChange? && !log[w.poll.at].removed && !s.o.skipped && log[w.poll.at].path == q
  }

  /** The last word of the page on q, up to k, is a removal that collected it. */
  ghost predicate WaitsAt(log: seq<Change>, ws: seq<World>, steps: seq<Step>, f: nat, k: nat, q: Path)
    requires Run(log, ws, steps) && k < |ws|
  {
    exists i :: f < i < k && Collects(log, ws[i], steps[i], q) &&
                forall m :: i < m < k ==> !Rereports(log, ws[m], steps[m], q)
  }

  lemma ForgetStep(log: seq<Change>, w: World, s: Step, q: Path)
    requires Enabled(log, w, s) && w.poll.Page? && Next(log, w, s).poll.Page?
    ensures q in Next(log, w, s).poll.forget <==>
      Collects(log, w, s, q) || (q in w.poll.forget && !Rereports(log, w, s, q))
  {
  }

  lemma WaitsStep(log: seq<Change>, ws: seq<World>, steps: seq<Step>, f: nat, k: nat, q: Path)
    requires Run(log, ws, steps) && f < k < |steps|
    ensures WaitsAt(log, ws, steps, f, k + 1, q) <==>
      Collects(log, ws[k], steps[k], q) || (WaitsAt(log, ws, steps, f, k, q) && !Rereports(log, ws[k], steps[k], q))
  {
  }

  /** A path waits to be forgotten exactly when the page's last word on it was a removal. */
  lemma {:induction false} ForgetIff(log: seq<Change>, ws: seq<World>, steps: seq<Step>, f: nat, k: nat, q: Path)
    requires Run(log, ws, steps) && OnePage(log, ws, steps, f, k)
    ensures q in ws[k].poll.forget <==> WaitsAt(log, ws, steps, f, k, q)
    decreases k
  {
    if k > f + 1 {
      assert OnePage(log, ws, steps, f, k - 1) && ws[k - 1 + 1].poll.Page? && ws[k - 1].poll.Page?;
      ForgetIff(log, ws, steps, f, k - 1, q);
      ForgetStep(log, ws[k - 1], steps[k - 1], q);
      WaitsStep(log, ws, steps, f, k - 1, q);
    }
  }

  /**
   A debt and the flush. A debt that stands at q when the page is flushed, wherever
   the page's moves brought it from, outlives the flush exactly when the page's
   last word on q was not a removal.
   */
  lemma DebtOutlivesFlushIff(log: seq<Change>, ws: seq<World>, steps: seq<Step>, f: nat, j: nat, k: nat, p: Path)
    requires Run(log, ws, steps) && OnePage(log, ws, steps, f, k) && k < |steps| && steps[k] == Flush(true)
    requires j <= k && p in ws[j].refetch && Followed(log, ws, steps, j, k, p).Standing?
    ensures var q := Followed(log, ws, steps, j, k, p).path;
      && q in ws[k].refetch
      && (q in ws[k + 1].refetch <==> !WaitsAt(log, ws, steps, f, k, q))
      && Followed(log, ws, steps, j, k + 1, p) ==
           if WaitsAt(log, ws, steps, f, k, q) then Discharged(ByForgetMany) else Standing(q)
  {
    var q := Followed(log, ws, steps, j, k, p).path;
    DebtsStand(log, ws, steps, j, k, p);
    ForgetIff(log, ws, steps, f, k, q);
  }

  /**
   The same for the debt a move carries, no later step renaming or settling it:
   it survives the page exactly when the path it lands on was not the page's to
   forget, removed before the move or after, or was reported again since.
   */
  lemma MovedDebtSurvivesIff(log: seq<Change>, ws: seq<World>, steps: seq<Step>, f: nat, j: nat, k: nat, p: Path)
    requires Run(log, ws, steps) && OnePage(log, ws, steps, f, k) && k < |steps| && steps[k] == Flush(true)
    requires f < j < k && steps[j].ApplyChange? && steps[j].o.moved && p in ws[j].refetch
    requires var q := Renamed(p, log[ws[j].poll.at].movedFrom.value, log[ws[j].poll.at].path);
             Followed(log, ws, steps, j + 1, k, q) == Standing(q) && q !in steps[j].o.echoes
    ensures var q := Renamed(p, log[ws[j].poll.at].movedFrom.value, log[ws[j].poll.at].path);
      q in ws[k + 1].refetch <==> !WaitsAt(log, ws, steps, f, k, q)
  {
    var q := Renamed(p, log[ws[j].poll.at].movedFrom.value, log[ws[j].poll.at].path);
    StepKeepsDebt(log, ws[j], steps[j], p);
    DebtOutlivesFlushIff(log, ws, steps, f, j + 1, k, q);
  }

  const DROP_LOG := [Change("a/x", None, false), Change("b", None, true), Change("b", Some("a"), false)]

  const DROP_STEPS := [Fetch(3), ApplyChange(Outcome(false, false, {}, {}, false)), Owe,
                       ApplyChange(Outcome(false, false, {}, {"b", "b/x"}, true)),
                       ApplyChange(Outcome(false, true, {}, {}, true)), Flush(true), Advance(true)]

  function DropWorld(k: nat): World {
    match k
    case 0 => World(0, {}, 0, Idle)
    case 1 => World(0, {}, 0, Page(3, 0, {}, false))
    case 2 => World(0, {}, 0, Page(3, 0, {}, true))
    case 3 => World(0, {"a/x"}, 0, Page(3, 1, {}, false))
    case 4 => World(0, {"a/x"}, 0, Page(3, 2, {"b", "b/x"}, false))
    case 5 => World(0, {"b/x"}, 0, Page(3, 3, {"b/x"}, false))
    case 6 => World(0, {}, 0, Flushed(3))
    case _ => World(3, {}, 3, Idle)
  }

  lemma DropMoves()
    ensures Enabled(DROP_LOG, DropWorld(4), DROP_STEPS[4]) && Next(DROP_LOG, DropWorld(4), DROP_STEPS[4]) == DropWorld(5)
  {
    var none: set<Path> := {};
    assert HasPrefix("a/x", "a" + "/") && Renamed("a/x", "a", "b") == "b/x";
    assert RenamedAll({"a/x"}, "a", "b") == {"b/x"};
    assert {"b/x"} - none == {"b/x"} && {"b", "b/x"} - {"b"} == {"b/x"};
  }

  lemma DropStep(k: nat)
    requires k < 7
    ensures Enabled(DROP_LOG, DropWorld(k), DROP_STEPS[k]) && Next(DROP_LOG, DropWorld(k), DROP_STEPS[k]) == DropWorld(k + 1)
  {
    var none: set<Path> := {};
    if k == 4 {
      DropMoves();
    } else {
      assert none - {"a/x"} == none && none - none == none && none + {"b", "b/x"} == {"b", "b/x"};
    }
  }

  lemma DropRun() returns (ws: seq<World>)
    ensures Run(DROP_LOG, ws, DROP_STEPS) && |ws| == 8 && forall k :: 0 <= k < 8 ==> ws[k] == DropWorld(k)
  {
    ws := seq(8, (k: nat) => DropWorld(k));
    forall k | 0 <= k < 7 ensures Enabled(DROP_LOG, ws[k], DROP_STEPS[k]) && ws[k + 1] == Next(DROP_LOG, ws[k], DROP_STEPS[k]) {
      DropStep(k);
    }
  }

  /**
   A move that lands on a path removed earlier in the same page hands its debt
   to the page's flush, which drops it: the object that is owed is still there.
   */
  lemma FlushDropsMovedDebt() returns (log: seq<Change>, ws: seq<World>, steps: seq<Step>)
    ensures Run(log, ws, steps) && |steps| == 7
    ensures steps[2].Owe? && "a/x" in ws[3].refetch
    ensures Followed(log, ws, steps, 3, 5, "a/x") == Standing("b/x") && "b/x" in ws[5].refetch
    ensures Followed(log, ws, steps, 3, 6, "a/x") == Discharged(ByForgetMany)
    ensures ws[7].persisted == 3 && ws[7].refetch == {}
    ensures OnePage(log, ws, steps, 0, 5) && WaitsAt(log, ws, steps, 0, 5, "b/x")
  {
    log, steps := DROP_LOG, DROP_STEPS;
    ws := DropRun();
    assert HasPrefix("a/x", "a" + "/") && Renamed("a/x", "a", "b") == "b/x";
    assert Followed(log, ws, steps, 3, 4, "a/x") == Standing("a/x");
    assert Followed(log, ws, steps, 3, 5, "a/x") == Standing("b/x");
    ForgetIff(log, ws, steps, 0, 5, "b/x");
  }
}
