/**
 A page of changes applied with one flush at its end (`Run`, `applyTo`,
 `flushForget`), against the same changes applied one at a time (`apply`).
 A directory's identity is its version, a file's its digest; both are `content`.
 Every baseline carries the time it was recorded, so no two are the same record.
 */
module Page {
  import opened Options
  import opened Paths
  import opened Removal
  import Records

  datatype Report = Report(dir: bool, exportOnly: bool, content: Content)

  /**
   One change; `fetchOk` and `remoteNewer` are what the provider and the clocks
   answer, `keepOk` whether the loser of a conflict can be kept.
   */
  datatype Change = Change(path: Path, movedFrom: Option<Path>, file: Option<Report>, skipped: bool,
                           fetchOk: bool, remoteNewer: bool, keepOk: bool)

  datatype Config = Config(lim: Limits, lazy: bool)

  datatype World = World(tree: Tree, echo: map<Path, Baseline>, tomb: map<Path, Content>, refetch: set<Path>, clock: nat)

  /** ForgetMany. */
  function Flush(w: World, forget: set<Path>): World {
    w.(echo := w.echo - forget, tomb := w.tomb - forget, refetch := w.refetch - forget)
  }

  // ------------------------------------------------------------ one change

  function Ancestors(p: Path): set<Path> { set i | 0 <= i < |p| && p[i] == '/' :: p[..i] }

  /** os.MkdirAll of p's directory succeeds. */
  predicate ParentsOk(tree: Tree, p: Path) { forall a :: a in Ancestors(p) && a in tree ==> tree[a].Dir? }

  function WithParents(tree: Tree, p: Path): Tree {
    (map a | a in Ancestors(p) :: Dir) + tree
  }

  predicate MovePerformed(tree: Tree, ch: Change) {
    && ch.movedFrom.Some? && ch.file.Some? && !ch.skipped
    && Renamable(ch.movedFrom.value, ch.path)
    && ch.movedFrom.value in tree && ch.path !in tree && ParentsOk(tree, ch.path)
  }

  /** moveLocally: one rename of the tree and one re-key of the records. */
  function MoveLocally(w: World, ch: Change): World {
    if !MovePerformed(w.tree, ch) then w
    else
      var from := ch.movedFrom.value;
      w.(tree := Rekey(WithParents(w.tree, ch.path), from, ch.path),
         echo := Rekey(w.echo, from, ch.path),
         refetch := RekeySet(w.refetch, from, ch.path))
  }

  /** rememberApplied. */
  function Remember(w: World, p: Path, f: Report): World {
    w.(echo := w.echo[p := Baseline(f.content, w.clock)], tomb := w.tomb - {p}, refetch := w.refetch - {p})
  }

  /** A failed apply, recorded for retry. */
  function Owe(w: World, p: Path): World { w.(refetch := w.refetch + {p}) }

  predicate IsEcho(w: World, p: Path, f: Report) {
    if p in w.echo then w.echo[p].content == f.content
    else p in w.tomb && w.tomb[p] == f.content
  }

  /** How a report that is neither skipped nor recognised ends: a new tree and baseline, a debt, or nothing. */
  datatype Effect = Placed(tree: Tree) | Failed(tree: Tree) | LeftAlone

  function PlaceFile(cfg: Config, tree: Tree, ch: Change, f: Report): Effect {
    if !ParentsOk(tree, ch.path) || (!ch.fetchOk && !cfg.lazy) then Failed(tree)
    else Placed(WithParents(tree, ch.path)[ch.path := File(f.content, cfg.lazy)])
  }

  /** The local file moved away as the loser, and the report in its place; that failing, nothing is there. */
  function Replace(cfg: Config, tree: Tree, ch: Change, f: Report): Effect {
    match PlaceFile(cfg, tree, ch, f)
    case Failed(_) => Failed(tree - {ch.path})
    case placed => placed
  }

  function Decide(cfg: Config, tree: Tree, baseline: Option<Baseline>, ch: Change, f: Report): Effect {
    var p := ch.path;
    if f.dir then
      if !ParentsOk(tree, p) || (p in tree && !tree[p].Dir?) then Failed(tree) else Placed(WithParents(tree, p)[p := Dir])
    else if p !in tree then PlaceFile(cfg, tree, ch, f)
    else match tree[p]
      case Dir => Failed(tree)
      case Special => Failed(tree)
      case File(c, placeholder) =>
        if placeholder then Placed(tree[p := File(f.content, true)])
        else if c == f.content then Placed(tree)
        else if baseline.Some? && baseline.value.content == c then PlaceFile(cfg, tree, ch, f)
        else if !ch.keepOk then Failed(tree)
        else if ch.remoteNewer then Replace(cfg, tree, ch, f)
        else LeftAlone
  }

  function Settle(cfg: Config, w: World, ch: Change, f: Report): World {
    match Decide(cfg, w.tree, Get(w.echo, ch.path), ch, f)
    case Placed(tree) => Remember(w.(tree := tree), ch.path, f)
    case Failed(tree) => Owe(w.(tree := tree), ch.path)
    case LeftAlone => w
  }

  /** What is placed is the report, at its path, under its directories, and nothing else changes. */
  lemma PlacedExactly(cfg: Config, tree: Tree, baseline: Option<Baseline>, ch: Change, f: Report)
    requires Decide(cfg, tree, baseline, ch, f).Placed?
    ensures var t := Decide(cfg, tree, baseline, ch, f).tree;
      && ch.path in t && (if f.dir then t[ch.path].Dir? else t[ch.path].File? && t[ch.path].content == f.content)
      && (forall q :: q in tree && q != ch.path ==> q in t && t[q] == tree[q])
      && (forall q :: q in t && q !in tree && q != ch.path ==> q in Ancestors(ch.path) && t[q].Dir?)
  {
  }

  ghost function ApplyRemoved(cfg: Config, w: World, forget: set<Path>, p: Path): (World, set<Path>) {
    if p !in w.tree then (w, forget + {p})
    else
      var gone, pushed := Removed(w.tree, w.echo, cfg.lim, p), Repushed(w.tree, w.echo, cfg.lim, p);
      (w.(tree := w.tree - gone, echo := w.echo - pushed), forget + gone - pushed)
  }

  ghost function ApplyTo(cfg: Config, w0: World, forget: set<Path>, ch: Change): (World, set<Path>) {
    if ch.skipped then (w0, forget)
    else
      var w := MoveLocally(w0, ch);
      match ch.file
      case None => ApplyRemoved(cfg, w, forget, ch.path)
      case Some(f) =>
        var rest := forget - {ch.path};
        if f.exportOnly || IsEcho(w, ch.path, f) then (w, rest) else (Settle(cfg, w, ch, f), rest)
  }

  // ------------------------------------------------------------ what becomes of one change

  /** A file at the path that no sync has put there: an edit, or never synced. */
  predicate OwnFile(w: World, p: Path) {
    p in w.tree && w.tree[p].File? && !w.tree[p].placeholder && !(p in w.echo && w.echo[p].content == w.tree[p].content)
  }

  /** A file report that has to put new bytes at its path: there is nothing, or a whole file of other content. */
  predicate NeedsBytes(w: World, p: Path, f: Report) {
    !f.dir && (p !in w.tree || (w.tree[p].File? && !w.tree[p].placeholder && w.tree[p].content != f.content))
  }

  /** The report carries what the path is known by: its baseline, or without one what was deleted here. */
  predicate Known(w: World, p: Path, f: Report) {
    (p in w.echo && w.echo[p].content == f.content) || (p !in w.echo && p in w.tomb && w.tomb[p] == f.content)
  }

  /** Nothing to place, nothing new, or older than a file of one's own. */
  predicate Ignored(w: World, ch: Change, f: Report) {
    || f.exportOnly || Known(w, ch.path, f)
    || (NeedsBytes(w, ch.path, f) && OwnFile(w, ch.path) && ch.keepOk && !ch.remoteNewer)
  }

  /** Something of another kind is in the way, or above; or the bytes, or the loser's copy, cannot be had. */
  predicate Blocked(cfg: Config, w: World, ch: Change, f: Report) {
    if f.dir then !ParentsOk(w.tree, ch.path) || (ch.path in w.tree && !w.tree[ch.path].Dir?)
    else
      || (ch.path in w.tree && !w.tree[ch.path].File?)
      || (NeedsBytes(w, ch.path, f) && (!ParentsOk(w.tree, ch.path) || (!ch.fetchOk && !cfg.lazy)))
      || (NeedsBytes(w, ch.path, f) && OwnFile(w, ch.path) && !ch.keepOk)
  }

  /** The loser was moved away first. */
  predicate LoserMoved(w: World, ch: Change, f: Report) {
    NeedsBytes(w, ch.path, f) && OwnFile(w, ch.path) && ch.keepOk && ch.remoteNewer
  }

  /** The path is the report's: its kind, its bytes or a placeholder for them, its baseline, and no tombstone or debt. */
  ghost predicate HoldsReport(cfg: Config, w: World, w': World, p: Path, f: Report) {
    && p in w'.tree && p in w'.echo && w'.echo[p] == Baseline(f.content, w.clock) && p !in w'.tomb && p !in w'.refetch
    && (forall q :: q in w.tree && q != p ==> q in w'.tree && w'.tree[q] == w.tree[q])
    && (forall q :: q in w'.tree && q !in w.tree && q != p ==> q in Ancestors(p) && w'.tree[q].Dir?)
    && w'.tree[p] == (if f.dir then Dir
                      else File(f.content, if NeedsBytes(w, p, f) then cfg.lazy else p in w.tree && w.tree[p].File? && w.tree[p].placeholder))
  }

  /** What a report comes to: it is ignored, or owed, or at its path; and no other path's records are touched. */
  ghost predicate ReportOutcome(cfg: Config, w: World, w': World, ch: Change, f: Report) {
    && SameBeside(w', w, ch.path) && w'.clock == w.clock
    && (Ignored(w, ch, f) ==> w' == w)
    && (!Ignored(w, ch, f) && Blocked(cfg, w, ch, f) ==>
          && w'.echo == w.echo && w'.tomb == w.tomb && ch.path in w'.refetch
          && w'.tree == if LoserMoved(w, ch, f) then w.tree - {ch.path} else w.tree)
    && (!Ignored(w, ch, f) && !Blocked(cfg, w, ch, f) ==> HoldsReport(cfg, w, w', ch.path, f))
  }

  /** Records away from p. */
  ghost predicate SameBeside(v: World, w: World, p: Path) {
    v.echo - {p} == w.echo - {p} && v.tomb - {p} == w.tomb - {p} && v.refetch - {p} == w.refetch - {p}
  }

  /**
   A report changes nothing exactly when it is ignored, leaves a debt exactly
   when it is blocked, and otherwise the path holds it.
   */
  lemma ReportComesTo(cfg: Config, w: World, ch: Change, f: Report)
    ensures ReportOutcome(cfg, w, Take(cfg, w, ch, f), ch, f)
  {
    TakeBeside(cfg, w, ch, f);
    if !Ignored(w, ch, f) { Decided(cfg, w, ch, f); }
  }

  lemma Decided(cfg: Config, w: World, ch: Change, f: Report)
    requires !Ignored(w, ch, f)
    ensures var d := Decide(cfg, w.tree, Get(w.echo, ch.path), ch, f);
      && (Blocked(cfg, w, ch, f) ==> d == Failed(if LoserMoved(w, ch, f) then w.tree - {ch.path} else w.tree))
      && (!Blocked(cfg, w, ch, f) ==> d.Placed? && HoldsReport(cfg, w, Remember(w.(tree := d.tree), ch.path, f), ch.path, f))
  {
  }

  /** The change as a whole: skipped, it does nothing; else a move, if one is due, and then its report. */
  lemma ChangeComesTo(cfg: Config, w: World, forget: set<Path>, ch: Change)
    requires ch.skipped || ch.file.Some?
    ensures var (w', f') := ApplyTo(cfg, w, forget, ch);
      if ch.skipped then w' == w && f' == forget
      else ReportOutcome(cfg, MoveLocally(w, ch), w', ch, ch.file.value) && f' == forget - {ch.path}
  {
    if !ch.skipped { ReportComesTo(cfg, MoveLocally(w, ch), ch, ch.file.value); }
  }

  /** What a removal of p comes to: what went waits to be forgotten, and what is kept lost its baseline and does not. */
  ghost predicate RemovalOutcome(cfg: Config, w: World, forget: set<Path>, w': World, f': set<Path>, p: Path) {
    && w'.tomb == w.tomb && w'.refetch == w.refetch && w'.clock == w.clock
    && (p !in w.tree ==> w' == w && f' == forget + {p})
    && (forall q :: q in w'.tree ==> q in w.tree && w'.tree[q] == w.tree[q])
    && (forall q :: q in w.tree && q !in w'.tree ==> q in f' && Inside(q, p) && !IsForeign(cfg.lim, p, q))
    && (forall q :: q in w.tree && p in w.tree && Inside(q, p) && !IsForeign(cfg.lim, p, q) && !w.tree[q].Dir? ==>
          (q in w'.tree <==> !Deletable(w.tree[q], Get(w.echo, q))))
    && (forall q :: q in w.tree && p in w.tree && Inside(q, p) && !IsForeign(cfg.lim, p, q) && w.tree[q].Dir? ==>
          (q in w'.tree <==> exists r :: r in w'.tree && Strictly(r, q)))
    && (forall q :: q in w'.tree && p in w.tree && Inside(q, p) && !IsForeign(cfg.lim, p, q) && w.tree[q].File? && q !in cfg.lim.unsynced ==>
          q !in w'.echo && q !in f')
    && (forall q :: !Inside(q, p) ==> (q in f' <==> q in forget) && Get(w'.echo, q) == Get(w.echo, q))
  }

  lemma RemovalComesTo(cfg: Config, w: World, forget: set<Path>, p: Path)
    requires WellFormed(w.tree)
    ensures var (w', f') := ApplyRemoved(cfg, w, forget, p); RemovalOutcome(cfg, w, forget, w', f', p)
  {
    if p in w.tree {
      forall q | q in w.tree && Inside(q, p)
        ensures IsForeign(cfg.lim, p, q) ==> q !in Removed(w.tree, w.echo, cfg.lim, p)
        ensures !IsForeign(cfg.lim, p, q) && !w.tree[q].Dir? ==>
          (q in Removed(w.tree, w.echo, cfg.lim, p) <==> Deletable(w.tree[q], Get(w.echo, q)))
      {
        SurvivesIsRecursive(w.tree, w.echo, cfg.lim, p, q);
      }
      forall q | q in w.tree && Inside(q, p) && w.tree[q].Dir? && !IsForeign(cfg.lim, p, q)
        ensures q in Removed(w.tree, w.echo, cfg.lim, p) <==>
          forall r :: r in w.tree && Strictly(r, q) ==> r in Removed(w.tree, w.echo, cfg.lim, p)
      {
        EmptiedGoes(cfg, w, p, q);
      }
    }
  }

  /** A directory goes exactly when all that was in it has. */
  lemma EmptiedGoes(cfg: Config, w: World, p: Path, q: Path)
    requires WellFormed(w.tree) && q in w.tree && Inside(q, p) && w.tree[q].Dir? && !IsForeign(cfg.lim, p, q)
    ensures q in Removed(w.tree, w.echo, cfg.lim, p) <==>
      forall r :: r in w.tree && Strictly(r, q) ==> r in Removed(w.tree, w.echo, cfg.lim, p)
  {
    SurvivesIsRecursive(w.tree, w.echo, cfg.lim, p, q);
    forall r | r in w.tree && Strictly(r, q) ensures Inside(r, p) { InsideTrans(r, q, p); }
  }

  function Tick(w: World): World { w.(clock := w.clock + 1) }

  // ------------------------------------------------------------ pages

  /** The page with its removals collected: what Run does, before the flush. */
  ghost function Batched(cfg: Config, w: World, forget: set<Path>, changes: seq<Change>): (World, set<Path>)
    decreases |changes|
  {
    if changes == [] then (w, forget)
    else
      var (w1, f1) := ApplyTo(cfg, w, forget, changes[0]);
      Batched(cfg, Tick(w1), f1, changes[1..])
  }

  /** The same changes, each with its own flush: apply. */
  ghost function OneByOne(cfg: Config, w: World, changes: seq<Change>): World
    decreases |changes|
  {
    if changes == [] then w
    else
      var (w1, f1) := ApplyTo(cfg, w, {}, changes[0]);
      OneByOne(cfg, Tick(Flush(w1, f1)), changes[1..])
  }

  /** No baseline is from the future: the next one recorded is a new record. */
  ghost predicate ClockAhead(w: World) { forall p :: p in w.echo ==> w.echo[p].at < w.clock }

  /** Both ways of handling one change agree, once their removals are flushed. */
  ghost predicate Agrees(cfg: Config, w: World, forget: set<Path>, ch: Change) {
    var (b, bf) := ApplyTo(cfg, w, forget, ch);
    var (s, sf) := ApplyTo(cfg, Flush(w, forget), {}, ch);
    Flush(b, bf) == Flush(s, sf)
  }

  lemma FlushNothing(w: World)
    ensures Flush(w, {}) == w
  {
  }

  // ------------------------------------------------------------ one report

  /** A report at its path, once any move has been made. */
  function Take(cfg: Config, w: World, ch: Change, f: Report): World {
    if f.exportOnly || IsEcho(w, ch.path, f) then w else Settle(cfg, w, ch, f)
  }

  predicate Places(cfg: Config, w: World, ch: Change, f: Report) {
    !f.exportOnly && !IsEcho(w, ch.path, f) && Decide(cfg, w.tree, Get(w.echo, ch.path), ch, f).Placed?
  }

  predicate Fails(cfg: Config, w: World, ch: Change, f: Report) {
    !f.exportOnly && !IsEcho(w, ch.path, f) && Decide(cfg, w.tree, Get(w.echo, ch.path), ch, f).Failed?
  }

  /** The identity of a path, as a report of it is compared with: its baseline and its tombstone. */
  ghost predicate SameIdentity(v: World, w: World, p: Path) {
    && Get(v.echo, p) == Get(w.echo, p)
    && (p in v.tomb <==> p in w.tomb) && (p in v.tomb && p in w.tomb ==> v.tomb[p] == w.tomb[p])
  }

  /**
   At the report's own path, two stores come out alike exactly when both take
   it, or they know the path by the same identity and owe it alike, or fail alike.
   */
  ghost predicate SameHere(cfg: Config, v: World, w: World, ch: Change, f: Report) {
    || (Places(cfg, v, ch, f) && Places(cfg, w, ch, f))
    || (SameIdentity(v, w, ch.path) && ((ch.path in v.refetch <==> ch.path in w.refetch) || Fails(cfg, v, ch, f)))
  }

  /** Where a report is placed, the tree it leaves does not depend on the baseline. */
  lemma PlacedAlike(cfg: Config, tree: Tree, b: Option<Baseline>, c: Option<Baseline>, ch: Change, f: Report)
    requires Decide(cfg, tree, b, ch, f).Placed? && Decide(cfg, tree, c, ch, f).Placed?
    ensures Decide(cfg, tree, b, ch, f) == Decide(cfg, tree, c, ch, f)
  {
  }

  lemma SplitAt<V>(m: map<Path, V>, n: map<Path, V>, p: Path)
    ensures m == n <==> m - {p} == n - {p} && (p in m <==> p in n) && (p in m && p in n ==> m[p] == n[p])
  {
    if m - {p} == n - {p} && (p in m <==> p in n) && (p in m && p in n ==> m[p] == n[p]) {
      forall k ensures (k in m <==> k in n) && (k in m && k in n ==> m[k] == n[k]) {
        if k != p { assert (k in m <==> k in m - {p}) && (k in n <==> k in n - {p}); }
        if k != p && k in m && k in n { assert (m - {p})[k] == m[k] && (n - {p})[k] == n[k]; }
      }
    }
  }

  lemma SplitSetAt(s: set<Path>, t: set<Path>, p: Path)
    ensures s == t <==> s - {p} == t - {p} && (p in s <==> p in t)
  {
    if s - {p} == t - {p} && (p in s <==> p in t) {
      forall k ensures k in s <==> k in t { if k != p { assert (k in s <==> k in s - {p}) && (k in t <==> k in t - {p}); } }
    }
  }

  lemma SameWorldIff(v: World, w: World, p: Path)
    requires v.clock == w.clock
    ensures v == w <==>
      v.tree == w.tree && SameBeside(v, w, p) && SameIdentity(v, w, p) && (p in v.refetch <==> p in w.refetch)
  {
    SplitAt(v.echo, w.echo, p);
    SplitAt(v.tomb, w.tomb, p);
    SplitSetAt(v.refetch, w.refetch, p);
  }

  /** A report changes its own path's records and no other's. */
  lemma TakeBeside(cfg: Config, w: World, ch: Change, f: Report)
    ensures SameBeside(Take(cfg, w, ch, f), w, ch.path) && Take(cfg, w, ch, f).clock == w.clock
  {
    var p := ch.path;
    assert w.echo[p := Baseline(f.content, w.clock)] - {p} == w.echo - {p};
    assert w.tomb - {p} - {p} == w.tomb - {p} && w.refetch - {p} - {p} == w.refetch - {p} && w.refetch + {p} - {p} == w.refetch - {p};
  }

  /** Two stores over the same tree have the same there, and at the path the same records. */
  ghost predicate AlikeAt(v: World, w: World, p: Path) {
    v.tree == w.tree && SameIdentity(v, w, p) && (p in v.refetch <==> p in w.refetch)
  }

  lemma PlacedAlikeIff(cfg: Config, v: World, w: World, ch: Change, f: Report)
    requires v.tree == w.tree && v.clock == w.clock && ClockAhead(v) && ClockAhead(w)
    requires Places(cfg, v, ch, f)
    ensures AlikeAt(Take(cfg, v, ch, f), Take(cfg, w, ch, f), ch.path) <==> Places(cfg, w, ch, f)
  {
    if Places(cfg, w, ch, f) { PlacedAlike(cfg, v.tree, Get(v.echo, ch.path), Get(w.echo, ch.path), ch, f); }
  }

  lemma KeptAlikeIff(cfg: Config, v: World, w: World, ch: Change, f: Report)
    requires v.tree == w.tree && v.clock == w.clock && !Places(cfg, v, ch, f) && !Places(cfg, w, ch, f)
    ensures AlikeAt(Take(cfg, v, ch, f), Take(cfg, w, ch, f), ch.path) <==>
      SameIdentity(v, w, ch.path) && ((ch.path in v.refetch <==> ch.path in w.refetch) || Fails(cfg, v, ch, f))
  {
  }

  lemma TakenAlike(cfg: Config, v: World, w: World, ch: Change, f: Report)
    requires v.tree == w.tree && v.clock == w.clock && ClockAhead(v) && ClockAhead(w)
    ensures AlikeAt(Take(cfg, v, ch, f), Take(cfg, w, ch, f), ch.path) <==> SameHere(cfg, v, w, ch, f)
  {
    if Places(cfg, v, ch, f) {
      PlacedAlikeIff(cfg, v, w, ch, f);
    } else if Places(cfg, w, ch, f) {
      PlacedAlikeIff(cfg, w, v, ch, f);
    } else {
      KeptAlikeIff(cfg, v, w, ch, f);
    }
  }

  /** One report, met by two stores over the same tree. */
  lemma TakeAgreesIff(cfg: Config, v: World, w: World, ch: Change, f: Report)
    requires v.tree == w.tree && v.clock == w.clock && ClockAhead(v) && ClockAhead(w)
    ensures Take(cfg, v, ch, f) == Take(cfg, w, ch, f) <==> SameBeside(v, w, ch.path) && SameHere(cfg, v, w, ch, f)
  {
    TakeBeside(cfg, v, ch, f);
    TakeBeside(cfg, w, ch, f);
    SameWorldIff(Take(cfg, v, ch, f), Take(cfg, w, ch, f), ch.path);
    TakenAlike(cfg, v, w, ch, f);
  }

  lemma RememberFlushed(w: World, forget: set<Path>, p: Path, f: Report)
    requires p !in forget
    ensures Remember(Flush(w, forget), p, f) == Flush(Remember(w, p, f), forget)
  {
    var b := Baseline(f.content, w.clock);
    assert w.echo[p := b] - forget == (w.echo - forget)[p := b];
    assert w.tomb - {p} - forget == (w.tomb - forget) - {p};
    assert w.refetch - {p} - forget == (w.refetch - forget) - {p};
  }

  /** A report at a path not waiting to be forgotten can as well come after the flush. */
  lemma TakeFlushed(cfg: Config, w: World, forget: set<Path>, ch: Change, f: Report)
    requires ch.path !in forget
    ensures Flush(Take(cfg, w, ch, f), forget) == Take(cfg, Flush(w, forget), ch, f)
  {
    var p := ch.path;
    assert Get(w.echo - forget, p) == Get(w.echo, p);
    match Decide(cfg, w.tree, Get(w.echo, p), ch, f)
    case Placed(tree) => RememberFlushed(w.(tree := tree), forget, p, f);
    case Failed(_) => assert (w.refetch - forget) + {p} == (w.refetch + {p}) - forget;
    case LeftAlone =>
  }

  // ------------------------------------------------------------ one removal

  /**
   A file moved onto a path waiting to be forgotten, in a subtree now removed:
   a stale baseline there makes it look synced, or it is kept with a stale tombstone or debt.
   */
  ghost predicate StaleFile(cfg: Config, w: World, p: Path, q: Path) {
    && q in w.tree && Inside(q, p) && !IsForeign(cfg.lim, p, q) && w.tree[q].File? && !w.tree[q].placeholder
    && ((q in w.echo && w.echo[q].content == w.tree[q].content) || (q !in cfg.lim.unsynced && (q in w.tomb || q in w.refetch)))
  }

  ghost predicate CleanRemoval(cfg: Config, w: World, forget: set<Path>, p: Path) {
    p in w.tree ==> forall q :: q in forget ==> !StaleFile(cfg, w, p, q)
  }

  /** With no baseline passing for the file's own, the prune decides alike before and after the flush. */
  lemma PrunedAlike(cfg: Config, w: World, forget: set<Path>, p: Path)
    requires NonePasses(cfg, w, forget, p)
    ensures Removed(w.tree, w.echo - forget, cfg.lim, p) == Removed(w.tree, w.echo, cfg.lim, p)
    ensures Repushed(w.tree, w.echo - forget, cfg.lim, p) == Repushed(w.tree, w.echo, cfg.lim, p)
  {
    var e := w.echo - forget;
    forall q | q in w.tree && Inside(q, p) && !IsForeign(cfg.lim, p, q) && !w.tree[q].Dir?
      ensures Deletable(w.tree[q], Get(e, q)) == Deletable(w.tree[q], Get(w.echo, q))
    {
      if q in forget { assert !StaleFile(cfg, w, p, q) || q !in w.echo || w.echo[q].content != w.tree[q].content; }
    }
    forall q | q in w.tree && Inside(q, p) ensures Stays(w.tree, e, cfg.lim, p, q) == Stays(w.tree, w.echo, cfg.lim, p, q) { }
    forall q ensures Survives(w.tree, e, cfg.lim, p, q) == Survives(w.tree, w.echo, cfg.lim, p, q) { }
  }

  lemma PrunedApart(cfg: Config, w: World, forget: set<Path>, p: Path, q: Path)
    requires q in forget && StaleFile(cfg, w, p, q) && q in w.echo && w.echo[q].content == w.tree[q].content
    requires WellFormed(w.tree)
    ensures q in Removed(w.tree, w.echo, cfg.lim, p) && q !in Removed(w.tree, w.echo - forget, cfg.lim, p)
  {
    var e := w.echo - forget;
    assert Inside(q, q) && Stays(w.tree, e, cfg.lim, p, q);
    assert forall r :: r in w.tree && Inside(r, q) ==> r == q || !Strictly(r, q);
  }

  lemma KeptNotRemoved(cfg: Config, w: World, p: Path, q: Path)
    requires q in Repushed(w.tree, w.echo, cfg.lim, p)
    ensures q !in Removed(w.tree, w.echo, cfg.lim, p)
  {
    assert Inside(q, q) && Stays(w.tree, w.echo, cfg.lim, p, q);
  }

  /** No file waiting to be forgotten passes for synced by the baseline it still carries. */
  ghost predicate NonePasses(cfg: Config, w: World, forget: set<Path>, p: Path) {
    forall q :: q in forget && StaleFile(cfg, w, p, q) ==> q !in w.echo || w.echo[q].content != w.tree[q].content
  }

  lemma PrunedAgreesIff(cfg: Config, w: World, forget: set<Path>, p: Path)
    requires NonePasses(cfg, w, forget, p) || p !in w.tree
    ensures var (b, bf) := ApplyRemoved(cfg, w, forget, p);
            var (s, sf) := ApplyRemoved(cfg, Flush(w, forget), {}, p);
      Flush(b, bf) == Flush(s, sf) <==> CleanRemoval(cfg, w, forget, p)
  {
    if p !in w.tree {
      FlushedTwice(w, forget, {p}, {});
    } else {
      var gone, pushed := Removed(w.tree, w.echo, cfg.lim, p), Repushed(w.tree, w.echo, cfg.lim, p);
      PrunedAlike(cfg, w, forget, p);
      forall q | q in pushed ensures q !in gone { KeptNotRemoved(cfg, w, p, q); }
      FlushedTwice(w.(tree := w.tree - gone, echo := w.echo - pushed), forget, gone, pushed);
      assert (w.echo - forget) - pushed == (w.echo - pushed) - forget;
      RepushedClean(cfg, w, forget, p);
    }
  }

  /** The removal of p: the two ways agree exactly when no file in it carries records waiting to be forgotten. */
  lemma RemovalAgreesIff(cfg: Config, w: World, forget: set<Path>, p: Path)
    requires WellFormed(w.tree)
    ensures var (b, bf) := ApplyRemoved(cfg, w, forget, p);
            var (s, sf) := ApplyRemoved(cfg, Flush(w, forget), {}, p);
      Flush(b, bf) == Flush(s, sf) <==> CleanRemoval(cfg, w, forget, p)
  {
    if NonePasses(cfg, w, forget, p) || p !in w.tree {
      PrunedAgreesIff(cfg, w, forget, p);
    } else {
      var q :| q in forget && StaleFile(cfg, w, p, q) && q in w.echo && w.echo[q].content == w.tree[q].content;
      PrunedApart(cfg, w, forget, p, q);
    }
  }

  /** Forgetting all at once, less what is kept, against forgetting in two parts. */
  lemma FlushedTwice(w: World, forget: set<Path>, gone: set<Path>, pushed: set<Path>)
    requires gone !! pushed && forall q :: q in pushed ==> q !in w.echo
    ensures Flush(w, forget + gone - pushed) == Flush(Flush(w, forget), {} + gone - pushed) <==>
      forall q :: q in forget && q in pushed ==> q !in w.tomb && q !in w.refetch
  {
    var all, rest := forget + gone - pushed, {} + gone - pushed;
    assert w.echo - all == w.echo - forget - rest;
    if forall q :: q in forget && q in pushed ==> q !in w.tomb && q !in w.refetch {
      assert w.tomb - all == w.tomb - forget - rest;
      assert w.refetch - all == w.refetch - forget - rest;
    } else {
      var q :| q in forget && q in pushed && (q in w.tomb || q in w.refetch);
      assert q in (w.tomb - all) || q in (w.refetch - all);
      assert q !in (w.tomb - forget - rest) && q !in (w.refetch - forget - rest);
    }
  }

  lemma RepushedClean(cfg: Config, w: World, forget: set<Path>, p: Path)
    requires p in w.tree
    requires NonePasses(cfg, w, forget, p)
    ensures var pushed := Repushed(w.tree, w.echo, cfg.lim, p);
      CleanRemoval(cfg, w, forget, p) <==> forall q :: q in forget && q in pushed ==> q !in w.tomb && q !in w.refetch
  {
    var pushed := Repushed(w.tree, w.echo, cfg.lim, p);
    forall q | q in forget
      ensures StaleFile(cfg, w, p, q) <==> q in pushed && (q in w.tomb || q in w.refetch)
    {
    }
  }

  // ------------------------------------------------------------ one move

  /**
   The row at q, on its way to k, comes out of a flush before the move as out
   of one after it: q waits to be forgotten exactly when k does, or what then
   stands at k is the same row.
   */
  predicate LandsAlike<V(==)>(m: map<Path, V>, forget: set<Path>, q: Path, k: Path) {
    q in m ==> if q in forget then k in forget || (k in m && m[k] == m[q]) else k !in forget
  }

  predicate DebtLandsAlike(owed: set<Path>, forget: set<Path>, q: Path, k: Path) {
    q in owed ==> if q in forget then k in forget || k in owed else k !in forget
  }

  /** The condition for a move, below the directory that moves. */
  ghost predicate CleanMove(w: World, forget: set<Path>, from: Path, to: Path) {
    forall q :: Strictly(q, from) ==>
      LandsAlike(w.echo, forget, q, Moved(q, from, to)) && DebtLandsAlike(w.refetch, forget, q, Moved(q, from, to))
  }

  /** What lies below the directory lands below where it lands. */
  lemma MovedBelow(q: Path, from: Path, to: Path)
    requires Strictly(q, from)
    ensures Strictly(Moved(q, from, to), to) && Moved(Moved(q, from, to), to, from) == q
  {
    InsideSplit(q, from);
    MovedBack(q, from, to);
    assert |Moved(q, from, to)| == |to| + (|q| - |from|);
  }

  lemma RowLandsIff<V>(m: map<Path, V>, from: Path, to: Path, forget: set<Path>, q: Path)
    requires Renamable(from, to) && Strictly(q, from)
    ensures var k, l, r := Moved(q, from, to), Rekey(m, from, to) - (forget - {to}), Rekey(m - forget, from, to);
      && Strictly(k, to)
      && (((k in l <==> k in r) && (k in l && k in r ==> l[k] == r[k])) <==> LandsAlike(m, forget, q, k))
  {
    MovedBelow(q, from, to);
    DisjointSubtrees(from, to, Moved(q, from, to));
  }

  /** Outside the landing subtree a flush and a re-key commute. */
  lemma OtherRows<V>(m: map<Path, V>, from: Path, to: Path, forget: set<Path>, k: Path)
    requires Renamable(from, to) && !Inside(k, to)
    ensures var l, r := Rekey(m, from, to) - (forget - {to}), Rekey(m - forget, from, to);
      (k in l <==> k in r) && (k in l && k in r ==> l[k] == r[k])
  {
    assert Inside(to, to);
  }

  /** And inside it a landing path is one a path below the moved directory lands on. */
  lemma LandingPath(k: Path, from: Path, to: Path)
    requires Renamable(from, to) && Strictly(k, to)
    ensures Inside(k, to) && Strictly(Moved(k, to, from), from) && Moved(Moved(k, to, from), from, to) == k
  {
    MovedBelow(k, to, from);
  }

  lemma RowsLandIff<V>(m: map<Path, V>, from: Path, to: Path, forget: set<Path>)
    requires Renamable(from, to)
    ensures (Rekey(m, from, to) - (forget - {to})) - {to} == Rekey(m - forget, from, to) - {to} <==>
      forall q :: Strictly(q, from) ==> LandsAlike(m, forget, q, Moved(q, from, to))
  {
    var l, r := Rekey(m, from, to) - (forget - {to}), Rekey(m - forget, from, to);
    if l - {to} == r - {to} {
      forall q | Strictly(q, from) ensures LandsAlike(m, forget, q, Moved(q, from, to)) {
        var k := Moved(q, from, to);
        RowLandsIff(m, from, to, forget, q);
        assert (k in l <==> k in l - {to}) && (k in r <==> k in r - {to});
        assert k in l && k in r ==> l[k] == (l - {to})[k] && r[k] == (r - {to})[k];
      }
    }
    if forall q :: Strictly(q, from) ==> LandsAlike(m, forget, q, Moved(q, from, to)) {
      forall k | k != to ensures (k in l <==> k in r) && (k in l && k in r ==> l[k] == r[k]) {
        if Inside(k, to) {
          LandingPath(k, from, to);
          RowLandsIff(m, from, to, forget, Moved(k, to, from));
        } else {
          OtherRows(m, from, to, forget, k);
        }
      }
      assert l - {to} == r - {to};
    }
  }

  lemma DebtsLandIff(owed: set<Path>, from: Path, to: Path, forget: set<Path>)
    requires Renamable(from, to)
    ensures (RekeySet(owed, from, to) - (forget - {to})) - {to} == RekeySet(owed - forget, from, to) - {to} <==>
      forall q :: Strictly(q, from) ==> DebtLandsAlike(owed, forget, q, Moved(q, from, to))
  {
    var l, r := RekeySet(owed, from, to) - (forget - {to}), RekeySet(owed - forget, from, to);
    forall q | Strictly(q, from)
      ensures (Moved(q, from, to) in l - {to} <==> Moved(q, from, to) in r - {to}) <==> DebtLandsAlike(owed, forget, q, Moved(q, from, to))
    {
      DebtLandsIff(owed, from, to, forget, q);
    }
    if forall q :: Strictly(q, from) ==> DebtLandsAlike(owed, forget, q, Moved(q, from, to)) {
      forall k | k != to ensures k in l - {to} <==> k in r - {to} {
        if Inside(k, to) { LandingPath(k, from, to); }
      }
      assert l - {to} == r - {to};
    }
  }

  lemma DebtLandsIff(owed: set<Path>, from: Path, to: Path, forget: set<Path>, q: Path)
    requires Renamable(from, to) && Strictly(q, from)
    ensures var k, l, r := Moved(q, from, to), RekeySet(owed, from, to) - (forget - {to}), RekeySet(owed - forget, from, to);
      (k in l - {to} <==> k in r - {to}) <==> DebtLandsAlike(owed, forget, q, k)
  {
    MovedBelow(q, from, to);
    DisjointSubtrees(from, to, Moved(q, from, to));
  }

  // ------------------------------------------------------------ any change

  /** The condition for a change that reports something: below a move, and at the path itself. */
  ghost predicate CleanReport(cfg: Config, w: World, forget: set<Path>, ch: Change, f: Report) {
    && (MovePerformed(w.tree, ch) ==> CleanMove(w, forget, ch.movedFrom.value, ch.path))
    && SameHere(cfg, MoveLocally(w, ch), MoveLocally(Flush(w, forget), ch), ch, f)
  }

  /** The condition, for any change. */
  ghost predicate Clean(cfg: Config, w: World, forget: set<Path>, ch: Change) {
    ch.skipped ||
    match ch.file
    case None => CleanRemoval(cfg, w, forget, ch.path)
    case Some(f) => CleanReport(cfg, w, forget, ch, f)
  }

  lemma MoveBesideIff(w: World, forget: set<Path>, ch: Change)
    ensures SameBeside(Flush(MoveLocally(w, ch), forget - {ch.path}), MoveLocally(Flush(w, forget), ch), ch.path) <==>
      (MovePerformed(w.tree, ch) ==> CleanMove(w, forget, ch.movedFrom.value, ch.path))
  {
    var p := ch.path;
    assert (w.tomb - (forget - {p})) - {p} == (w.tomb - forget) - {p};
    if MovePerformed(w.tree, ch) {
      RowsLandIff(w.echo, ch.movedFrom.value, p, forget);
      DebtsLandIff(w.refetch, ch.movedFrom.value, p, forget);
    } else {
      assert (w.echo - (forget - {p})) - {p} == (w.echo - forget) - {p};
      assert (w.refetch - (forget - {p})) - {p} == (w.refetch - forget) - {p};
    }
  }

  lemma AheadMoved(w: World, ch: Change)
    requires ClockAhead(w)
    ensures ClockAhead(MoveLocally(w, ch))
  {
  }

  lemma ReportAgreesIff(cfg: Config, w: World, forget: set<Path>, ch: Change, f: Report)
    requires ClockAhead(w) && !ch.skipped && ch.file == Some(f)
    ensures Agrees(cfg, w, forget, ch) <==> CleanReport(cfg, w, forget, ch, f)
  {
    var rest := forget - {ch.path};
    var w1, v := MoveLocally(w, ch), MoveLocally(Flush(w, forget), ch);
    var b := Flush(w1, rest);
    AheadMoved(w, ch);
    AheadMoved(Flush(w, forget), ch);
    TakeFlushed(cfg, w1, rest, ch, f);
    assert {} - {ch.path} == {};
    FlushNothing(Take(cfg, v, ch, f));
    TakeAgreesIff(cfg, b, v, ch, f);
    MoveBesideIff(w, forget, ch);
    SameHereFlushed(cfg, w1, rest, v, ch, f);
  }

  lemma SameHereFlushed(cfg: Config, w: World, rest: set<Path>, v: World, ch: Change, f: Report)
    requires ch.path !in rest
    ensures SameHere(cfg, Flush(w, rest), v, ch, f) <==> SameHere(cfg, w, v, ch, f)
  {
    assert Get(w.echo - rest, ch.path) == Get(w.echo, ch.path);
  }

  /**
   Any one change: collecting its removals for the page's flush agrees with
   flushing them at once exactly when the change is clean.
   */
  lemma ChangeAgreesIff(cfg: Config, w: World, forget: set<Path>, ch: Change)
    requires ClockAhead(w) && (!ch.skipped && ch.file.None? ==> WellFormed(w.tree))
    ensures Agrees(cfg, w, forget, ch) <==> Clean(cfg, w, forget, ch)
  {
    if ch.skipped {
      FlushNothing(Flush(w, forget));
    } else {
      match ch.file
      case None => RemovalAgreesIff(cfg, w, forget, ch.path);
      case Some(f) => ReportAgreesIff(cfg, w, forget, ch, f);
    }
  }

  /**
   A move that is performed: below the directory each recorded path must wait
   to be forgotten exactly when the path it lands on does, or land on its like;
   and at the landing path both stores must take the report, or know it alike.
   */
  lemma MoveAgreesIff(cfg: Config, w: World, forget: set<Path>, ch: Change)
    requires ClockAhead(w) && MovePerformed(w.tree, ch)
    ensures Agrees(cfg, w, forget, ch) <==>
      && CleanMove(w, forget, ch.movedFrom.value, ch.path)
      && SameHere(cfg, MoveLocally(w, ch), MoveLocally(Flush(w, forget), ch), ch, ch.file.value)
  {
    ReportAgreesIff(cfg, w, forget, ch, ch.file.value);
  }

  // ------------------------------------------------------------ a change that moves nothing

  /** Paths waiting to be forgotten are gone from the tree, or directories made again: so it is until something moves. */
  ghost predicate ForgottenGone(w: World, forget: set<Path>) {
    forall p :: p in forget && p in w.tree ==> w.tree[p].Dir?
  }

  predicate HasRecord(w: World, p: Path) { p in w.echo || p in w.tomb }

  /**
   Whether a change to a path waiting to be forgotten leaves the stale
   records it finds there: it carries their identity, or nothing to place, or fails.
   */
  ghost predicate LeavesStale(cfg: Config, w: World, ch: Change)
    requires ch.file.Some?
  {
    var f := ch.file.value;
    if f.exportOnly then HasRecord(w, ch.path) || ch.path in w.refetch
    else HasRecord(w, ch.path) && (IsEcho(w, ch.path, f) || Decide(cfg, w.tree, Get(w.echo, ch.path), ch, f).Failed?)
  }

  /** The condition, for one change that moves nothing. */
  ghost predicate CleanChange(cfg: Config, w: World, forget: set<Path>, ch: Change) {
    !ch.skipped && ch.file.Some? && ch.path in forget ==> !LeavesStale(cfg, w, ch)
  }

  /**
   One change that moves nothing, in a page that has not: batching agrees
   exactly when the change does not leave stale records at a path waiting to be forgotten.
   */
  lemma AgreesIff(cfg: Config, w: World, forget: set<Path>, ch: Change)
    requires ForgottenGone(w, forget) && ClockAhead(w) && !MovePerformed(w.tree, ch)
    ensures Agrees(cfg, w, forget, ch) <==> CleanChange(cfg, w, forget, ch)
  {
    if ch.skipped {
      FlushNothing(Flush(w, forget));
    } else {
      match ch.file
      case None => PrunedAgreesIff(cfg, w, forget, ch.path);
      case Some(f) => ReportAgreesIff(cfg, w, forget, ch, f);
    }
  }

  // ------------------------------------------------------------ the tree stays a tree

  /** Everything stands in directories that are there. */
  ghost predicate Rooted(tree: Tree) {
    forall q, a :: q in tree && Strictly(q, a) ==> a in tree && tree[a].Dir?
  }

  lemma RootedFormed(tree: Tree)
    requires Rooted(tree)
    ensures WellFormed(tree)
  {
  }

  lemma AncestorsAre(p: Path, a: Path)
    ensures a in Ancestors(p) <==> Strictly(p, a)
  {
    if a in Ancestors(p) {
      var i :| 0 <= i < |p| && p[i] == '/' && a == p[..i];
      assert p[..i + 1] == a + "/";
    }
    if Strictly(p, a) {
      InsideSplit(p, a);
      assert p[..|a|] == a && p[|a|] == '/';
    }
  }

  lemma StrictlyTrans(a: Path, b: Path, c: Path)
    requires Inside(a, b) && Strictly(b, c)
    ensures Strictly(a, c)
  {
    InsideTrans(a, b, c);
    InsideSplit(a, b);
  }

  lemma RootedWithParents(tree: Tree, p: Path)
    requires Rooted(tree) && ParentsOk(tree, p)
    ensures Rooted(WithParents(tree, p))
    ensures forall a :: Strictly(p, a) ==> a in WithParents(tree, p) && WithParents(tree, p)[a].Dir?
  {
    var t := WithParents(tree, p);
    forall a | Strictly(p, a) ensures a in t && t[a].Dir? { AncestorsAre(p, a); }
    forall q, a | q in t && Strictly(q, a) ensures a in t && t[a].Dir? {
      if q !in tree {
        AncestorsAre(p, q);
        StrictlyTrans(p, q, a);
      }
    }
  }

  lemma RootedPut(tree: Tree, p: Path, n: Node)
    requires Rooted(tree) && (forall a :: Strictly(p, a) ==> a in tree && tree[a].Dir?)
    requires p in tree && tree[p].Dir? ==> n.Dir?
    ensures Rooted(tree[p := n])
  {
  }

  /** A file, having nothing under it, can go. */
  lemma RootedWithout(tree: Tree, p: Path)
    requires Rooted(tree)
    ensures p in tree && !tree[p].Dir? ==> Rooted(tree - {p})
  {
  }

  lemma RootedPlaced(cfg: Config, tree: Tree, ch: Change, f: Report)
    requires Rooted(tree) && PlaceFile(cfg, tree, ch, f).Placed? && (ch.path in tree ==> !tree[ch.path].Dir?)
    ensures Rooted(PlaceFile(cfg, tree, ch, f).tree)
  {
    AncestorsAre(ch.path, ch.path);
    RootedWithParents(tree, ch.path);
    RootedPut(WithParents(tree, ch.path), ch.path, File(f.content, cfg.lazy));
  }

  lemma RootedDirectory(tree: Tree, p: Path)
    requires Rooted(tree) && ParentsOk(tree, p)
    ensures Rooted(WithParents(tree, p)[p := Dir])
  {
    RootedWithParents(tree, p);
    RootedPut(WithParents(tree, p), p, Dir);
  }

  lemma RootedDecided(cfg: Config, tree: Tree, baseline: Option<Baseline>, ch: Change, f: Report)
    requires Rooted(tree) && Decide(cfg, tree, baseline, ch, f).Placed?
    ensures Rooted(Decide(cfg, tree, baseline, ch, f).tree)
  {
    if f.dir {
      RootedDirectory(tree, ch.path);
    } else {
      if PlaceFile(cfg, tree, ch, f).Placed? && (ch.path in tree ==> !tree[ch.path].Dir?) { RootedPlaced(cfg, tree, ch, f); }
      if ch.path in tree { RootedPut(tree, ch.path, File(f.content, true)); }
    }
  }

  lemma MovedStrictly(q: Path, a: Path, from: Path, to: Path)
    requires Inside(a, from) && Strictly(q, a)
    ensures Inside(q, from) && Strictly(Moved(q, from, to), Moved(a, from, to))
  {
    InsideTrans(q, a, from);
    InsideSplit(q, a);
    InsideSplit(a, from);
    var m, n := Moved(q, from, to), Moved(a, from, to);
    assert q[..|a| + 1] == a + "/";
    assert q[|from|..][..|a| + 1 - |from|] == a[|from|..] + "/";
    assert m[..|n| + 1] == n + "/";
  }

  lemma RootedMoved(tree: Tree, ch: Change)
    requires Rooted(tree) && MovePerformed(tree, ch)
    ensures Rooted(Rekey(WithParents(tree, ch.path), ch.movedFrom.value, ch.path))
  {
    var from, to := ch.movedFrom.value, ch.path;
    var m := WithParents(tree, to);
    var t := Rekey(m, from, to);
    RootedWithParents(tree, to);
    AncestorsAre(to, to);
    assert to !in m;
    forall q, a | q in t && Strictly(q, a) ensures a in t && t[a].Dir? {
      if Inside(q, to) && Moved(q, to, from) in m {
        MovedParent(m, q, a, from, to);
      } else {
        if Inside(a, to) { assert q in m && Inside(to, to); StrictlyTrans(q, a, to); }
        if Inside(a, from) { InsideTrans(q, a, from); }
      }
    }
  }

  lemma MovedParent(m: Tree, q: Path, a: Path, from: Path, to: Path)
    requires Rooted(m) && Renamable(from, to) && Inside(q, to) && Moved(q, to, from) in m && Strictly(q, a)
    requires forall b :: Strictly(to, b) ==> b in m && m[b].Dir?
    ensures a in Rekey(m, from, to) && Rekey(m, from, to)[a].Dir?
  {
    if Inside(a, to) {
      MovedStrictly(q, a, to, from);
    } else {
      NestedPrefixes(to, a, q);
      if Inside(a, from) { InsideTrans(to, a, from); }
    }
  }

  lemma RootedPruned(tree: Tree, echo: map<Path, Baseline>, lim: Limits, rel: Path)
    requires Rooted(tree)
    ensures Rooted(tree - Removed(tree, echo, lim, rel))
  {
    forall q, a | q in tree && q !in Removed(tree, echo, lim, rel) && Strictly(q, a)
      ensures a !in Removed(tree, echo, lim, rel)
    {
      if Inside(a, rel) {
        InsideTrans(q, a, rel);
        var r :| r in tree && Inside(r, q) && Inside(r, rel) && Stays(tree, echo, lim, rel, r);
        InsideTrans(r, q, a);
      }
    }
  }

  lemma RootedSettled(cfg: Config, w: World, ch: Change, f: Report)
    requires Rooted(w.tree)
    ensures Rooted(Settle(cfg, w, ch, f).tree)
  {
    RootedWithout(w.tree, ch.path);
    if Decide(cfg, w.tree, Get(w.echo, ch.path), ch, f).Placed? { RootedDecided(cfg, w.tree, Get(w.echo, ch.path), ch, f); }
  }

  /** No change makes an entry without its directories, or a file with something under it. */
  lemma RootedAfter(cfg: Config, w: World, forget: set<Path>, ch: Change)
    requires Rooted(w.tree)
    ensures Rooted(ApplyTo(cfg, w, forget, ch).0.tree)
  {
    if !ch.skipped {
      if MovePerformed(w.tree, ch) { RootedMoved(w.tree, ch); }
      var w1 := MoveLocally(w, ch);
      match ch.file
      case None => RootedPruned(w1.tree, w1.echo, cfg.lim, ch.path);
      case Some(f) =>
        RootedSettled(cfg, w1, ch, f);
    }
  }

  // ------------------------------------------------------------ whole pages

  lemma AheadAfter(cfg: Config, w: World, forget: set<Path>, ch: Change)
    requires ClockAhead(w)
    ensures ClockAhead(Tick(ApplyTo(cfg, w, forget, ch).0))
  {
    if !ch.skipped {
      AheadMoved(w, ch);
      var w1 := MoveLocally(w, ch);
      if ch.file.Some? { SettleAhead(cfg, w1, ch, ch.file.value); }
    }
  }

  lemma SettleAhead(cfg: Config, w: World, ch: Change, f: Report)
    requires ClockAhead(w)
    ensures ClockAhead(Tick(Settle(cfg, w, ch, f)))
  {
  }

  /** Every change of the page, met where the batch meets it, is clean. */
  ghost predicate PageClean(cfg: Config, w: World, forget: set<Path>, changes: seq<Change>)
    decreases |changes|
  {
    changes == [] ||
      (var (w1, f1) := ApplyTo(cfg, w, forget, changes[0]);
       && Clean(cfg, w, forget, changes[0])
       && PageClean(cfg, Tick(w1), f1, changes[1..]))
  }

  /**
   A clean page, batched, is the page applied one change at a time: the same
   tree, baselines, tombstones and debts, however long it is.
   */
  lemma {:induction false} BatchIsOneByOne(cfg: Config, w: World, forget: set<Path>, changes: seq<Change>)
    requires Rooted(w.tree) && ClockAhead(w) && PageClean(cfg, w, forget, changes)
    ensures Flush(Batched(cfg, w, forget, changes).0, Batched(cfg, w, forget, changes).1) ==
            OneByOne(cfg, Flush(w, forget), changes)
    decreases |changes|
  {
    if changes != [] {
      var ch := changes[0];
      var (w1, f1) := ApplyTo(cfg, w, forget, ch);
      RootedFormed(w.tree);
      ChangeAgreesIff(cfg, w, forget, ch);
      RootedAfter(cfg, w, forget, ch);
      AheadAfter(cfg, w, forget, ch);
      BatchIsOneByOne(cfg, Tick(w1), f1, changes[1..]);
      var (s1, sf) := ApplyTo(cfg, Flush(w, forget), {}, ch);
      assert Tick(Flush(s1, sf)) == Flush(Tick(w1), f1);
    }
  }

  // ------------------------------------------------------------ work of one's own

  /** A file at p whose content no sync has put there or taken from it. */
  ghost predicate HoldsWork(w: World, p: Path, c: Content) {
    p in w.tree && w.tree[p] == File(c, false) && !(p in w.echo && w.echo[p].content == c)
  }

  /** Where the file at p is after a change: it goes with a directory that moves. */
  function Follow(tree: Tree, ch: Change, p: Path): Path {
    if MovePerformed(tree, ch) && Inside(p, ch.movedFrom.value) then Moved(p, ch.movedFrom.value, ch.path) else p
  }

  /** Moved without a record of its own onto a stale baseline of its very content. */
  predicate Mistaken(w: World, ch: Change, p: Path, c: Content) {
    var q := Follow(w.tree, ch, p);
    q != p && p !in w.echo && q in w.echo && w.echo[q].content == c
  }

  /** A report that finds the file to be the remote's own, or is newer and moves it away as the loser. */
  predicate Overrules(cfg: Config, w: World, ch: Change, f: Report, c: Content) {
    && !f.exportOnly && !f.dir && !IsEcho(w, ch.path, f)
    && (f.content == c || (ch.remoteNewer && ch.keepOk))
  }

  /** The change ends the work that stood at p. */
  predicate Ends(cfg: Config, w: World, ch: Change, p: Path, c: Content) {
    && !ch.skipped
    && (Mistaken(w, ch, p, c) ||
        (ch.file.Some? && ch.path == Follow(w.tree, ch, p) && Overrules(cfg, MoveLocally(w, ch), ch, ch.file.value, c)))
  }

  lemma WorkMoved(w: World, ch: Change, p: Path, c: Content)
    requires Rooted(w.tree) && HoldsWork(w, p, c)
    ensures var q, w1 := Follow(w.tree, ch, p), MoveLocally(w, ch);
      q in w1.tree && w1.tree[q] == File(c, false) && (HoldsWork(w1, q, c) <==> !Mistaken(w, ch, p, c))
  {
    if MovePerformed(w.tree, ch) {
      var from, to := ch.movedFrom.value, ch.path;
      if Inside(p, from) {
        MovedBack(p, from, to);
        DisjointSubtrees(from, to, Moved(p, from, to));
      } else {
        assert Inside(p, to) ==> p == to || Strictly(p, to);
      }
    }
  }

  lemma WorkTaken(cfg: Config, w: World, ch: Change, f: Report, q: Path, c: Content)
    requires Rooted(w.tree) && q in w.tree && w.tree[q] == File(c, false)
    ensures HoldsWork(Take(cfg, w, ch, f), q, c) <==>
      HoldsWork(w, q, c) && !(ch.path == q && Overrules(cfg, w, ch, f, c))
  {
    if ch.path == q {
      forall a | a in Ancestors(q) ensures a in w.tree && w.tree[a].Dir? { AncestorsAre(q, a); }
    } else if Decide(cfg, w.tree, Get(w.echo, ch.path), ch, f).Placed? {
      PlacedExactly(cfg, w.tree, Get(w.echo, ch.path), ch, f);
    }
  }

  lemma WorkPruned(cfg: Config, w: World, forget: set<Path>, p: Path, q: Path, c: Content)
    requires q in w.tree && w.tree[q] == File(c, false)
    ensures HoldsWork(w, q, c) ==> HoldsWork(ApplyRemoved(cfg, w, forget, p).0, q, c)
  {
    if HoldsWork(w, q, c) && Inside(q, p) { assert Inside(q, q) && Stays(w.tree, w.echo, cfg.lim, p, q); }
  }

  /**
   One change of any kind ends a file's own work exactly when a report of its
   path that is not an echo is newer, or has its very content, or a move carries
   it unrecorded onto a stale baseline of that content. A removal never does.
   */
  lemma WorkStandsIff(cfg: Config, w: World, forget: set<Path>, ch: Change, p: Path, c: Content)
    requires Rooted(w.tree) && HoldsWork(w, p, c)
    ensures HoldsWork(ApplyTo(cfg, w, forget, ch).0, Follow(w.tree, ch, p), c) <==> !Ends(cfg, w, ch, p, c)
  {
    if !ch.skipped {
      WorkMoved(w, ch, p, c);
      match ch.file
      case None => WorkPruned(cfg, w, forget, ch.path, p, c);
      case Some(f) =>
        if MovePerformed(w.tree, ch) { RootedMoved(w.tree, ch); }
        WorkTaken(cfg, MoveLocally(w, ch), ch, f, Follow(w.tree, ch, p), c);
    }
  }

  /** Where the file that was at p is after a page. */
  ghost function Whereabouts(cfg: Config, w: World, forget: set<Path>, changes: seq<Change>, p: Path): Path
    decreases |changes|
  {
    if changes == [] then p
    else
      var (w1, f1) := ApplyTo(cfg, w, forget, changes[0]);
      Whereabouts(cfg, Tick(w1), f1, changes[1..], Follow(w.tree, changes[0], p))
  }

  /** No change of the page ends the work that was at p. */
  ghost predicate Spared(cfg: Config, w: World, forget: set<Path>, changes: seq<Change>, p: Path, c: Content)
    decreases |changes|
  {
    changes == [] ||
      (var (w1, f1) := ApplyTo(cfg, w, forget, changes[0]);
       && !Ends(cfg, w, changes[0], p, c)
       && Spared(cfg, Tick(w1), f1, changes[1..], Follow(w.tree, changes[0], p), c))
  }

  /** Work of one's own outlives a whole page of removals, moves and older reports, flush included, where its directories took it. */
  lemma {:induction false} WorkOutlivesPage(cfg: Config, w: World, forget: set<Path>, changes: seq<Change>, p: Path, c: Content)
    requires Rooted(w.tree) && HoldsWork(w, p, c) && Spared(cfg, w, forget, changes, p, c)
    ensures var (b, bf) := Batched(cfg, w, forget, changes);
      Rooted(Flush(b, bf).tree) && HoldsWork(Flush(b, bf), Whereabouts(cfg, w, forget, changes, p), c)
    decreases |changes|
  {
    if changes != [] {
      var (w1, f1) := ApplyTo(cfg, w, forget, changes[0]);
      WorkStandsIff(cfg, w, forget, changes[0], p, c);
      RootedAfter(cfg, w, forget, changes[0]);
      WorkOutlivesPage(cfg, Tick(w1), f1, changes[1..], Follow(w.tree, changes[0], p), c);
    }
  }

  // ------------------------------------------------------------ as the loop does it

  /** One page in progress: the tree, the records, and the removals collected so far. */
  class Applier {
    const cfg: Config
    var tree: Tree
    var echo: map<Path, Baseline>
    var tomb: map<Path, Content>
    var refetch: set<Path>
    var clock: nat
    var forget: set<Path>

    ghost function View(): World
      reads this
    {
      World(tree, echo, tomb, refetch, clock)
    }

    constructor (cfg: Config, w: World)
      ensures this.cfg == cfg && View() == w && forget == {}
    {
      this.cfg := cfg;
      tree, echo, tomb, refetch, clock, forget := w.tree, w.echo, w.tomb, w.refetch, w.clock, {};
    }

    method RememberApplied(p: Path, f: Report)
      modifies this
      ensures View() == Remember(old(View()), p, f) && forget == old(forget)
    {
      echo := echo[p := Baseline(f.content, clock)];
      tomb := tomb - {p};
      refetch := refetch - {p};
    }

    method MoveSubtree(ch: Change)
      modifies this
      ensures View() == MoveLocally(old(View()), ch) && forget == old(forget)
      ensures old(Rooted(tree)) ==> Rooted(tree)
      ensures old(MovePerformed(tree, ch)) ==> MovedWhole(old(View()), View(), ch.movedFrom.value, ch.path)
      ensures old(MovePerformed(tree, ch)) <==>
        && !ch.skipped && ch.movedFrom.Some? && ch.file.Some? && Renamable(ch.movedFrom.value, ch.path)
        && ch.movedFrom.value in old(tree) && ch.path !in old(tree) && ParentsOk(old(tree), ch.path)
      ensures !old(MovePerformed(tree, ch)) ==> View() == old(View())
    {
      ghost var w := View();
      if MovePerformed(tree, ch) {
        MovesWhole(w, ch);
        RenameAll(ch.movedFrom.value, ch.path);
      }
      assert View() == MoveLocally(w, ch);
    }

    /** The rename of the entries and of their records. */
    method RenameAll(from: Path, to: Path)
      modifies this
      ensures View() == old(View()).(tree := Rekey(WithParents(old(tree), to), from, to), echo := Rekey(old(echo), from, to),
                                     refetch := RekeySet(old(refetch), from, to))
      ensures forget == old(forget)
    {
      tree := Rekey(WithParents(tree, to), from, to);
      echo := Rekey(echo, from, to);
      refetch := RekeySet(refetch, from, to);
    }

    /** applyTo; `walk` is the order WalkDir visits a removed directory in. */
    method Apply(ch: Change, walk: seq<Path>)
      requires !ch.skipped && ch.file.None? ==> WellFormed(tree) && IsWalk(tree, cfg.lim, ch.path, walk)
      modifies this
      ensures (View(), forget) == ApplyTo(cfg, old(View()), old(forget), ch)
      ensures ch.skipped ==> View() == old(View()) && forget == old(forget)
      ensures !ch.skipped && ch.file.Some? ==> forget == old(forget) - {ch.path}
      ensures !ch.skipped && ch.file.Some? ==> ReportOutcome(cfg, MoveLocally(old(View()), ch), View(), ch, ch.file.value)
      ensures !ch.skipped && ch.file.None? ==> RemovalOutcome(cfg, old(View()), old(forget), View(), forget, ch.path)
    {
      if ch.skipped { return; }
      ghost var was := View();
      MoveSubtree(ch);
      if ch.file.None? {
        RemovalComesTo(cfg, was, forget, ch.path);
        var r := new Remover(tree, echo, cfg.lim, forget);
        var _ := r.ApplyRemoval(ch.path, walk);
        tree, echo, forget := r.tree, r.echo, r.forget;
        return;
      }
      forget := forget - {ch.path};
      TakeReport(ch, ch.file.value);
    }

    /** A report at its path, once any move has been made. */
    method TakeReport(ch: Change, f: Report)
      modifies this
      ensures View() == Take(cfg, old(View()), ch, f) && forget == old(forget)
      ensures ReportOutcome(cfg, old(View()), View(), ch, f)
    {
      ReportComesTo(cfg, View(), ch, f);
      if f.exportOnly { return; }
      if ch.path in echo {
        if echo[ch.path].content == f.content { return; }
      } else if ch.path in tomb && tomb[ch.path] == f.content {
        return;
      }
      var effect := Decide(cfg, tree, Get(echo, ch.path), ch, f);
      match effect
      case Placed(t) =>
        tree := t;
        RememberApplied(ch.path, f);
      case Failed(t) =>
        tree := t;
        refetch := refetch + {ch.path};
      case LeftAlone =>
    }

    /** flushForget. */
    method FlushForget()
      modifies this
      ensures View() == Flush(old(View()), old(forget)) && forget == {}
      ensures tree == old(tree) && forall p :: p in old(forget) ==> !HasRecord(View(), p) && p !in refetch
      ensures forall p :: p !in old(forget) ==> SameRecords(View(), old(View()), p)
      ensures Flush(View(), old(forget)) == View()
    {
      FlushedOnce(View(), forget);
      echo, tomb, refetch, forget := echo - forget, tomb - forget, refetch - forget, {};
    }
  }

  /** A path's three records. */
  ghost predicate SameRecords(v: World, w: World, p: Path) { SameIdentity(v, w, p) && (p in v.refetch <==> p in w.refetch) }

  lemma FlushedOnce(w: World, forget: set<Path>)
    ensures Flush(Flush(w, forget), forget) == Flush(w, forget)
  {
  }

  /** The entries, the baselines and the debts, all three. */
  ghost predicate MovedWhole(w: World, w': World, from: Path, to: Path) {
    && RowsMoved(WithParents(w.tree, to), w'.tree, from, to)
    && RowsMoved(w.echo, w'.echo, from, to)
    && (forall q :: Inside(q, from) && q in w.refetch ==> Moved(q, from, to) in w'.refetch)
    && (forall q :: !Inside(q, from) && !Inside(q, to) ==> (q in w'.refetch <==> q in w.refetch))
    && w'.tomb == w.tomb
  }

  lemma MovesWhole(w: World, ch: Change)
    requires MovePerformed(w.tree, ch)
    ensures MovedWhole(w, MoveLocally(w, ch), ch.movedFrom.value, ch.path)
    ensures Rooted(w.tree) ==> Rooted(MoveLocally(w, ch).tree)
  {
    var from, to := ch.movedFrom.value, ch.path;
    if Rooted(w.tree) { RootedMoved(w.tree, ch); }
    Records.RekeyMovesRows(WithParents(w.tree, to), from, to);
    Records.RekeyMovesRows(w.echo, from, to);
    forall q | Inside(q, from) ensures Inside(Moved(q, from, to), to) && Moved(Moved(q, from, to), to, from) == q {
      MovedBack(q, from, to);
    }
  }

  // ------------------------------------------------------------ what is excluded

  const PLAIN := Config(Limits({}, {}), false)

  function Reported(p: Path, content: Content, fetchOk: bool): Change {
    Change(p, None, Some(Report(false, false, content)), false, fetchOk, false, true)
  }

  function Deleted(p: Path): Change { Change(p, None, None, false, true, false, true) }

  /** A removal and then a re-report of the baseline's content: the batch drops it as an echo. */
  lemma ReReportDiffers()
    ensures var w := World(map[], map["a" := Baseline("v", 0)], map[], {}, 1);
            var page := [Deleted("a"), Reported("a", "v", true)];
      && "a" !in Flush(Batched(PLAIN, w, {}, page).0, Batched(PLAIN, w, {}, page).1).tree
      && "a" in OneByOne(PLAIN, w, page).tree
  {
    var w := World(map[], map["a" := Baseline("v", 0)], map[], {}, 1);
    var d, r := Deleted("a"), Reported("a", "v", true);
    assert [d, r][1..] == [r] && [r][1..] == [];
    var none: set<Path> := {};
    assert none + {"a"} == {"a"};
    assert ApplyTo(PLAIN, w, none, d) == (w, {"a"});
    assert ApplyTo(PLAIN, Tick(w), {"a"}, r) == (Tick(w), {"a"} - {"a"});
    var s := Tick(Flush(w, {"a"}));
    assert "a" !in s.echo;
    assert Ancestors("a") == {};
    assert "a" in ApplyTo(PLAIN, s, {}, r).0.tree;
    assert Batched(PLAIN, Tick(w), {"a"}, [r]) == Batched(PLAIN, Tick(Tick(w)), {"a"} - {"a"}, []);
    assert OneByOne(PLAIN, s, [r]).tree == ApplyTo(PLAIN, s, {}, r).0.tree;
  }

  const DIRECTORY_A := World(map["a" := Dir], map["a/x" := Baseline("v", 0)], map[], {}, 1)
  const A_TO_B := Change("b", Some("a"), Some(Report(true, false, "d")), false, true, false, true)

  /** The move itself: a record of a/x, if there is one, becomes b/x's. */
  lemma MovedRecord(w: World)
    requires w.tree == map["a" := Dir] && "b" !in w.echo && "b" !in w.tomb && "b/x" !in w.echo
    ensures MovePerformed(w.tree, A_TO_B)
    ensures "b/x" in MoveLocally(w, A_TO_B).echo <==> "a/x" in w.echo
    ensures "b" in MoveLocally(w, A_TO_B).echo <==> "a" in w.echo
    ensures MoveLocally(w, A_TO_B).tomb == w.tomb
  {
    assert Ancestors("b") == {};
    assert HasPrefix("b/x", "b" + "/") && Moved("b/x", "b", "a") == "a/x" && Moved("b", "b", "a") == "a";
    assert "b/x"[..2][0] == 'b' && ("a" + "/")[0] == 'a';
  }

  lemma MovedOne(w: World, forget: set<Path>)
    requires w.tree == map["a" := Dir] && "b" !in w.echo && "b" !in w.tomb && "b/x" !in w.echo && "a" !in w.echo
    ensures var (b, bf) := ApplyTo(PLAIN, w, forget, A_TO_B);
      ("b/x" in b.echo <==> "a/x" in w.echo) && bf == forget - {"b"}
  {
    MovedRecord(w);
    var w1 := MoveLocally(w, A_TO_B);
    assert !IsEcho(w1, "b", A_TO_B.file.value);
  }

  /** A move out of a subtree with a path waiting to be forgotten carries its baseline along. */
  lemma MoveOutDiffers()
    ensures var page := [Deleted("a/x"), A_TO_B];
      && "b/x" in Flush(Batched(PLAIN, DIRECTORY_A, {}, page).0, Batched(PLAIN, DIRECTORY_A, {}, page).1).echo
      && "b/x" !in OneByOne(PLAIN, DIRECTORY_A, page).echo
  {
    var d, w := Deleted("a/x"), DIRECTORY_A;
    var none: set<Path> := {};
    assert [d, A_TO_B][1..] == [A_TO_B] && [A_TO_B][1..] == [];
    assert none + {"a/x"} == {"a/x"};
    assert ApplyTo(PLAIN, w, none, d) == (w, {"a/x"});
    MovedOne(Tick(w), {"a/x"});
    var (b, bf) := ApplyTo(PLAIN, Tick(w), {"a/x"}, A_TO_B);
    assert Batched(PLAIN, Tick(w), {"a/x"}, [A_TO_B]) == (Tick(b), bf);
    var s := Tick(Flush(w, {"a/x"}));
    MovedOne(s, none);
    var (t, tf) := ApplyTo(PLAIN, s, none, A_TO_B);
    assert OneByOne(PLAIN, s, [A_TO_B]) == Tick(Flush(t, tf));
  }
}
