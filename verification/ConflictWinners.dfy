/**
 One conflict, one winner, one copy: what the path lock and the kept record buy,
 where the source's own windows let it fail, and exactly when they do.
 */
module ConflictWinners {
  import opened Options
  import opened Conflicts
  import opened ConflictRuns
  import opened ConflictFingerprints

  /** Every report the pull applies is of the version the remote holds then. */
  ghost predicate Fresh(ws: seq<World>, steps: seq<Step>)
    requires |ws| == |steps| + 1
  {
    forall i :: 0 <= i < |steps| && steps[i].Pull? ==> ws[i].remote == Some(steps[i].f)
  }

  // ------------------------------------------------------------ one winner

  /** What a push about to upload knows of the version it will replace. */
  ghost predicate Settled(cfg: Config, w: World) {
    w.push.Checked? && !w.push.create && w.remote.Some? ==>
      EchoMatches(cfg, w, w.remote.value) || AlreadyKept(w, w.remote.value)
  }

  lemma PlacedEcho(cfg: Config, w: World, f: Remote, ch: Choice)
    ensures var w' := PlaceAndRemember(cfg, w, f, ch);
      (w'.echo == w.echo && w'.keptDb == w.keptDb && w'.keptMem == w.keptMem) || EchoMatches(cfg, w', f)
  {
  }

  /** A version already kept stays kept through a pull of it, or becomes the baseline. */
  lemma PullSettled(cfg: Config, w: World, f: Remote, ch: Choice)
    requires w.remote == Some(f) && (EchoMatches(cfg, w, f) || AlreadyKept(w, f))
    ensures EchoMatches(cfg, Apply(cfg, w, f, ch), f) || AlreadyKept(Apply(cfg, w, f, ch), f)
  {
    PlacedEcho(cfg, w, f, ch);
  }

  lemma KeepRemembers(cfg: Config, w: World, f: Remote, ch: Choice)
    requires cfg.action != Overwrite && KeepRemote(cfg, w, f, ch).1 != KeepFailed
    ensures AlreadyKept(KeepRemote(cfg, w, f, ch).0, f)
  {
  }

  lemma MovedSettled(cfg: Config, w: World, held: LocalFile, seen: Remote, ch: Choice)
    requires w.remote == Some(seen) && cfg.action != Overwrite
    ensures Settled(cfg, CheckMoved(cfg, w, held, seen, ch))
  {
    if KeepRemote(cfg, w, seen, ch).1 != KeepFailed {
      KeepRemembers(cfg, w, seen, ch);
      KeepRemoteFrame(cfg, w, seen, ch);
    }
  }

  lemma CheckSettled(cfg: Config, w: World, ch: Choice)
    requires w.push.Opened? && GateTrue(w) && cfg.action != Overwrite
    ensures Settled(cfg, Check(cfg, w, ch))
  {
    var seen := if w.push.gate.Some? then w.push.gate.value else w.remote;
    if seen.Some? && !EchoMatches(cfg, w, seen.value) { MovedSettled(cfg, w, w.push.held, seen.value, ch); }
  }

  lemma StepSettled(cfg: Config, w: World, s: Step)
    requires Settled(cfg, w) && GateTrue(w) && cfg.action != Overwrite && Enabled(w, s)
    requires s.Pull? ==> w.remote == Some(s.f)
    ensures Settled(cfg, Next(cfg, w, s))
  {
    match s
    case Pull(f, ch) =>
      PullRemote(cfg, w, f, ch);
      if w.push.Checked? && !w.push.create { PullSettled(cfg, w, f, ch); }
    case PushCheck(ch) => CheckSettled(cfg, w, ch);
    case Send(n, ok) => JobStepFrame(w, n);
    case _ =>
  }

  lemma {:induction false} RunSettled(cfg: Config, ws: seq<World>, steps: seq<Step>, k: nat)
    requires Run(cfg, ws, steps) && Initial(ws[0]) && cfg.action != Overwrite && Fresh(ws, steps) && k < |ws|
    ensures Settled(cfg, ws[k])
    decreases k
  {
    if k > 0 {
      RunSettled(cfg, ws, steps, k - 1);
      RunShape(cfg, ws, steps, k - 1);
      StepSettled(cfg, ws[k - 1], steps[k - 1]);
    }
  }

  lemma PlacedInode(cfg: Config, w: World, f: Remote, ch: Choice)
    requires w.local.None?
    ensures var w' := PlaceAndRemember(cfg, w, f, ch);
      w'.local.Some? ==> w'.local.value.inode == w.nextInode
  {
  }

  lemma ResolveTakesIff(cfg: Config, w: World, f: Remote, ch: Choice)
    requires w.local.Some? && cfg.action != Overwrite && w.local.value.inode != w.nextInode
    ensures !StillAt(ResolveConflict(cfg, w, f, ch), w.local.value) <==>
      !AlreadyKept(w, f) && f.modified > w.local.value.mtime && ch.moveOk
  {
    if AlreadyKept(w, f) {
    } else if f.modified <= w.local.value.mtime {
      KeepRemoteFrame(cfg, w, f, ch);
    } else if ch.moveOk {
      KeepLocalGone(cfg, w, ch);
      KeepLocalFrame(cfg, w, ch);
      PlacedInode(cfg, KeepLocal(cfg, w, ch).0, f, ch);
    }
  }

  /**
   The pull takes an edit off the path exactly when the report is neither
   the baseline nor a version already kept, differs from the edit, and is newer.
   */
  lemma TakenAwayIff(cfg: Config, w: World, f: Remote, ch: Choice)
    requires w.local.Some? && !LooksSynced(w, w.local.value) && EchoShape(cfg, w)
    requires cfg.action != Overwrite && w.local.value.inode != w.nextInode
    ensures !StillAt(Apply(cfg, w, f, ch), w.local.value) <==>
      && !EchoMatches(cfg, w, f) && !AlreadyKept(w, f)
      && (if cfg.hashes then w.local.value.content != f.content else HashlessLocal(w, f, ch) == Diverged)
      && f.modified > w.local.value.mtime && ch.moveOk
  {
    ResolveTakesIff(cfg, w, f, ch);
  }

  // ------------------------------------------------------------ a file that left the path

  /** The push has not uploaded, and the file it holds is no longer at the path. */
  ghost predicate Orphaned(w: World) {
    (w.push.Opened? || w.push.Checked?) && !StillAt(w, w.push.held)
  }

  /** Such a push stays so, is over, or is the upload that had been let through. */
  lemma OrphanedStep(cfg: Config, w: World, s: Step)
    requires FilesTrue(w) && Enabled(w, s) && Orphaned(w)
    ensures var w' := Next(cfg, w, s);
      || w'.push.Idle? || (w.push.Checked? && s.PushUpload? && w'.push.Uploaded?)
      || (Orphaned(w') && (w'.push.Checked? ==> w.push.Checked? && w'.push.create == w.push.create))
  {
    match s
    case Pull(f, ch) => PullFiles(cfg, w, f, ch); PullRemote(cfg, w, f, ch);
    case PushCheck(ch) => CheckEnds(cfg, w, ch);
    case Send(n, ok) => JobStepFrame(w, n);
    case _ =>
  }

  /** One push, from its open up to step k: it has neither ended nor uploaded since i. */
  ghost predicate Pending(ws: seq<World>, i: nat, k: nat)
    requires k < |ws|
  {
    forall j :: i <= j <= k ==> ws[j].push.Opened? || ws[j].push.Checked?
  }

  /** Let through by the same check. */
  ghost predicate SamePass(w: World, w': World)
    requires w.push.Checked?
  {
    w'.push.Checked? && w'.push.create == w.push.create
  }

  /**
   A push whose file has left the path never uploads but by a check it had
   already passed; refused even then, it goes back to a check it cannot pass.
   */
  lemma {:induction false} OrphanNeverPasses(cfg: Config, ws: seq<World>, steps: seq<Step>, i: nat, k: nat)
    requires Run(cfg, ws, steps) && Initial(ws[0]) && i <= k < |ws| && Pending(ws, i, k) && Orphaned(ws[i])
    ensures Orphaned(ws[k])
    ensures ws[k].push.Checked? ==> ws[i].push.Checked? && forall j :: i <= j <= k ==> SamePass(ws[i], ws[j])
    decreases k
  {
    if i < k {
      OrphanNeverPasses(cfg, ws, steps, i, k - 1);
      RunFiles(cfg, ws, steps, k - 1);
      OrphanedStep(cfg, ws[k - 1], steps[k - 1]);
    }
  }

  // ------------------------------------------------------------ one push, one winner

  lemma StaysChecked(cfg: Config, w: World, s: Step)
    requires Enabled(w, s) && w.push.Checked? && Next(cfg, w, s).push.Checked?
    ensures Next(cfg, w, s).push.create == w.push.create
    ensures !w.push.create ==> Next(cfg, w, s).remote == w.remote
  {
    match s
    case Pull(f, ch) => PullRemote(cfg, w, f, ch);
    case Send(n, ok) => JobStepFrame(w, n);
    case _ =>
  }

  lemma StaysCheckedAt(cfg: Config, ws: seq<World>, steps: seq<Step>, k: nat)
    requires Run(cfg, ws, steps) && k < |steps| && ws[k].push.Checked? && ws[k + 1].push.Checked?
    ensures ws[k + 1].push.create == ws[k].push.create
    ensures !ws[k].push.create ==> ws[k + 1].remote == ws[k].remote
  {
    StaysChecked(cfg, ws[k], steps[k]);
  }

  lemma {:induction false} ChecksKeepRemote(cfg: Config, ws: seq<World>, steps: seq<Step>, i: nat, k: nat)
    requires Run(cfg, ws, steps) && i <= k < |ws|
    requires forall j :: i <= j <= k ==> ws[j].push.Checked?
    ensures ws[k].push.create == ws[i].push.create
    ensures !ws[i].push.create ==> ws[k].remote == ws[i].remote
    decreases k - i
  {
    if i < k {
      StaysCheckedAt(cfg, ws, steps, i);
      ChecksKeepRemote(cfg, ws, steps, i + 1, k);
    }
  }

  /** Step i is a pull that moves the edit the push holds, which does not pass for synced, away from the path. */
  ghost predicate Takes(ws: seq<World>, steps: seq<Step>, i: nat)
    requires |ws| == |steps| + 1 && i < |steps|
  {
    && steps[i].Pull? && !ws[i].push.Idle? && StillAt(ws[i], ws[i].push.held)
    && !LooksSynced(ws[i], ws[i].local.value) && !StillAt(ws[i + 1], ws[i].push.held)
  }

  /** A pull never takes the edit of a push that has been let through to replace a version. */
  lemma TakesOnlyFromCreate(cfg: Config, ws: seq<World>, steps: seq<Step>, i: nat)
    requires Run(cfg, ws, steps) && Initial(ws[0]) && cfg.action != Overwrite && Fresh(ws, steps) && i < |steps|
    requires Takes(ws, steps, i) && ws[i].push.Checked?
    ensures ws[i].push.create
  {
    var w, f, ch := ws[i], steps[i].f, steps[i].ch;
    RunSettled(cfg, ws, steps, i);
    RunShape(cfg, ws, steps, i);
    RunFiles(cfg, ws, steps, i);
    TakenAwayIff(cfg, w, f, ch);
  }

  /**
   One winner, over the whole push from open to upload. In a run of fresh
   reports, the edit a pull moves away as the loser is not uploaded as the winner,
   unless the upload is a create let through before that report came and the
   object it reported is gone again.
   */
  lemma OneWinner(cfg: Config, ws: seq<World>, steps: seq<Step>, i: nat, k: nat)
    requires Run(cfg, ws, steps) && Initial(ws[0]) && cfg.action != Overwrite && Fresh(ws, steps)
    requires i < k < |steps| && Pending(ws, i, k) && Takes(ws, steps, i)
    requires steps[k].PushUpload? && ws[k + 1].push.Uploaded?
    ensures ws[k].remote.None? && forall j :: i <= j <= k ==> ws[j].push.Checked? && ws[j].push.create
  {
    PullRemote(cfg, ws[i], steps[i].f, steps[i].ch);
    assert Orphaned(ws[i + 1]);
    OrphanNeverPasses(cfg, ws, steps, i + 1, k);
    assert ws[i + 1].push.Checked? && ws[i].push == ws[i + 1].push;
    TakesOnlyFromCreate(cfg, ws, steps, i);
  }

  // ------------------------------------------------------------ one copy

  /** A version counted as kept is known to the store while it stands: as kept, or as the baseline. */
  ghost predicate KeptOnce(cfg: Config, w: World) {
    && (forall v :: w.keeps[v] <= 1)
    && (forall v :: w.nextVersion <= v ==> w.keeps[v] == 0)
    && (w.remote.Some? && w.keeps[w.remote.value.version] > 0 ==> Recognised(cfg, w))
  }

  /** The store knows the standing version, as one already kept or as the baseline: a restart forgets neither. */
  ghost predicate Recognised(cfg: Config, w: World) {
    w.remote.Some? && (w.keptDb == Some(w.remote.value.version) || EchoMatches(cfg, w, w.remote.value))
  }

  /** The object a push sent is the one standing, as far as a baseline can tell. */
  ghost predicate SentStands(cfg: Config, w: World)
    requires w.push.Uploaded?
  {
    var e := Echo(HashOf(cfg, w.push.sent.content), w.push.sent.version, None);
    w.remote.Some? && Matches(e, HashOf(cfg, w.remote.value.content), w.remote.value.version)
  }

  /**
   After an upload is recorded the store knows the standing version exactly when
   it is the one that was sent: a version it had kept or placed meanwhile is forgotten.
   */
  lemma RecordForgetsIff(cfg: Config, w: World)
    requires w.push.Uploaded?
    ensures !Recognised(cfg, Record(cfg, w)) <==> !SentStands(cfg, w)
  {
  }

  /** No record of an upload makes the store forget a version it knew. */
  ghost predicate NothingForgotten(cfg: Config, ws: seq<World>, steps: seq<Step>)
    requires Run(cfg, ws, steps)
  {
    forall i :: 0 <= i < |steps| && steps[i].PushRecord? && Recognised(cfg, ws[i]) ==> SentStands(cfg, ws[i])
  }

  /**
   What the forgetting leads to: after it and a restart, a pull of the standing
   version keeps it once more exactly when the local file has diverged from the
   baseline recorded, is not the older, and the copy can be made.
   */
  lemma KeptAgainIff(cfg: Config, w: World, f: Remote, ch: Choice)
    requires w.push.Uploaded? && w.remote == Some(f) && !SentStands(cfg, w) && cfg.action != Overwrite && EchoShape(cfg, w)
    ensures var w1 := Record(cfg, w).(push := Idle, jobs := map[], keptMem := None);
      Apply(cfg, w1, f, ch).keeps[f.version] == w.keeps[f.version] + 1 <==>
        && w.local.Some? && f.modified <= w.local.value.mtime && Diverges(cfg, w1, f, ch)
        && (cfg.action != LocalTrash ==> Name(Second(f.modified), 1) !in w.copies)
        && (ch.fetchOk || (cfg.action != LocalTrash && CopiesBeside(cfg, w, Name(Second(f.modified), 1), ch)))
  {
    var w1 := Record(cfg, w).(push := Idle, jobs := map[], keptMem := None);
    assert !EchoMatches(cfg, w1, f) && !AlreadyKept(w1, f);
    PullKeepsIff(cfg, w1, f, ch);
  }

  /** The backend can copy the object to n, and nothing stands there. */
  predicate CopiesBeside(cfg: Config, w: World, n: Name, ch: Choice) {
    !(cfg.action == Dir && cfg.place == OnLocal) && cfg.copier && ch.copyOk && n !in w.remoteCopies
  }

  /** There is an object to keep, no copy under the version's name, and a way to make one. */
  predicate CanKeep(cfg: Config, w: World, f: Remote, ch: Choice) {
    var n := Name(Second(f.modified), 1);
    && cfg.action != Overwrite && w.remote.Some? && (cfg.action != LocalTrash ==> n !in w.copies)
    && (ch.fetchOk || (cfg.action != LocalTrash && CopiesBeside(cfg, w, n, ch)))
  }

  /**
   Any report, fresh or stale: a pull of it counts one more keep of its version
   exactly when it is neither the baseline nor the version recorded as kept, meets
   a diverged file that is not the older, and the copy can be made.
   */
  lemma PullKeepsIff(cfg: Config, w: World, f: Remote, ch: Choice)
    ensures Apply(cfg, w, f, ch).keeps[f.version] == w.keeps[f.version] + 1 <==>
      && !EchoMatches(cfg, w, f) && !AlreadyKept(w, f)
      && w.local.Some? && f.modified <= w.local.value.mtime && Diverges(cfg, w, f, ch) && CanKeep(cfg, w, f, ch)
    ensures Apply(cfg, w, f, ch).keeps == w.keeps || Apply(cfg, w, f, ch).keeps == w.keeps + multiset{f.version}
  {
    PlacedKeeps(cfg, w, f, ch);
    if w.local.Some? { ResolveKeepsIff(cfg, w, f, ch); }
  }

  lemma ResolveKeepsIff(cfg: Config, w: World, f: Remote, ch: Choice)
    requires w.local.Some?
    ensures var w' := ResolveConflict(cfg, w, f, ch);
      && w'.keeps == (if !AlreadyKept(w, f) && f.modified <= w.local.value.mtime && CanKeep(cfg, w, f, ch)
                      then w.keeps + multiset{f.version} else w.keeps)
  {
    if AlreadyKept(w, f) {
    } else if f.modified > w.local.value.mtime {
      KeepLocalFrame(cfg, w, ch);
      PlacedKeeps(cfg, KeepLocal(cfg, w, ch).0, f, ch);
    } else {
      KeepCounts(cfg, w, f, ch);
      KeepsNow(cfg, w, f, ch);
    }
  }

  lemma KeepsNow(cfg: Config, w: World, f: Remote, ch: Choice)
    ensures KeepRemote(cfg, w, f, ch).1 == KeptNow <==> !AlreadyKept(w, f) && CanKeep(cfg, w, f, ch)
  {
  }

  // ------------------------------------------------------------ what the check answers

  /** No copy of the version is recorded or taken for one, and none can be made. */
  predicate CannotKeep(cfg: Config, w: World, f: Remote, ch: Choice) {
    && cfg.action != Overwrite && !AlreadyKept(w, f) && !CanKeep(cfg, w, f, ch)
    && (cfg.action != LocalTrash ==> Name(Second(f.modified), 1) !in w.copies)
  }

  lemma KeepFailsIff(cfg: Config, w: World, f: Remote, ch: Choice)
    ensures KeepRemote(cfg, w, f, ch).1 == KeepFailed <==> CannotKeep(cfg, w, f, ch)
  {
    KeepsNow(cfg, w, f, ch);
  }

  /** A first push on which nothing has looked at the remote. */
  predicate FirstPush(w: World)
    requires w.push.Opened?
  {
    w.echo.None? && w.push.gate.None?
  }

  /** A first push goes out as a create, where the backend has one and the policy asks. */
  predicate GoesOutAsCreate(cfg: Config, w: World)
    requires w.push.Opened?
  {
    FirstPush(w) && cfg.creator && cfg.action != Overwrite
  }

  /** The object on the remote is not the baseline, and the push may not replace it unlooked. */
  predicate RemoteMoved(cfg: Config, w: World)
    requires w.push.Opened?
  {
    && !(FirstPush(w) && (cfg.creator || cfg.action == Overwrite))
    && w.remote.Some? && !EchoMatches(cfg, w, w.remote.value)
  }

  /** The push has looked, and the object is the baseline. */
  predicate LooksReplaceable(cfg: Config, w: World)
    requires w.push.Opened?
  {
    && !(FirstPush(w) && (cfg.creator || cfg.action == Overwrite))
    && w.remote.Some? && EchoMatches(cfg, w, w.remote.value)
  }

  /** The remote moved to the very bytes the push holds. */
  predicate SendsNothingNew(cfg: Config, w: World)
    requires w.push.Opened?
  {
    RemoteMoved(cfg, w) && cfg.hasher && HashOf(cfg, w.remote.value.content) == Some(w.push.held.content)
  }

  /** The push holds the baseline's bytes: it carries no edit. */
  predicate SendsNoEdit(cfg: Config, w: World)
    requires w.push.Opened?
  {
    RemoteMoved(cfg, w) && cfg.hasher && w.echo.Some? && w.echo.value.hash == Some(w.push.held.content)
  }

  /** The version to be replaced cannot be kept. */
  predicate LoserStuck(cfg: Config, w: World, ch: Choice)
    requires w.push.Opened?
  {
    RemoteMoved(cfg, w) && CannotKeep(cfg, w, w.remote.value, ch)
  }

  /** What ends a push at its check; in every other case it is let through. */
  predicate CheckRefuses(cfg: Config, w: World, ch: Choice)
    requires w.push.Opened?
  {
    !StillAt(w, w.push.held) || SendsNothingNew(cfg, w) || SendsNoEdit(cfg, w) || LoserStuck(cfg, w, ch)
  }

  /**
   When a check lets a push through. An open push whose look is true is ended
   exactly when its file has left the path, or the remote has moved and the push
   holds its bytes, or no edit, or the version cannot be kept. Otherwise it goes on
   to upload the same file: as a create exactly if it is a first push unlooked, and
   excused exactly if the remote is the baseline.
   */
  lemma CheckRefusesIff(cfg: Config, w: World, ch: Choice)
    requires w.push.Opened? && GateTrue(w)
    ensures var p := Check(cfg, w, ch).push;
      && (p == Idle <==> CheckRefuses(cfg, w, ch))
      && (!CheckRefuses(cfg, w, ch) ==>
            p == Checked(w.push.held, GoesOutAsCreate(cfg, w), LooksReplaceable(cfg, w)))
  {
    if StillAt(w, w.push.held) && RemoteMoved(cfg, w) { MovedRefusesIff(cfg, w, w.push.held, w.remote.value, ch); }
  }

  lemma MovedRefusesIff(cfg: Config, w: World, held: LocalFile, seen: Remote, ch: Choice)
    ensures var p := CheckMoved(cfg, w, held, seen, ch).push;
      && (p == Idle <==>
            || (cfg.hasher && HashOf(cfg, seen.content) == Some(held.content))
            || (cfg.hasher && w.echo.Some? && w.echo.value.hash == Some(held.content))
            || CannotKeep(cfg, w, seen, ch))
      && (p != Idle ==> p == Checked(held, false, false))
  {
    KeepFailsIff(cfg, w, seen, ch);
  }

  /** A push ended because the remote already holds its bytes leaves the path in step with it. */
  lemma NothingNewInStep(cfg: Config, w: World, ch: Choice)
    requires w.push.Opened? && GateTrue(w) && StillAt(w, w.push.held) && SendsNothingNew(cfg, w)
    ensures var w' := Check(cfg, w, ch);
      w'.push == Idle && EchoMatches(cfg, w', w.remote.value) && LooksSynced(w', w.push.held) && w'.echo.value.stamp == Some(w.push.held.stamp)
  {
  }

  /** Keeping a version makes at most one copy and leaves a record. */
  lemma KeepCounts(cfg: Config, w: World, f: Remote, ch: Choice)
    ensures var (w', r) := KeepRemote(cfg, w, f, ch);
      if r == KeptNow then w'.keeps == w.keeps + multiset{f.version} && w'.keptDb == Some(f.version)
      else w'.keeps == w.keeps && (w'.keptDb == w.keptDb || w'.keptDb == Some(f.version))
    ensures w.keptDb == Some(f.version) ==> KeepRemote(cfg, w, f, ch).1 != KeptNow
  {
    var n := Name(Second(f.modified), 1);
    if cfg.action != Overwrite && !AlreadyKept(w, f) && cfg.action != LocalTrash && n !in w.copies && w.remote.Some? {
      if KeepRemoteByCopy(cfg, w, f, n, ch).Some? {
        var w1 := w.(remoteCopies := w.remoteCopies[n := w.remote.value.content],
                     keeps := w.keeps + multiset{f.version});
        DrainFrame(w1.(jobs := w1.jobs[n := TrashOnly]), n, ch.jobSteps);
      } else if KeepRemoteByDownload(cfg, w, f, n, ch).Some? {
        PublishFrame(cfg, w.(copies := w.copies[n := w.remote.value.content],
                             keeps := w.keeps + multiset{f.version}), n, ch);
      }
    }
  }

  lemma PlacedKeeps(cfg: Config, w: World, f: Remote, ch: Choice)
    ensures PlaceAndRemember(cfg, w, f, ch).keeps == w.keeps
    ensures PlaceAndRemember(cfg, w, f, ch).nextVersion == w.nextVersion
  {
  }

  lemma PlaceKeptOnce(cfg: Config, w: World, f: Remote, ch: Choice)
    requires KeptOnce(cfg, w) && w.remote == Some(f)
    ensures KeptOnce(cfg, PlaceAndRemember(cfg, w, f, ch))
  {
    PlaceRemote(cfg, w, f, ch);
    PlacedEcho(cfg, w, f, ch);
    PlacedKeeps(cfg, w, f, ch);
  }

  lemma KeepKeptOnce(cfg: Config, w: World, f: Remote, ch: Choice)
    requires KeptOnce(cfg, w) && w.remote == Some(f) && f.version < w.nextVersion
    requires !EchoMatches(cfg, w, f)
    ensures KeptOnce(cfg, KeepRemote(cfg, w, f, ch).0)
  {
    KeepRemoteFrame(cfg, w, f, ch);
    KeepCounts(cfg, w, f, ch);
  }

  lemma ResolveKeptOnce(cfg: Config, w: World, f: Remote, ch: Choice)
    requires KeptOnce(cfg, w) && w.remote == Some(f) && f.version < w.nextVersion
    requires w.local.Some?
    ensures EchoMatches(cfg, w, f) || KeptOnce(cfg, ResolveConflict(cfg, w, f, ch))
  {
    if EchoMatches(cfg, w, f) || AlreadyKept(w, f) {
    } else if f.modified > w.local.value.mtime {
      KeepLocalFrame(cfg, w, ch);
      PlaceKeptOnce(cfg, KeepLocal(cfg, w, ch).0, f, ch);
    } else {
      KeepKeptOnce(cfg, w, f, ch);
    }
  }

  lemma PullKeptOnce(cfg: Config, w: World, f: Remote, ch: Choice)
    requires KeptOnce(cfg, w) && w.remote == Some(f) && f.version < w.nextVersion
    ensures KeptOnce(cfg, Apply(cfg, w, f, ch))
  {
    PlaceKeptOnce(cfg, w, f, ch);
    if w.local.Some? { ResolveKeptOnce(cfg, w, f, ch); }
  }

  lemma MovedKeptOnce(cfg: Config, w: World, held: LocalFile, seen: Remote, ch: Choice)
    requires KeptOnce(cfg, w) && w.remote == Some(seen) && seen.version < w.nextVersion
    requires !EchoMatches(cfg, w, seen)
    ensures KeptOnce(cfg, CheckMoved(cfg, w, held, seen, ch))
  {
    KeepKeptOnce(cfg, w, seen, ch);
    KeepRemoteFrame(cfg, w, seen, ch);
  }

  lemma CheckKeptOnce(cfg: Config, w: World, ch: Choice)
    requires KeptOnce(cfg, w) && GateTrue(w) && w.push.Opened? && VersionsTrue(w)
    ensures KeptOnce(cfg, Check(cfg, w, ch))
  {
    var seen := if w.push.gate.Some? then w.push.gate.value else w.remote;
    if !StillAt(w, w.push.held) || seen.None? || EchoMatches(cfg, w, seen.value) ||
       (w.echo.None? && w.push.gate.None? && (cfg.action == Overwrite || cfg.creator)) {
      var w' := Check(cfg, w, ch);
      assert w' == w.(push := w'.push);
    } else {
      assert Check(cfg, w, ch) == CheckMoved(cfg, w, w.push.held, seen.value, ch);
      MovedKeptOnce(cfg, w, w.push.held, seen.value, ch);
    }
  }

  lemma StepKeptOnce(cfg: Config, w: World, s: Step)
    requires KeptOnce(cfg, w) && GateTrue(w) && VersionsTrue(w) && Enabled(w, s)
    requires s.Pull? ==> w.remote == Some(s.f)
    requires s.PushRecord? && Recognised(cfg, w) ==> SentStands(cfg, w)
    ensures KeptOnce(cfg, Next(cfg, w, s))
  {
    match s
    case Pull(f, ch) => PullKeptOnce(cfg, w, f, ch);
    case PushCheck(ch) => CheckKeptOnce(cfg, w, ch);
    case Send(n, ok) => JobStepFrame(w, n);
    case _ =>
  }

  /** The standing version is one the remote has given out. */
  ghost predicate VersionsTrue(w: World) { w.remote.Some? ==> w.remote.value.version < w.nextVersion }

  lemma StepVersions(cfg: Config, w: World, s: Step)
    requires VersionsTrue(w) && Enabled(w, s)
    ensures VersionsTrue(Next(cfg, w, s))
  {
    match s
    case Pull(f, ch) => PullRemote(cfg, w, f, ch); PullVersions(cfg, w, f, ch);
    case PushCheck(ch) => CheckSides(cfg, w, ch); CheckVersions(cfg, w, ch);
    case Send(n, ok) => JobStepFrame(w, n);
    case _ =>
  }

  lemma PullVersions(cfg: Config, w: World, f: Remote, ch: Choice)
    ensures Apply(cfg, w, f, ch).nextVersion == w.nextVersion
  {
    PlacedKeeps(cfg, w, f, ch);
    if w.local.Some? { ResolveVersions(cfg, w, f, ch); }
  }

  lemma ResolveVersions(cfg: Config, w: World, f: Remote, ch: Choice)
    requires w.local.Some?
    ensures ResolveConflict(cfg, w, f, ch).nextVersion == w.nextVersion
  {
    if AlreadyKept(w, f) {
    } else if f.modified > w.local.value.mtime {
      KeepLocalFrame(cfg, w, ch);
      PlacedKeeps(cfg, KeepLocal(cfg, w, ch).0, f, ch);
    } else {
      KeepRemoteFrame(cfg, w, f, ch);
    }
  }

  lemma CheckVersions(cfg: Config, w: World, ch: Choice)
    requires w.push.Opened?
    ensures Check(cfg, w, ch).nextVersion == w.nextVersion
  {
    var seen := if w.push.gate.Some? then w.push.gate.value else w.remote;
    if seen.Some? {
      KeepRemoteFrame(cfg, w, seen.value, ch);
      assert CheckMoved(cfg, w, w.push.held, seen.value, ch).nextVersion == w.nextVersion;
    }
  }

  /**
   One copy. In a run of fresh reports in which no record of an upload makes the
   store forget a version it knew, each remote version is kept at most once,
   restarts included.
   */
  lemma {:induction false} KeptAtMostOnce(cfg: Config, ws: seq<World>, steps: seq<Step>, k: nat)
    requires Run(cfg, ws, steps) && Initial(ws[0]) && cfg.action != Overwrite && k < |ws|
    requires Fresh(ws, steps) && NothingForgotten(cfg, ws, steps)
    ensures KeptOnce(cfg, ws[k]) && VersionsTrue(ws[k]) && forall v :: ws[k].keeps[v] <= 1
    decreases k
  {
    if k > 0 {
      KeptAtMostOnce(cfg, ws, steps, k - 1);
      RunShape(cfg, ws, steps, k - 1);
      StepVersions(cfg, ws[k - 1], steps[k - 1]);
      StepKeptOnce(cfg, ws[k - 1], steps[k - 1]);
    }
  }
}
