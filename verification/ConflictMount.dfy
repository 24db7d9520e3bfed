/**
 The operations on one path as the mount performs them, changing the tree, the
 records and the conflicts folder step by step. Each is proved to be the
 function of the same purpose in `Conflicts`, about which the runs are proved,
 and says what its caller may rely on: no copy lost, the loser kept, the path in
 step.
 */
module ConflictMount {
  import opened Options
  import opened Conflicts
  import opened ConflictRuns
  import opened ConflictFingerprints
  import opened ConflictWinners
  import opened ConflictOutcomes

  lemma KeepFailedLeaves(cfg: Config, w: World, f: Remote, ch: Choice)
    requires KeepRemote(cfg, w, f, ch).1 == KeepFailed
    ensures KeepRemote(cfg, w, f, ch).0 == w
  {
  }

  class Mount {
    const cfg: Config
    var local: Option<LocalFile>
    var remote: Option<Remote>
    var echo: Option<Echo>
    var keptDb: Option<nat>
    var keptMem: Option<nat>
    var copies: map<Name, Content>
    var remoteCopies: map<Name, Content>
    var localTrash: multiset<Content>
    var remoteTrash: multiset<Content>
    var jobs: map<Name, Job>
    var push: Push
    var nextVersion: nat
    var nextInode: nat
    var nextStamp: nat
    ghost var keeps: multiset<nat>
    ghost var synced: Option<Content>

    ghost function View(): World
      reads this
    {
      World(local, remote, echo, keptDb, keptMem, copies, remoteCopies, localTrash, remoteTrash, jobs, push,
            nextVersion, nextInode, nextStamp, keeps, synced)
    }

    constructor (cfg: Config)
      ensures this.cfg == cfg
      ensures View() == World(None, None, None, None, None, map[], map[], multiset{}, multiset{}, map[], Idle,
                              0, 0, 0, multiset{}, None)
    {
      this.cfg := cfg;
      local, remote, echo, keptDb, keptMem := None, None, None, None, None;
      copies, remoteCopies, localTrash, remoteTrash := map[], map[], multiset{}, multiset{};
      jobs, push, nextVersion, nextInode, nextStamp := map[], Idle, 0, 0, 0;
      keeps, synced := multiset{}, None;
    }

    method FreeName(second: int) returns (n: Name)
      ensures n == UniqueCopy(View(), second)
    {
      ghost var r := FirstFree(copies.Keys, second, 1);
      n := Name(second, 1);
      while n in copies
        invariant n.second == second && 1 <= n.n <= r
        invariant forall m :: 1 <= m < n.n ==> Name(second, m) in copies
        decreases r - n.n
      {
        n := Name(second, n.n + 1);
      }
    }

    method SendStep(n: Name)
      requires n in jobs
      modifies this
      ensures View() == JobStep(old(View()), n)
      ensures old(JobsSafe(View())) ==> JobsSafe(View()) && (KeepsAll(old(View()), View()) <==> old(ClearSend(View(), n)))
      ensures old(JobsSafe(View()) && ClearSend(View(), n)) ==> Keeping(old(View()), View())
    {
      StepKeeps(View(), n);
      var job := jobs[n];
      match job
      case UploadKeep =>
        if n in copies { remoteCopies := remoteCopies[n := copies[n]]; }
        jobs := jobs - {n};
      case UploadRemove =>
        if n in copies {
          remoteCopies := remoteCopies[n := copies[n]];
          jobs := jobs[n := RemoveLocal];
        } else { jobs := jobs - {n}; }
      case UploadTrash =>
        if n in copies {
          remoteCopies := remoteCopies[n := copies[n]];
          jobs := jobs[n := TrashThenRemove];
        } else { jobs := jobs - {n}; }
      case TrashThenRemove =>
        if n in remoteCopies {
          remoteTrash := remoteTrash + multiset{remoteCopies[n]};
          remoteCopies := remoteCopies - {n};
          jobs := jobs[n := RemoveLocal];
        } else { jobs := jobs - {n}; }
      case RemoveLocal =>
        copies := copies - {n};
        jobs := jobs - {n};
      case TrashOnly =>
        if n in remoteCopies {
          remoteTrash := remoteTrash + multiset{remoteCopies[n]};
          remoteCopies := remoteCopies - {n};
        }
        jobs := jobs - {n};
    }

    method SendSteps(n: Name, k: nat) returns (left: nat)
      modifies this
      ensures n !in jobs || left == 0
      ensures Drain(View(), n, left) == Drain(old(View()), n, k)
    {
      left := k;
      ghost var end := Drain(View(), n, k);
      while n in jobs && left > 0
        invariant Drain(View(), n, left) == end
        decreases left
      {
        ghost var before := View();
        DrainStep(before, n, left);
        SendStep(n);
        left := left - 1;
        assert Drain(View(), n, left) == Drain(JobStep(before, n), n, left);
      }
    }

    /** The sender of n, given up after k successful steps. */
    method SendAway(n: Name, k: nat)
      modifies this
      ensures View() == Drain(old(View()), n, k) && n !in jobs
      ensures old(JobsSafe(View()) && (n in jobs && k > 0 ==> ClearSend(View(), n))) ==> Keeping(old(View()), View())
    {
      DrainKeeps(View(), n, k);
      var left := SendSteps(n, k);
      DrainStops(View(), n, left);
      jobs := jobs - {n};
    }

    method FinishSending(n: Name, ch: Choice)
      modifies this
      ensures View() == Finish(old(View()), n, ch)
      ensures old(JobsSafe(View()) && (ch.inline && ch.jobSteps > 0 && n in jobs ==> ClearSend(View(), n))) ==> Keeping(old(View()), View())
    {
      if ch.inline { SendAway(n, ch.jobSteps); }
    }

    method PublishCopy(n: Name, ch: Choice)
      modifies this
      ensures View() == Publish(cfg, old(View()), n, ch)
      ensures old(Publishable(cfg, View(), n, ch)) ==> Keeping(old(View()), View())
    {
      PublishKeeps(cfg, View(), n, ch);
      if cfg.action == Dir && cfg.place == OnLocal { return; }
      if cfg.action == Dir && cfg.place == Both {
        jobs := jobs[n := UploadKeep];
      } else if cfg.action == RemoteTrash {
        jobs := jobs[n := UploadTrash];
      } else {
        jobs := jobs[n := UploadRemove];
      }
      FinishSending(n, ch);
    }

    /** The file at the path renamed into the folder. */
    method MoveAside() returns (n: Name)
      requires local.Some?
      modifies this
      ensures n == UniqueCopy(old(View()), Second(old(local.value.mtime))) && n !in old(copies)
      ensures View() == old(View()).(local := None, copies := old(copies)[n := old(local.value.content)])
    {
      n := FreeName(Second(local.value.mtime));
      copies := copies[n := local.value.content];
      local := None;
    }

    method KeepLocalLoser(ch: Choice) returns (ok: bool)
      requires local.Some?
      modifies this
      ensures (View(), ok) == KeepLocal(cfg, old(View()), ch)
      ensures !ok ==> View() == old(View())
      ensures old(JobsSafe(View()) && ClearLocal(cfg, View(), ch)) && cfg.action != Overwrite ==>
                Keeping(old(View()), View()) && (ok ==> local.None? && Kept(View(), old(local.value.content)))
    {
      LocalKept(cfg, View(), ch);
      if cfg.action == Overwrite { return true; }
      if !ch.moveOk { return false; }
      var l := local.value;
      if cfg.action == LocalTrash {
        localTrash := localTrash + multiset{l.content};
        local := None;
        return true;
      }
      var n := MoveAside();
      PublishCopy(n, ch);
      ok := true;
    }

    method RememberKept(f: Remote)
      modifies this
      ensures View() == Remember(old(View()), f) && AlreadyKept(View(), f)
      ensures old(JobsSafe(View()) && TrueReport(View(), f) && (remote == Some(f) ==> Kept(View(), f.content))) ==>
                Keeping(old(View()), View())
    {
      VersionRemembered(View(), f);
      keptMem := Some(f.version);
      keptDb := Some(f.version);
    }

    /** The backend's copy of the object to n. */
    method CopyBeside(f: Remote, n: Name)
      requires remote.Some?
      modifies this
      ensures View() == old(View()).(remoteCopies := old(remoteCopies)[n := old(remote.value.content)],
                                     keeps := old(keeps) + multiset{f.version})
    {
      remoteCopies := remoteCopies[n := remote.value.content];
      keeps := keeps + multiset{f.version};
    }

    method CopyOnRemote(f: Remote, n: Name, ch: Choice) returns (ok: bool)
      modifies this
      ensures ok <==> KeepRemoteByCopy(cfg, old(View()), f, n, ch).Some?
      ensures View() == if ok then KeepRemoteByCopy(cfg, old(View()), f, n, ch).value else old(View())
      ensures ok && old(JobsSafe(View())) && n !in old(copies) ==>
                remote.Some? && KeptIn(old(View()), View(), remote.value.content)
    {
      CopyKeeps(cfg, View(), f, n, ch);
      if cfg.action == Dir && cfg.place == OnLocal { return false; }
      if !cfg.copier || !ch.copyOk || remote.None? || n in remoteCopies { return false; }
      CopyBeside(f, n);
      ok := true;
      if cfg.action == RemoteTrash {
        jobs := jobs[n := TrashOnly];
        FinishSending(n, ch);
      } else if cfg.place != OnRemote && ch.copyFetchOk {
        copies := copies[n := remote.value.content];
      }
    }

    method DownloadCopy(f: Remote, n: Name, ch: Choice) returns (ok: bool)
      modifies this
      ensures ok <==> KeepRemoteByDownload(cfg, old(View()), f, n, ch).Some?
      ensures View() == if ok then KeepRemoteByDownload(cfg, old(View()), f, n, ch).value else old(View())
      ensures ok && old(Downloadable(cfg, View(), n, ch)) ==>
                remote.Some? && KeptIn(old(View()), View(), remote.value.content)
    {
      if !ch.fetchOk || remote.None? { return false; }
      DownloadKeeps(cfg, View(), f, n, ch);
      copies := copies[n := remote.value.content];
      keeps := keeps + multiset{f.version};
      PublishCopy(n, ch);
      ok := true;
    }

    method KeepRemoteLoser(f: Remote, ch: Choice) returns (r: KeepResult)
      modifies this
      ensures (View(), r) == KeepRemote(cfg, old(View()), f, ch)
      ensures r == KeepFailed ==> View() == old(View())
      ensures r != KeepFailed && cfg.action != Overwrite ==> AlreadyKept(View(), f)
      ensures old(JobsSafe(View()) && ClearVersion(cfg, View(), f, ch)) && cfg.action != Overwrite ==>
                KeepFrame(old(View()), View()) && KeepsInv(cfg, old(View()), f, View())
      ensures r != KeepFailed && old(Keepable(cfg, View(), f, ch)) ==> Inv(View()) && Kept(View(), f.content)
    {
      VersionKept(cfg, View(), f, ch);
      if cfg.action == Overwrite { return KeptNowhere; }
      if keptMem == Some(f.version) || keptDb == Some(f.version) { return KeptBefore; }
      if cfg.action == LocalTrash {
        if !ch.fetchOk || remote.None? { return KeepFailed; }
        localTrash := localTrash + multiset{remote.value.content};
        keeps := keeps + multiset{f.version};
        RememberKept(f);
        return KeptNow;
      }
      var n := Name(Second(f.modified), 1);
      if n in copies {
        RememberKept(f);
        return KeptBefore;
      }
      var ok := CopyOnRemote(f, n, ch);
      if !ok {
        ok := DownloadCopy(f, n, ch);
        if !ok { return KeepFailed; }
      }
      RememberKept(f);
      r := KeptNow;
    }

    method RecordEcho(e: Echo, ghost content: Option<Content>)
      modifies this
      ensures View() == SetEcho(old(View()), e, content)
      ensures old(JobsSafe(View())) ==> Keeping(old(View()), View())
    {
      EchoKeeps(View(), e, content);
      echo, synced := Some(e), content;
      keptDb := None;
    }

    method RememberApply(f: Remote)
      modifies this
      ensures View() == RememberApplied(cfg, old(View()), f) && EchoMatches(cfg, View(), f)
      ensures old(JobsSafe(View())) ==> Keeping(old(View()), View())
    {
      RecordEcho(Echo(HashOf(cfg, f.content), f.version, if local.Some? then Some(local.value.stamp) else None),
                 ContentOf(local));
    }

    method Place(f: Remote, ch: Choice)
      modifies this
      ensures View() == PlaceAndRemember(cfg, old(View()), f, ch)
      ensures old(JobsSafe(View())) ==> Keeping(old(View()), View())
      ensures remote == Some(f) && View() != old(View()) ==>
                local.Some? && local.value.content == f.content && local.value.inode == old(nextInode) &&
                local.value.mtime == f.modified
      ensures remote == Some(f) && ch.placeOk && ch.recordOk ==> InStep(cfg, View(), f)
      ensures !ch.placeOk || remote.None? ==> View() == old(View())
      ensures ch.placeOk && remote.Some? ==> local == Some(LocalFile(old(nextInode), remote.value.content, old(nextStamp), f.modified))
      ensures !ch.recordOk ==> echo == old(echo)
    {
      PlaceKeeps(cfg, View(), f, ch);
      if !ch.placeOk || remote.None? { return; }
      local := Some(LocalFile(nextInode, remote.value.content, nextStamp, f.modified));
      nextInode := nextInode + 1;
      nextStamp := nextStamp + 1;
      if ch.recordOk { RememberApply(f); }
    }

    method Resolve(f: Remote, ch: Choice)
      requires local.Some?
      modifies this
      ensures View() == ResolveConflict(cfg, old(View()), f, ch)
      ensures cfg.action != Overwrite && old(JobsSafe(View()) && ClearResolve(cfg, View(), f, ch)) ==>
                KeepsInv(cfg, old(View()), f, View()) && LocalSafe(old(View()), View())
      ensures cfg.action != Overwrite && old(local.value.inode) != old(nextInode) ==>
                (!StillAt(View(), old(local.value)) <==>
                   !old(AlreadyKept(View(), f)) && f.modified > old(local.value.mtime) && ch.moveOk)
    {
      LoserKept(cfg, View(), f, ch);
      if keptMem == Some(f.version) || keptDb == Some(f.version) { return; }
      if f.modified > local.value.mtime {
        var ok := KeepLocalLoser(ch);
        if ok { Place(f, ch); }
      } else {
        var _ := KeepRemoteLoser(f, ch);
      }
    }

    method ApplyTo(f: Remote, ch: Choice)
      modifies this
      ensures View() == Apply(cfg, old(View()), f, ch)
      ensures cfg.action != Overwrite && old(EchoShape(cfg, View()) && JobsSafe(View()) && ClearLoser(cfg, View(), f, ch)) ==>
                KeepsInv(cfg, old(View()), f, View()) && (LocalSafe(old(View()), View()) <==> !old(LosesEdit(cfg, View(), f, ch)))
      ensures old(FilesTrue(View()) && FingerprintTrue(View())) ==> FingerprintTrue(View())
      ensures cfg.action != Overwrite && AllOk(ch) && old(remote == Some(f) && !EchoMatches(cfg, View(), f)) ==>
                InStep(cfg, View(), f) || (local == old(local) && local.Some? && AlreadyKept(View(), f))
    {
      PullKeeps(cfg, View(), f, ch);
      if echo.Some? && Matches(echo.value, HashOf(cfg, f.content), f.version) { return; }
      if local.None? { Place(f, ch); return; }
      var l := local.value;
      if cfg.hashes {
        if l.content == f.content { RememberApply(f); return; }
        var baseline := if echo.Some? then echo.value.hash else None;
        if baseline != Some(l.content) { Resolve(f, ch); return; }
        Place(f, ch);
        return;
      }
      var verdict := HashlessVerdict(f, ch);
      match verdict
      case Same => RememberApply(f);
      case Diverged => Resolve(f, ch);
      case Unchanged => Place(f, ch);
      case Unreadable =>
    }

    method HashlessVerdict(f: Remote, ch: Choice) returns (v: Verdict)
      requires local.Some?
      ensures v == HashlessLocal(View(), f, ch)
      ensures !cfg.hashes && EchoShape(cfg, View()) ==> (v.Unchanged? <==> LooksSynced(View(), local.value))
      ensures !cfg.hashes && EchoShape(cfg, View()) && v.Unchanged? ==>
                (LocalIsBaseline(View(), local.value) <==> FingerprintTrue(View()))
      ensures remote == Some(f) && v.Same? ==> local.value.content == f.content
      ensures remote == Some(f) && v.Diverged? && (echo.Some? ==> echo.value.stamp.None?) ==> local.value.content != f.content
      ensures remote == Some(f) && ch.fetchOk ==> !v.Unreadable?
    {
      var l := local.value;
      if echo.Some? && echo.value.stamp.Some? {
        return if l.stamp != echo.value.stamp.value then Diverged else Unchanged;
      }
      if |l.content| != |f.content| { return Diverged; }
      if !ch.fetchOk || remote.None? { return Unreadable; }
      v := if l.content == remote.value.content then Same else Diverged;
    }

    method DecideMoved(held: LocalFile, seen: Remote, ch: Choice)
      modifies this
      ensures View() == CheckMoved(cfg, old(View()), held, seen, ch)
      ensures push == Checked(held, false, false) || push == Idle
      ensures push == Idle <==>
        || (cfg.hasher && HashOf(cfg, seen.content) == Some(held.content))
        || (cfg.hasher && old(echo).Some? && old(echo).value.hash == Some(held.content))
        || old(CannotKeep(cfg, View(), seen, ch))
      ensures cfg.action != Overwrite && old(JobsSafe(View()) && ClearMoved(cfg, View(), held, seen, ch)) ==>
                JobsSafe(View()) && KeepsAll(old(View()), View())
      ensures old(Keepable(cfg, View(), seen, ch)) ==> Inv(View()) && (push.Checked? ==> Kept(View(), seen.content))
    {
      MovedKept(cfg, View(), held, seen, ch);
      MovedRefusesIff(cfg, View(), held, seen, ch);
      if cfg.hasher {
        if HashOf(cfg, seen.content) == Some(held.content) {
          RecordEcho(Echo(HashOf(cfg, seen.content), seen.version, Some(held.stamp)), Some(held.content));
          push := Idle;
          return;
        }
        if echo.Some? && echo.value.hash == Some(held.content) { push := Idle; return; }
      }
      var r := KeepRemoteLoser(seen, ch);
      if r == KeepFailed {
        KeepFailedLeaves(cfg, old(View()), seen, ch);
        push := Idle;
      } else {
        push := Checked(held, false, false);
      }
    }

    method CheckRemote(ch: Choice)
      requires push.Opened?
      modifies this
      ensures View() == Check(cfg, old(View()), ch)
      ensures local == old(local) && remote == old(remote)
      ensures push.Idle? || (push.Checked? && push.held == old(push.held) && StillAt(View(), push.held))
      ensures old(GateTrue(View())) ==> (push == Idle <==> old(CheckRefuses(cfg, View(), ch)))
      ensures old(GateTrue(View()) && !CheckRefuses(cfg, View(), ch)) ==>
                push == old(Checked(push.held, GoesOutAsCreate(cfg, View()), LooksReplaceable(cfg, View())))
      ensures cfg.action != Overwrite && old(CheckReady(cfg, View(), ch)) ==>
                JobsSafe(View()) && KeepsAll(old(View()), View()) && Settled(cfg, View())
      ensures cfg.action != Overwrite && old(CheckReady(cfg, View(), ch) && Inv(View()) && StandsHonest(cfg, View())) ==>
                Inv(View())
    {
      CheckKeeps(cfg, View(), ch);
      if GateTrue(View()) { CheckRefusesIff(cfg, View(), ch); }
      var held := push.held;
      if !(local.Some? && local.value.inode == held.inode) { push := Idle; return; }
      var seen := remote;
      if push.gate.Some? {
        seen := push.gate.value;
      } else if echo.None? {
        if cfg.action == Overwrite { push := Checked(held, false, false); return; }
        if cfg.creator { push := Checked(held, true, false); return; }
      }
      if seen.None? { push := Checked(held, false, false); return; }
      if echo.Some? && Matches(echo.value, HashOf(cfg, seen.value.content), seen.value.version) {
        push := Checked(held, false, true);
        return;
      }
      DecideMoved(held, seen.value, ch);
    }

    method UploadWhole(modified: int)
      requires push.Checked?
      modifies this
      ensures View() == Upload(old(View()), modified)
      ensures old(JobsSafe(View())) ==> Keeping(old(View()), View())
      ensures old(Inv(View())) ==> RemoteSafe(old(View()), View())
      ensures old(push.create && remote.Some?) ==> remote == old(remote) && push == Opened(old(push.held), Some(remote))
    {
      UploadKeeps(View(), modified);
      var held := push.held;
      if push.create && remote.Some? { push := Opened(held, Some(remote)); return; }
      var sent := Remote(held.content, nextVersion, modified);
      nextVersion := nextVersion + 1;
      remote := Some(sent);
      push := Uploaded(held, sent);
    }

    method RecordUpload()
      requires push.Uploaded?
      modifies this
      ensures View() == Record(cfg, old(View()))
      ensures old(JobsSafe(View())) ==> Keeping(old(View()), View())
      ensures EchoMatches(cfg, View(), old(push.sent)) && (Recognised(cfg, View()) <==> old(SentStands(cfg, View())))
      ensures LocalIsBaseline(View(), old(push.held)) <==> old(push.held.content == push.sent.content)
      ensures push == Idle && echo.Some? && echo.value.stamp == if old(StillAt(View(), push.held)) then Some(old(push.held.stamp)) else None
      ensures old(FilesTrue(View())) ==> (FingerprintTrue(View()) <==> old(RecordTrue(cfg, View())))
    {
      RecordKeeps(cfg, View());
      var held, sent := push.held, push.sent;
      var stamp := if local.Some? && local.value.inode == held.inode then Some(held.stamp) else None;
      RecordEcho(Echo(HashOf(cfg, sent.content), sent.version, stamp), Some(sent.content));
      push := Idle;
    }
  }

  // ------------------------------------------------------------ what a caller may rely on

  lemma StepKeeps(w: World, n: Name)
    requires n in w.jobs
    ensures JobsSafe(w) ==> JobsSafe(JobStep(w, n)) && (KeepsAll(w, JobStep(w, n)) <==> ClearSend(w, n))
    ensures JobsSafe(w) && ClearSend(w, n) ==> Keeping(w, JobStep(w, n))
  {
    if JobsSafe(w) {
      assert JobSafe(w, n);
      SenderLosesIff(w, n);
      JobStepJobs(w, n);
      if ClearSend(w, n) { JobStepInv(w, n); }
    }
  }

  lemma DrainKeeps(w: World, n: Name, k: nat)
    ensures JobsSafe(w) && (n in w.jobs && k > 0 ==> ClearSend(w, n)) ==> Keeping(w, Drain(w, n, k))
  {
    if JobsSafe(w) && (n in w.jobs && k > 0 ==> ClearSend(w, n)) {
      DrainInv(w, n, k);
      DrainFrame(w, n, k);
      if Inv(w) { InvByCopies(w, Drain(w, n, k)); }
    }
  }

  /** A copy stands at n under a policy with a folder, and an upload of it at once would bury nothing. */
  ghost predicate Publishable(cfg: Config, w: World, n: Name, ch: Choice) {
    && JobsSafe(w) && n in w.copies && (cfg.action == Dir || cfg.action == RemoteTrash)
    && (SendsNow(cfg, ch) ==> Clear(w, n, w.copies[n]))
  }

  lemma PublishKeeps(cfg: Config, w: World, n: Name, ch: Choice)
    ensures Publishable(cfg, w, n, ch) ==> Keeping(w, Publish(cfg, w, n, ch))
  {
    if Publishable(cfg, w, n, ch) {
      PublishInv(cfg, w, n, ch);
      PublishFrame(cfg, w, n, ch);
      if Inv(w) { InvByCopies(w, Publish(cfg, w, n, ch)); }
    }
  }

  lemma LocalKept(cfg: Config, w: World, ch: Choice)
    requires w.local.Some?
    ensures var (w', ok) := KeepLocal(cfg, w, ch);
      && (!ok ==> w' == w)
      && (JobsSafe(w) && ClearLocal(cfg, w, ch) && cfg.action != Overwrite ==>
            Keeping(w, w') && (ok ==> w'.local.None? && Kept(w', w.local.value.content)))
  {
    if JobsSafe(w) && ClearLocal(cfg, w, ch) && cfg.action != Overwrite { KeepLocalInv(cfg, w, ch); }
  }

  lemma VersionRemembered(w: World, f: Remote)
    ensures JobsSafe(w) && TrueReport(w, f) && (w.remote == Some(f) ==> Kept(w, f.content)) ==> Keeping(w, Remember(w, f))
  {
    if JobsSafe(w) { RememberInv(w, f); }
  }

  lemma CopyKeeps(cfg: Config, w: World, f: Remote, n: Name, ch: Choice)
    ensures JobsSafe(w) && n !in w.copies && KeepRemoteByCopy(cfg, w, f, n, ch).Some? ==>
              w.remote.Some? && KeptIn(w, KeepRemoteByCopy(cfg, w, f, n, ch).value, w.remote.value.content)
  {
    if JobsSafe(w) && n !in w.copies && KeepRemoteByCopy(cfg, w, f, n, ch).Some? { ByCopyInv(cfg, w, f, n, ch); }
  }

  /** n is free here under a policy with a folder, and an upload of the standing version to it would bury nothing. */
  ghost predicate Downloadable(cfg: Config, w: World, n: Name, ch: Choice) {
    && JobsSafe(w) && n !in w.copies && (cfg.action == Dir || cfg.action == RemoteTrash)
    && (SendsNow(cfg, ch) && w.remote.Some? ==> Clear(w, n, w.remote.value.content))
  }

  lemma DownloadKeeps(cfg: Config, w: World, f: Remote, n: Name, ch: Choice)
    requires KeepRemoteByDownload(cfg, w, f, n, ch).Some?
    ensures Downloadable(cfg, w, n, ch) ==>
              w.remote.Some? && KeptIn(w, KeepRemoteByDownload(cfg, w, f, n, ch).value, w.remote.value.content)
  {
    if Downloadable(cfg, w, n, ch) { ByDownloadInv(cfg, w, f, n, ch); }
  }

  /** f is the standing version, its name is honest, and keeping it would bury nothing. */
  ghost predicate Keepable(cfg: Config, w: World, f: Remote, ch: Choice) {
    && cfg.action != Overwrite && Inv(w) && w.remote == Some(f)
    && ClearVersion(cfg, w, f, ch) && NameHonest(cfg, w, f)
  }

  lemma VersionKept(cfg: Config, w: World, f: Remote, ch: Choice)
    ensures var (w', r) := KeepRemote(cfg, w, f, ch);
      && (r == KeepFailed ==> w' == w)
      && (r != KeepFailed && cfg.action != Overwrite ==> AlreadyKept(w', f))
      && (JobsSafe(w) && ClearVersion(cfg, w, f, ch) && cfg.action != Overwrite ==> KeepFrame(w, w') && KeepsInv(cfg, w, f, w'))
      && (r != KeepFailed && Keepable(cfg, w, f, ch) ==> Inv(w') && Kept(w', f.content))
  {
    if KeepRemote(cfg, w, f, ch).1 == KeepFailed {
      KeepFailedLeaves(cfg, w, f, ch);
    } else if cfg.action != Overwrite {
      KeepRemembers(cfg, w, f, ch);
    }
    if JobsSafe(w) && ClearVersion(cfg, w, f, ch) && cfg.action != Overwrite { KeepRemoteInv(cfg, w, f, ch); }
  }

  lemma EchoKeeps(w: World, e: Echo, content: Option<Content>)
    ensures JobsSafe(w) ==> Keeping(w, SetEcho(w, e, content))
  {
    if JobsSafe(w) { SetEchoInv(w, e, content); }
  }

  lemma PlaceKeeps(cfg: Config, w: World, f: Remote, ch: Choice)
    ensures var w' := PlaceAndRemember(cfg, w, f, ch);
      && (JobsSafe(w) ==> Keeping(w, w'))
      && (w.remote == Some(f) && ch.placeOk && ch.recordOk ==> InStep(cfg, w', f))
  {
    if JobsSafe(w) { PlaceInv(cfg, w, f, ch); }
  }

  lemma LoserKept(cfg: Config, w: World, f: Remote, ch: Choice)
    requires w.local.Some?
    ensures var w' := ResolveConflict(cfg, w, f, ch);
      && (cfg.action != Overwrite && JobsSafe(w) && ClearResolve(cfg, w, f, ch) ==> KeepsInv(cfg, w, f, w') && LocalSafe(w, w'))
      && (cfg.action != Overwrite && w.local.value.inode != w.nextInode ==>
            (!StillAt(w', w.local.value) <==> !AlreadyKept(w, f) && f.modified > w.local.value.mtime && ch.moveOk))
  {
    if cfg.action != Overwrite {
      if JobsSafe(w) && ClearResolve(cfg, w, f, ch) { ResolveInv(cfg, w, f, ch); }
      if w.local.value.inode != w.nextInode { ResolveTakesIff(cfg, w, f, ch); }
    }
  }

  lemma PullKeeps(cfg: Config, w: World, f: Remote, ch: Choice)
    ensures var w' := Apply(cfg, w, f, ch);
      && (cfg.action != Overwrite && EchoShape(cfg, w) && JobsSafe(w) && ClearLoser(cfg, w, f, ch) ==>
            KeepsInv(cfg, w, f, w') && (LocalSafe(w, w') <==> !LosesEdit(cfg, w, f, ch)))
      && (FilesTrue(w) && FingerprintTrue(w) ==> FingerprintTrue(w'))
      && (cfg.action != Overwrite && AllOk(ch) && w.remote == Some(f) && !EchoMatches(cfg, w, f) ==>
            InStep(cfg, w', f) || (w'.local == w.local && w'.local.Some? && AlreadyKept(w', f)))
  {
    if FilesTrue(w) && FingerprintTrue(w) {
      PullFiles(cfg, w, f, ch);
      FingerprintMoves(w, Apply(cfg, w, f, ch));
    }
    if cfg.action != Overwrite {
      if EchoShape(cfg, w) && JobsSafe(w) && ClearLoser(cfg, w, f, ch) {
        PullInv(cfg, w, f, ch);
        PullLosesEditIff(cfg, w, f, ch);
      }
      if AllOk(ch) && w.remote == Some(f) && !EchoMatches(cfg, w, f) { PullConverges(cfg, w, f, ch); }
    }
  }

  lemma MovedKept(cfg: Config, w: World, held: LocalFile, seen: Remote, ch: Choice)
    ensures var w' := CheckMoved(cfg, w, held, seen, ch);
      && (cfg.action != Overwrite && JobsSafe(w) && ClearMoved(cfg, w, held, seen, ch) ==> JobsSafe(w') && KeepsAll(w, w'))
      && (Keepable(cfg, w, seen, ch) ==> Inv(w') && w'.remote == w.remote && (w'.push.Checked? ==> Kept(w', seen.content)))
  {
    KeepRemoteFrame(cfg, w, seen, ch);
    if cfg.action != Overwrite && JobsSafe(w) && ClearMoved(cfg, w, held, seen, ch) { CheckMovedInv(cfg, w, held, seen, ch); }
  }

  /** The look the push paid for is true, and keeping the standing version would bury nothing. */
  ghost predicate CheckReady(cfg: Config, w: World, ch: Choice)
    requires w.push.Opened?
  {
    JobsSafe(w) && GateTrue(w) && ClearCheck(cfg, w, ch)
  }

  ghost predicate StandsHonest(cfg: Config, w: World) { w.remote.Some? ==> NameHonest(cfg, w, w.remote.value) }

  lemma CheckKeeps(cfg: Config, w: World, ch: Choice)
    requires w.push.Opened?
    ensures var w' := Check(cfg, w, ch);
      && w'.local == w.local && w'.remote == w.remote
      && (w'.push.Idle? || (w'.push.Checked? && w'.push.held == w.push.held && StillAt(w', w'.push.held)))
      && (cfg.action != Overwrite && CheckReady(cfg, w, ch) ==> JobsSafe(w') && KeepsAll(w, w') && Settled(cfg, w'))
      && (cfg.action != Overwrite && CheckReady(cfg, w, ch) && Inv(w) && StandsHonest(cfg, w) ==> Inv(w'))
  {
    CheckSides(cfg, w, ch);
    CheckEnds(cfg, w, ch);
    if cfg.action != Overwrite && CheckReady(cfg, w, ch) {
      CheckInv(cfg, w, ch);
      CheckSettled(cfg, w, ch);
    }
  }

  lemma UploadKeeps(w: World, modified: int)
    requires w.push.Checked?
    ensures JobsSafe(w) ==> Keeping(w, Upload(w, modified))
    ensures Inv(w) ==> RemoteSafe(w, Upload(w, modified))
  {
    if JobsSafe(w) { UploadInv(w, modified); }
  }

  lemma RecordKeeps(cfg: Config, w: World)
    requires w.push.Uploaded?
    ensures JobsSafe(w) ==> Keeping(w, Record(cfg, w))
    ensures Recognised(cfg, Record(cfg, w)) <==> SentStands(cfg, w)
    ensures FilesTrue(w) ==> (FingerprintTrue(Record(cfg, w)) <==> RecordTrue(cfg, w))
  {
    if FilesTrue(w) { RecordTrueIff(cfg, w); }
    RecordForgetsIff(cfg, w);
    if JobsSafe(w) { RecordInv(cfg, w); }
  }

  lemma DrainStep(w: World, n: Name, k: nat)
    requires n in w.jobs && k > 0
    ensures Drain(w, n, k) == Drain(JobStep(w, n), n, k - 1)
  {
  }

  lemma DrainStops(w: World, n: Name, k: nat)
    requires n !in w.jobs || k == 0
    ensures Drain(w, n, k) == w.(jobs := w.jobs - {n})
  {
    if n !in w.jobs { assert w.jobs - {n} == w.jobs; }
  }
}
