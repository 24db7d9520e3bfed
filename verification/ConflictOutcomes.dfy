/**
 Where things end up when nothing fails: a loser where the policy sends it, and
 both sides of the path on the winner or on a loser that is kept.
 */
module ConflictOutcomes {
  import opened Options
  import opened Conflicts
  import opened ConflictRuns
  import opened ConflictFingerprints
  import opened ConflictWinners

  /** Every call succeeds, and a sender gets to run to its end. */
  ghost predicate AllOk(ch: Choice) {
    ch.moveOk && ch.copyOk && ch.fetchOk && ch.copyFetchOk && ch.placeOk && ch.recordOk && ch.inline && ch.jobSteps >= 3
  }

  /** A content stored as the copy n, in the places the policy names and nowhere else. */
  ghost predicate SentTo(cfg: Config, w: World, w': World, n: Name, c: Content) {
    && n !in w'.jobs
    && w'.localTrash == (if cfg.action == LocalTrash then w.localTrash + multiset{c} else w.localTrash)
    && w'.remoteTrash == (if cfg.action == RemoteTrash then w.remoteTrash + multiset{c} else w.remoteTrash)
    && w'.copies == (if cfg.action == Dir && cfg.place != OnRemote then w.copies[n := c] else w.copies)
    && w'.remoteCopies == (if cfg.action == Dir && cfg.place != OnLocal then w.remoteCopies[n := c] else w.remoteCopies)
  }

  lemma DrainUpload(w: World, n: Name, k: nat)
    requires n in w.jobs && n in w.copies && k >= 3
    ensures w.jobs[n].UploadKeep? ==> Drain(w, n, k) == w.(remoteCopies := w.remoteCopies[n := w.copies[n]], jobs := w.jobs - {n})
  {
  }

  lemma DrainRemove(w: World, n: Name, k: nat)
    requires n in w.jobs && n in w.copies && w.jobs[n].UploadRemove? && k >= 2
    ensures Drain(w, n, k) ==
      w.(remoteCopies := w.remoteCopies[n := w.copies[n]], copies := w.copies - {n}, jobs := w.jobs - {n})
  {
    var w1 := JobStep(w, n);
    assert w1.jobs - {n} == w.jobs - {n};
    assert Drain(w, n, k) == Drain(w1, n, k - 1);
    assert Drain(w1, n, k - 1) == Drain(JobStep(w1, n), n, k - 2);
  }

  lemma DrainTrash(w: World, n: Name, k: nat)
    requires n in w.jobs && n in w.copies && w.jobs[n].UploadTrash? && k >= 3
    ensures Drain(w, n, k) ==
      w.(remoteTrash := w.remoteTrash + multiset{w.copies[n]}, remoteCopies := w.remoteCopies - {n},
         copies := w.copies - {n}, jobs := w.jobs - {n})
  {
    var w1 := JobStep(w, n);
    var w2 := JobStep(w1, n);
    assert w2.jobs - {n} == w.jobs - {n} && w2.remoteCopies == w.remoteCopies - {n};
    assert Drain(w, n, k) == Drain(w1, n, k - 1);
    assert Drain(w1, n, k - 1) == Drain(w2, n, k - 2);
    assert Drain(w2, n, k - 2) == Drain(JobStep(w2, n), n, k - 3);
  }

  /** A copy made locally and published ends where the policy says, once its sender is done. */
  lemma PublishedPlaced(cfg: Config, w: World, n: Name, c: Content, ch: Choice)
    requires cfg.action == Dir || cfg.action == RemoteTrash
    requires n !in w.copies && n !in w.remoteCopies && n !in w.jobs && AllOk(ch)
    ensures SentTo(cfg, w, Publish(cfg, w.(copies := w.copies[n := c]), n, ch), n, c)
  {
    var w1 := w.(copies := w.copies[n := c]);
    assert w1.copies - {n} == w.copies;
    if cfg.action == Dir && cfg.place == Both {
      DrainUpload(w1.(jobs := w1.jobs[n := UploadKeep]), n, ch.jobSteps);
    } else if cfg.action == RemoteTrash {
      assert w.remoteCopies - {n} == w.remoteCopies;
      DrainTrash(w1.(jobs := w1.jobs[n := UploadTrash]), n, ch.jobSteps);
    } else if cfg.place == OnRemote {
      DrainRemove(w1.(jobs := w1.jobs[n := UploadRemove]), n, ch.jobSteps);
    }
  }

  /** A local loser leaves the path and is exactly where the policy sends it. */
  lemma LocalLoserPlaced(cfg: Config, w: World, ch: Choice)
    requires w.local.Some? && cfg.action != Overwrite && AllOk(ch)
    requires var n := UniqueCopy(w, Second(w.local.value.mtime)); n !in w.remoteCopies && n !in w.jobs
    ensures var (w', ok) := KeepLocal(cfg, w, ch);
      ok && w'.local.None? && SentTo(cfg, w, w', UniqueCopy(w, Second(w.local.value.mtime)), w.local.value.content)
  {
    var l := w.local.value;
    KeepLocalGone(cfg, w, ch);
    if cfg.action != LocalTrash {
      var n := UniqueCopy(w, Second(l.mtime));
      PublishedPlaced(cfg, w.(local := None), n, l.content, ch);
    }
  }

  /** A remote loser is exactly where the policy sends it, whether the backend copied it or it was downloaded. */
  lemma RemoteLoserPlaced(cfg: Config, w: World, f: Remote, ch: Choice)
    requires w.remote == Some(f) && cfg.action != Overwrite && AllOk(ch) && !AlreadyKept(w, f)
    requires var n := Name(Second(f.modified), 1); n !in w.copies && n !in w.remoteCopies && n !in w.jobs
    ensures var (w', r) := KeepRemote(cfg, w, f, ch);
      r == KeptNow && AlreadyKept(w', f) && SentTo(cfg, w, w', Name(Second(f.modified), 1), f.content)
  {
    var n := Name(Second(f.modified), 1);
    if cfg.action != LocalTrash {
      var kept := w.(keeps := w.keeps + multiset{f.version});
      if (cfg.action == Dir && cfg.place == OnLocal) || !cfg.copier {
        assert KeepRemoteByCopy(cfg, w, f, n, ch).None?;
        PublishedPlaced(cfg, kept, n, f.content, ch);
      } else if cfg.action == RemoteTrash {
        TrashOnlyPlaced(kept, n, f.content, ch.jobSteps);
      }
    }
  }

  lemma TrashOnlyPlaced(w: World, n: Name, c: Content, k: nat)
    requires n !in w.jobs && n !in w.remoteCopies && k >= 1
    ensures Drain(w.(remoteCopies := w.remoteCopies[n := c], jobs := w.jobs[n := TrashOnly]), n, k) ==
            w.(remoteTrash := w.remoteTrash + multiset{c})
  {
    var w1 := w.(remoteCopies := w.remoteCopies[n := c], jobs := w.jobs[n := TrashOnly]);
    assert w1.jobs - {n} == w.jobs && w1.remoteCopies - {n} == w.remoteCopies;
    assert Drain(w1, n, k) == Drain(JobStep(w1, n), n, k - 1);
  }

  // ------------------------------------------------------------ a sender that runs later

  /** A copy whose sender was only started ends, once that has run, as if it had run at once. */
  lemma PublishedLater(cfg: Config, w: World, n: Name, ch: Choice, k: nat)
    requires !ch.inline && n !in w.jobs
    ensures Drain(Publish(cfg, w, n, ch), n, k) == Publish(cfg, w, n, ch.(inline := true, jobSteps := k))
    ensures Sends(cfg) ==> n in Publish(cfg, w, n, ch).jobs
  {
  }

  lemma LocalSentLater(cfg: Config, w: World, ch: Choice, k: nat)
    requires w.local.Some? && !ch.inline && UniqueCopy(w, Second(w.local.value.mtime)) !in w.jobs
    ensures Drain(KeepLocal(cfg, w, ch).0, UniqueCopy(w, Second(w.local.value.mtime)), k) ==
            KeepLocal(cfg, w, ch.(inline := true, jobSteps := k)).0
  {
    var l := w.local.value;
    var n := UniqueCopy(w, Second(l.mtime));
    PublishedLater(cfg, w.(local := None, copies := w.copies[n := l.content]), n, ch, k);
  }

  lemma {:induction false} DrainRemembers(w: World, f: Remote, n: Name, k: nat)
    ensures Drain(Remember(w, f), n, k) == Remember(Drain(w, n, k), f)
    decreases k
  {
    if n in w.jobs && k > 0 {
      StepRemembers(w, f, n);
      DrainRemembers(JobStep(w, n), f, n, k - 1);
    }
  }

  lemma StepRemembers(w: World, f: Remote, n: Name)
    requires n in w.jobs
    ensures JobStep(Remember(w, f), n) == Remember(JobStep(w, n), f)
  {
    match w.jobs[n]
    case RemoveLocal =>
    case TrashOnly =>
    case _ =>
  }

  lemma CopiedLater(cfg: Config, w: World, f: Remote, n: Name, ch: Choice, k: nat)
    requires !ch.inline && n !in w.jobs
    ensures KeepRemoteByCopy(cfg, w, f, n, ch).Some? <==> KeepRemoteByCopy(cfg, w, f, n, ch.(inline := true, jobSteps := k)).Some?
    ensures KeepRemoteByCopy(cfg, w, f, n, ch).Some? ==>
      Drain(KeepRemoteByCopy(cfg, w, f, n, ch).value, n, k) == KeepRemoteByCopy(cfg, w, f, n, ch.(inline := true, jobSteps := k)).value
  {
  }

  lemma DownloadedLater(cfg: Config, w: World, f: Remote, n: Name, ch: Choice, k: nat)
    requires !ch.inline && n !in w.jobs
    ensures KeepRemoteByDownload(cfg, w, f, n, ch).Some? <==> KeepRemoteByDownload(cfg, w, f, n, ch.(inline := true, jobSteps := k)).Some?
    ensures KeepRemoteByDownload(cfg, w, f, n, ch).Some? ==>
      Drain(KeepRemoteByDownload(cfg, w, f, n, ch).value, n, k) ==
        KeepRemoteByDownload(cfg, w, f, n, ch.(inline := true, jobSteps := k)).value
  {
    if ch.fetchOk && w.remote.Some? {
      var w1 := w.(copies := w.copies[n := w.remote.value.content], keeps := w.keeps + multiset{f.version});
      PublishedLater(cfg, w1, n, ch, k);
    }
  }

  lemma RemoteSentLater(cfg: Config, w: World, f: Remote, ch: Choice, k: nat)
    requires !ch.inline && Name(Second(f.modified), 1) !in w.jobs
    ensures Drain(KeepRemote(cfg, w, f, ch).0, Name(Second(f.modified), 1), k) ==
            KeepRemote(cfg, w, f, ch.(inline := true, jobSteps := k)).0
  {
    var n, now := Name(Second(f.modified), 1), ch.(inline := true, jobSteps := k);
    if cfg.action == Overwrite || AlreadyKept(w, f) || cfg.action == LocalTrash || n in w.copies {
    } else {
      CopiedLater(cfg, w, f, n, ch, k);
      DownloadedLater(cfg, w, f, n, ch, k);
      match KeepRemoteByCopy(cfg, w, f, n, ch)
      case Some(w1) => DrainRemembers(w1, f, n, k);
      case None =>
        match KeepRemoteByDownload(cfg, w, f, n, ch)
        case Some(w1) => DrainRemembers(w1, f, n, k);
        case None =>
    }
  }

  // ------------------------------------------------------------ the path itself

  /** The path holds what the remote holds, and the baseline says so. */
  ghost predicate InStep(cfg: Config, w: World, f: Remote) {
    w.local.Some? && w.local.value.content == f.content && EchoMatches(cfg, w, f) &&
    LooksSynced(w, w.local.value) && LocalIsBaseline(w, w.local.value)
  }

  lemma PlacedInStep(cfg: Config, w: World, f: Remote, ch: Choice)
    requires w.remote == Some(f) && ch.placeOk && ch.recordOk
    ensures InStep(cfg, PlaceAndRemember(cfg, w, f, ch), f)
    ensures PlaceAndRemember(cfg, w, f, ch).local.value.mtime == f.modified
  {
  }

  lemma ResolveConverges(cfg: Config, w: World, f: Remote, ch: Choice)
    requires w.remote == Some(f) && w.local.Some? && AllOk(ch) && cfg.action != Overwrite
    ensures var w' := ResolveConflict(cfg, w, f, ch);
      InStep(cfg, w', f) || (w'.local == w.local && AlreadyKept(w', f))
  {
    if AlreadyKept(w, f) {
    } else if f.modified > w.local.value.mtime {
      KeepLocalGone(cfg, w, ch);
      KeepLocalFrame(cfg, w, ch);
      PlacedInStep(cfg, KeepLocal(cfg, w, ch).0, f, ch);
    } else {
      KeepRemoteFrame(cfg, w, f, ch);
      KeepSucceeds(cfg, w, f, ch);
    }
  }

  /** What a pull of a fresh report comes to when there is a local file and everything can be read. */
  lemma ApplyForms(cfg: Config, w: World, f: Remote, ch: Choice)
    requires w.remote == Some(f) && !EchoMatches(cfg, w, f) && ch.fetchOk && w.local.Some?
    ensures var w' := Apply(cfg, w, f, ch);
      || w' == PlaceAndRemember(cfg, w, f, ch) || w' == ResolveConflict(cfg, w, f, ch)
      || (w.local.value.content == f.content && w' == RememberApplied(cfg, w, f))
  {
  }

  lemma RememberedInStep(cfg: Config, w: World, f: Remote)
    requires w.local.Some? && w.local.value.content == f.content
    ensures InStep(cfg, RememberApplied(cfg, w, f), f)
  {
  }

  /**
   A fresh report that is not the baseline, with nothing failing: the path ends
   in step with the remote, or the local edit stands and the remote version is kept.
   */
  lemma PullConverges(cfg: Config, w: World, f: Remote, ch: Choice)
    requires w.remote == Some(f) && !EchoMatches(cfg, w, f) && AllOk(ch) && cfg.action != Overwrite
    ensures var w' := Apply(cfg, w, f, ch);
      InStep(cfg, w', f) || (w'.local == w.local && w.local.Some? && AlreadyKept(w', f))
  {
    PlacedInStep(cfg, w, f, ch);
    if w.local.Some? {
      ApplyForms(cfg, w, f, ch);
      ResolveConverges(cfg, w, f, ch);
      if w.local.value.content == f.content { RememberedInStep(cfg, w, f); }
    }
  }

  /** The path holds what the remote holds now, recorded as the report. */
  ghost predicate HoldsRemote(cfg: Config, w: World, f: Remote) {
    w.local.Some? && w.remote.Some? && w.local.value.content == w.remote.value.content && EchoMatches(cfg, w, f)
  }

  lemma PlacedHolds(cfg: Config, w: World, f: Remote, ch: Choice)
    requires w.remote.Some? && ch.placeOk && ch.recordOk
    ensures HoldsRemote(cfg, PlaceAndRemember(cfg, w, f, ch), f)
  {
  }

  lemma ResolvedAnyReport(cfg: Config, w: World, f: Remote, ch: Choice)
    requires w.remote.Some? && w.local.Some? && AllOk(ch) && cfg.action != Overwrite
    ensures var w' := ResolveConflict(cfg, w, f, ch);
      HoldsRemote(cfg, w', f) || (w'.local == w.local && AlreadyKept(w', f))
  {
    if AlreadyKept(w, f) {
    } else if f.modified > w.local.value.mtime {
      KeepLocalGone(cfg, w, ch);
      KeepLocalFrame(cfg, w, ch);
      PlacedHolds(cfg, KeepLocal(cfg, w, ch).0, f, ch);
    } else {
      KeepRemoteFrame(cfg, w, f, ch);
      KeepFailsIff(cfg, w, f, ch);
      KeepRemembers(cfg, w, f, ch);
    }
  }

  lemma AnyReportForms(cfg: Config, w: World, f: Remote, ch: Choice)
    requires w.remote.Some? && !EchoMatches(cfg, w, f) && ch.fetchOk && w.local.Some?
    ensures var w' := Apply(cfg, w, f, ch);
      || w' == PlaceAndRemember(cfg, w, f, ch) || w' == ResolveConflict(cfg, w, f, ch)
      || (w' == RememberApplied(cfg, w, f) && w.local.value.content in {f.content, w.remote.value.content})
  {
  }

  /**
   Any report, stale ones too, with nothing failing: an echo changes nothing;
   otherwise the path holds what the remote holds now, or the file stands and is
   the report's own content, or stands with the version kept.
   */
  lemma AnyReportConverges(cfg: Config, w: World, f: Remote, ch: Choice)
    requires w.remote.Some? && AllOk(ch) && cfg.action != Overwrite
    ensures var w' := Apply(cfg, w, f, ch);
      if EchoMatches(cfg, w, f) then w' == w
      else
        || HoldsRemote(cfg, w', f)
        || (w'.local == w.local && w.local.Some? &&
            (AlreadyKept(w', f) || (w.local.value.content == f.content && EchoMatches(cfg, w', f))))
  {
    PlacedHolds(cfg, w, f, ch);
    if w.local.Some? && !EchoMatches(cfg, w, f) {
      AnyReportForms(cfg, w, f, ch);
      ResolvedAnyReport(cfg, w, f, ch);
    }
  }

  /** Under `overwrite` nothing is kept: the newer side has the path. */
  lemma OverwriteConverges(cfg: Config, w: World, f: Remote, ch: Choice)
    requires w.remote == Some(f) && !EchoMatches(cfg, w, f) && AllOk(ch) && cfg.action == Overwrite
    ensures var w' := Apply(cfg, w, f, ch);
      InStep(cfg, w', f) || (w' == w && w.local.Some? && (f.modified <= w.local.value.mtime || AlreadyKept(w, f)))
  {
    PlacedInStep(cfg, w, f, ch);
    if w.local.Some? {
      ApplyForms(cfg, w, f, ch);
      if w.local.value.content == f.content { RememberedInStep(cfg, w, f); }
    }
  }

  lemma KeepSucceeds(cfg: Config, w: World, f: Remote, ch: Choice)
    requires w.remote == Some(f) && cfg.action != Overwrite && AllOk(ch)
    ensures KeepRemote(cfg, w, f, ch).1 != KeepFailed && AlreadyKept(KeepRemote(cfg, w, f, ch).0, f)
  {
    KeepRemembers(cfg, w, f, ch);
  }

  /**
   A push that was let through: the remote holds the file that was sent, the
   baseline is that version, the file is its own baseline if it is still there,
   and the report of the upload coming back changes nothing.
   */
  lemma PushConverges(cfg: Config, w: World, modified: int, ch: Choice)
    requires w.push.Checked? && (w.push.create ==> w.remote.None?)
    requires StillAt(w, w.push.held) ==> w.local == Some(w.push.held)
    ensures var w1 := Upload(w, modified);
      && w1.push.Uploaded?
      && var w2 := Record(cfg, w1);
      && w2.remote.Some? && w2.remote.value.content == w.push.held.content && EchoMatches(cfg, w2, w2.remote.value)
      && LocalIsBaseline(w2, w.push.held) && (StillAt(w, w.push.held) ==> LooksSynced(w2, w.push.held))
      && w2.echo.Some? && (w2.echo.value.stamp.Some? <==> StillAt(w, w.push.held))
      && Apply(cfg, w2, w2.remote.value, ch) == w2
  {
  }
}
