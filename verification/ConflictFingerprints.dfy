/**
 The file at the path over a run: which file it is, what its fingerprint says of
 it, and what a pull may therefore take for synced. A backend without digests has
 only the fingerprint, and a push records it after its upload.
 */
module ConflictFingerprints {
  import opened Options
  import opened Conflicts
  import opened ConflictRuns

  // ------------------------------------------------------------ which file it is

  /**
   Every file at the path or held by a push is one the mount has made, an inode is
   one file, and every stamp has been given out.
   */
  ghost predicate FilesTrue(w: World) {
    && (w.local.Some? ==> w.local.value.inode < w.nextInode && w.local.value.stamp < w.nextStamp)
    && (!w.push.Idle? ==> w.push.held.inode < w.nextInode && w.push.held.stamp < w.nextStamp)
    && (!w.push.Idle? && StillAt(w, w.push.held) ==> w.local == Some(w.push.held))
    && (w.echo.Some? && w.echo.value.stamp.Some? ==> w.echo.value.stamp.value < w.nextStamp)
  }

  /** The baseline is of the file now at the path. */
  ghost predicate Remembered(w: World) {
    && w.echo.Some? && w.synced == ContentOf(w.local)
    && w.echo.value.stamp == (if w.local.Some? then Some(w.local.value.stamp) else None)
  }

  /** The file as it was, none, or a new one; the baseline as it was, or of that file. */
  ghost predicate FileMoves(w: World, w': World) {
    && w.nextInode <= w'.nextInode && w.nextStamp <= w'.nextStamp
    && (w'.local == w.local || w'.local.None? ||
        (w'.local.value.inode == w.nextInode < w'.nextInode && w'.local.value.stamp == w.nextStamp < w'.nextStamp))
    && ((w'.echo == w.echo && w'.synced == w.synced) || Remembered(w'))
  }

  lemma PlacedFiles(cfg: Config, w: World, f: Remote, ch: Choice)
    ensures FileMoves(w, PlaceAndRemember(cfg, w, f, ch))
  {
  }

  /** A pull leaves the file at the path, takes it away, or puts a new one there. */
  lemma PullFiles(cfg: Config, w: World, f: Remote, ch: Choice)
    ensures FileMoves(w, Apply(cfg, w, f, ch))
  {
    PlacedFiles(cfg, w, f, ch);
    if w.local.Some? { ResolveFiles(cfg, w, f, ch); }
  }

  lemma ResolveFiles(cfg: Config, w: World, f: Remote, ch: Choice)
    requires w.local.Some?
    ensures FileMoves(w, ResolveConflict(cfg, w, f, ch))
  {
    if AlreadyKept(w, f) {
    } else if f.modified > w.local.value.mtime {
      KeepLocalFrame(cfg, w, ch);
      KeepLocalLeaves(cfg, w, ch);
      PlacedFiles(cfg, KeepLocal(cfg, w, ch).0, f, ch);
    } else {
      KeepRemoteFrame(cfg, w, f, ch);
    }
  }

  lemma KeepLocalGone(cfg: Config, w: World, ch: Choice)
    requires w.local.Some? && cfg.action != Overwrite && ch.moveOk
    ensures KeepLocal(cfg, w, ch).1 && KeepLocal(cfg, w, ch).0.local.None?
  {
    if cfg.action != LocalTrash {
      var l := w.local.value;
      var n := UniqueCopy(w, Second(l.mtime));
      PublishFrame(cfg, w.(local := None, copies := w.copies[n := l.content]), n, ch);
    }
  }

  lemma KeepLocalLeaves(cfg: Config, w: World, ch: Choice)
    requires w.local.Some?
    ensures KeepLocal(cfg, w, ch).0.local == w.local || KeepLocal(cfg, w, ch).0.local.None?
  {
    if cfg.action != Overwrite && ch.moveOk { KeepLocalGone(cfg, w, ch); }
  }

  /** A check records a baseline only by digest, and only of the file it holds. */
  lemma CheckFiles(cfg: Config, w: World, ch: Choice)
    requires w.push.Opened?
    ensures var w' := Check(cfg, w, ch);
      && w'.nextInode == w.nextInode && w'.nextStamp == w.nextStamp
      && ((w'.echo == w.echo && w'.synced == w.synced) ||
          (w'.echo.Some? && w'.echo.value.hash == Some(w.push.held.content) && w'.echo.value.stamp == Some(w.push.held.stamp)))
  {
    var seen := if w.push.gate.Some? then w.push.gate.value else w.remote;
    if seen.Some? { MovedFiles(cfg, w, w.push.held, seen.value, ch); }
  }

  lemma MovedFiles(cfg: Config, w: World, held: LocalFile, seen: Remote, ch: Choice)
    ensures var w' := CheckMoved(cfg, w, held, seen, ch);
      && w'.nextInode == w.nextInode && w'.nextStamp == w.nextStamp
      && ((w'.echo == w.echo && w'.synced == w.synced) ||
          (w'.echo.Some? && w'.echo.value.hash == Some(held.content) && w'.echo.value.stamp == Some(held.stamp)))
  {
    KeepRemoteFrame(cfg, w, seen, ch);
  }

  lemma StepFiles(cfg: Config, w: World, s: Step)
    requires FilesTrue(w) && Enabled(w, s)
    ensures FilesTrue(Next(cfg, w, s))
  {
    match s
    case Pull(f, ch) => PullFiles(cfg, w, f, ch); PullRemote(cfg, w, f, ch);
    case PushCheck(ch) => CheckSides(cfg, w, ch); CheckEnds(cfg, w, ch); CheckFiles(cfg, w, ch);
    case Send(n, ok) => JobStepFrame(w, n);
    case _ =>
  }

  lemma {:induction false} RunFiles(cfg: Config, ws: seq<World>, steps: seq<Step>, k: nat)
    requires Run(cfg, ws, steps) && Initial(ws[0]) && k < |ws|
    ensures FilesTrue(ws[k])
    decreases k
  {
    if k > 0 {
      RunFiles(cfg, ws, steps, k - 1);
      StepFiles(cfg, ws[k - 1], steps[k - 1]);
    }
  }

  // ------------------------------------------------------------ what its fingerprint says

  /**
   A push may record its baseline: by digest, or its file has left the path, or
   holds what was sent.
   */
  ghost predicate RecordTrue(cfg: Config, w: World)
    requires w.push.Uploaded?
  {
    cfg.hashes || (StillAt(w, w.push.held) ==> w.push.held.content == w.push.sent.content)
  }

  /**
   After an upload is recorded the fingerprint is of what was sent exactly when
   the file has not been written since it was sent.
   */
  lemma RecordTrueIff(cfg: Config, w: World)
    requires w.push.Uploaded? && FilesTrue(w)
    ensures FingerprintTrue(Record(cfg, w)) <==> RecordTrue(cfg, w)
  {
  }

  lemma FingerprintMoves(w: World, w': World)
    requires FilesTrue(w) && FingerprintTrue(w) && FileMoves(w, w')
    ensures FingerprintTrue(w')
  {
  }

  /** And every other step keeps it so. */
  lemma StepFingerprint(cfg: Config, w: World, s: Step)
    requires FilesTrue(w) && FingerprintTrue(w) && Enabled(w, s)
    ensures FingerprintTrue(Next(cfg, w, s)) <==> (s.PushRecord? ==> RecordTrue(cfg, w))
  {
    match s
    case Pull(f, ch) => PullFiles(cfg, w, f, ch); FingerprintMoves(w, Apply(cfg, w, f, ch));
    case PushCheck(ch) => CheckSides(cfg, w, ch); CheckFiles(cfg, w, ch);
    case PushRecord => RecordTrueIff(cfg, w);
    case Send(n, ok) => JobStepFrame(w, n);
    case _ =>
  }

  /** Every upload of the run is recorded while its file holds what was sent, or has left the path, or by digest. */
  ghost predicate RecordsSent(cfg: Config, ws: seq<World>, steps: seq<Step>)
    requires Run(cfg, ws, steps)
  {
    forall i :: 0 <= i < |steps| && steps[i].PushRecord? ==> RecordTrue(cfg, ws[i])
  }

  lemma {:induction false} RunFingerprint(cfg: Config, ws: seq<World>, steps: seq<Step>, k: nat)
    requires Run(cfg, ws, steps) && Initial(ws[0]) && k < |ws|
    requires forall i :: 0 <= i < k && steps[i].PushRecord? ==> RecordTrue(cfg, ws[i])
    ensures FingerprintTrue(ws[k])
    decreases k
  {
    if k > 0 {
      RunFingerprint(cfg, ws, steps, k - 1);
      RunFiles(cfg, ws, steps, k - 1);
      StepFingerprint(cfg, ws[k - 1], steps[k - 1]);
    }
  }

  /** Over a whole run the fingerprint is true at every moment exactly when every upload is so recorded. */
  lemma FingerprintsTrueIff(cfg: Config, ws: seq<World>, steps: seq<Step>)
    requires Run(cfg, ws, steps) && Initial(ws[0])
    ensures (forall k :: 0 <= k < |ws| ==> FingerprintTrue(ws[k])) <==> RecordsSent(cfg, ws, steps)
  {
    if RecordsSent(cfg, ws, steps) {
      forall k | 0 <= k < |ws| ensures FingerprintTrue(ws[k]) { RunFingerprint(cfg, ws, steps, k); }
    }
    if forall k :: 0 <= k < |ws| ==> FingerprintTrue(ws[k]) {
      forall i | 0 <= i < |steps| && steps[i].PushRecord? ensures RecordTrue(cfg, ws[i]) {
        assert FingerprintTrue(ws[i + 1]);
        RunFiles(cfg, ws, steps, i);
        StepFingerprint(cfg, ws[i], steps[i]);
      }
    }
  }

  /** The edit carries a false fingerprint, is in no copy, and a report that is no echo puts another content in its place. */
  ghost predicate LosesEdit(cfg: Config, w: World, f: Remote, ch: Choice) {
    && !FingerprintTrue(w) && !EchoMatches(cfg, w, f) && ch.placeOk
    && w.remote.Some? && w.remote.value.content != w.local.value.content && !Kept(w, w.local.value.content)
  }

  /** A pull that buries nothing destroys an edit exactly so. */
  lemma PullLosesEditIff(cfg: Config, w: World, f: Remote, ch: Choice)
    requires EchoShape(cfg, w) && JobsSafe(w) && cfg.action != Overwrite && ClearLoser(cfg, w, f, ch)
    ensures LocalSafe(w, Apply(cfg, w, f, ch)) <==> !LosesEdit(cfg, w, f, ch)
  {
    PullInv(cfg, w, f, ch);
    if !FingerprintTrue(w) && !EchoMatches(cfg, w, f) {
      assert Apply(cfg, w, f, ch) == PlaceAndRemember(cfg, w, f, ch);
      SameCopiesInv(w, PlaceAndRemember(cfg, w, f, ch));
    }
  }

  /**
   No unkept loss, locally. Whenever the mount takes a version off the path, it
   held what the baseline stands for, or it is in a copy then and at every later moment.
   */
  lemma NoUnkeptLocalLoss(cfg: Config, ws: seq<World>, steps: seq<Step>, k: nat, j: nat)
    requires Run(cfg, ws, steps) && Initial(ws[0]) && cfg.action != Overwrite && k < j < |ws|
    requires Unburied(cfg, ws, steps) && RecordsSent(cfg, ws, steps)
    requires ByMount(steps[k]) && ws[k].local.Some?
    requires !(ws[k + 1].local.Some? && ws[k + 1].local.value.content == ws[k].local.value.content)
    ensures LocalIsBaseline(ws[k], ws[k].local.value) || Kept(ws[j], ws[k].local.value.content)
  {
    RunShape(cfg, ws, steps, k);
    RunFingerprint(cfg, ws, steps, k);
    RunKeeps(cfg, ws, steps, 0, k);
    RunKeeps(cfg, ws, steps, k + 1, j);
    StepInv(cfg, ws[k], steps[k]);
  }

  // ------------------------------------------------------------ where a baseline's content came from

  /** Every report applied is of a version the remote held, then or before. */
  ghost predicate Reported(ws: seq<World>, steps: seq<Step>)
    requires |ws| == |steps| + 1
  {
    forall i :: 0 <= i < |steps| && steps[i].Pull? ==> exists j :: 0 <= j <= i && ws[j].remote == Some(steps[i].f)
  }

  /** The content stood on the remote at k or before. */
  ghost predicate WasRemote(ws: seq<World>, k: nat, c: Content)
    requires k < |ws|
  {
    exists j :: 0 <= j <= k && ws[j].remote.Some? && ws[j].remote.value.content == c
  }

  lemma PlacedBaseline(cfg: Config, w: World, f: Remote, ch: Choice, c: Content)
    requires c in BaselineContents(PlaceAndRemember(cfg, w, f, ch))
    ensures c in BaselineContents(w) || (w.remote.Some? && c == w.remote.value.content) || c == f.content
  {
  }

  lemma ResolvedBaseline(cfg: Config, w: World, f: Remote, ch: Choice, c: Content)
    requires w.local.Some? && c in BaselineContents(ResolveConflict(cfg, w, f, ch))
    ensures c in BaselineContents(w) || (w.remote.Some? && c == w.remote.value.content) || c == f.content
  {
    if AlreadyKept(w, f) {
    } else if f.modified > w.local.value.mtime {
      KeepLocalFrame(cfg, w, ch);
      if KeepLocal(cfg, w, ch).1 { PlacedBaseline(cfg, KeepLocal(cfg, w, ch).0, f, ch, c); }
    } else {
      KeepRemoteFrame(cfg, w, f, ch);
    }
  }

  lemma PulledBaseline(cfg: Config, w: World, f: Remote, ch: Choice, c: Content)
    requires c in BaselineContents(Apply(cfg, w, f, ch))
    ensures c in BaselineContents(w) || (w.remote.Some? && c == w.remote.value.content) || c == f.content
  {
    if c in BaselineContents(PlaceAndRemember(cfg, w, f, ch)) { PlacedBaseline(cfg, w, f, ch, c); }
    if w.local.Some? && c in BaselineContents(ResolveConflict(cfg, w, f, ch)) { ResolvedBaseline(cfg, w, f, ch, c); }
  }

  lemma CheckedBaseline(cfg: Config, w: World, ch: Choice, c: Content)
    requires w.push.Opened? && GateTrue(w) && c in BaselineContents(Check(cfg, w, ch))
    ensures c in BaselineContents(w) || (w.remote.Some? && c == w.remote.value.content)
  {
    var seen := if w.push.gate.Some? then w.push.gate.value else w.remote;
    if seen.Some? { KeepRemoteFrame(cfg, w, seen.value, ch); }
  }

  /** What a baseline stands for came from the remote as it stood, from a report, or from an upload. */
  lemma BaselineStep(cfg: Config, w: World, s: Step, c: Content)
    requires GateTrue(w) && Enabled(w, s) && c in BaselineContents(Next(cfg, w, s))
    ensures || c in BaselineContents(w) || (w.remote.Some? && c == w.remote.value.content)
            || (s.Pull? && c == s.f.content) || (s.PushRecord? && c == w.push.sent.content)
  {
    match s
    case Pull(f, ch) => PulledBaseline(cfg, w, f, ch, c);
    case PushCheck(ch) => CheckedBaseline(cfg, w, ch, c);
    case Send(n, ok) => JobStepFrame(w, n);
    case _ =>
  }

  /** What a push has sent stood on the remote. */
  lemma SentStep(cfg: Config, w: World, s: Step)
    requires Enabled(w, s) && Next(cfg, w, s).push.Uploaded?
    ensures var w' := Next(cfg, w, s);
      w'.remote == Some(w'.push.sent) || (w.push.Uploaded? && w'.push.sent == w.push.sent)
  {
    match s
    case Pull(f, ch) => PullRemote(cfg, w, f, ch);
    case PushCheck(ch) => CheckEnds(cfg, w, ch);
    case Send(n, ok) => JobStepFrame(w, n);
    case _ =>
  }

  lemma {:induction false} SentWasRemote(cfg: Config, ws: seq<World>, steps: seq<Step>, k: nat)
    requires Run(cfg, ws, steps) && Initial(ws[0]) && k < |ws| && ws[k].push.Uploaded?
    ensures WasRemote(ws, k, ws[k].push.sent.content)
    decreases k
  {
    SentStep(cfg, ws[k - 1], steps[k - 1]);
    if ws[k].remote != Some(ws[k].push.sent) { SentWasRemote(cfg, ws, steps, k - 1); }
  }

  lemma StillWasRemote(ws: seq<World>, j: nat, k: nat, c: Content)
    requires j <= k < |ws| && WasRemote(ws, j, c)
    ensures WasRemote(ws, k, c)
  {
  }

  lemma ReportWasRemote(ws: seq<World>, steps: seq<Step>, i: nat)
    requires |ws| == |steps| + 1 && Reported(ws, steps) && i < |steps| && steps[i].Pull?
    ensures WasRemote(ws, i, steps[i].f.content)
  {
  }

  lemma BaselineArrives(cfg: Config, ws: seq<World>, steps: seq<Step>, k: nat, c: Content)
    requires Run(cfg, ws, steps) && Initial(ws[0]) && Reported(ws, steps) && k < |ws| && c in BaselineContents(ws[k])
    ensures k > 0 && (c in BaselineContents(ws[k - 1]) || WasRemote(ws, k - 1, c))
  {
    var w, s := ws[k - 1], steps[k - 1];
    RunShape(cfg, ws, steps, k - 1);
    BaselineStep(cfg, w, s, c);
    if s.Pull? { ReportWasRemote(ws, steps, k - 1); }
    if s.PushRecord? { SentWasRemote(cfg, ws, steps, k - 1); }
  }

  lemma BaselineNext(cfg: Config, ws: seq<World>, steps: seq<Step>, k: nat, c: Content)
    requires Run(cfg, ws, steps) && Initial(ws[0]) && Reported(ws, steps) && k < |ws| && c in BaselineContents(ws[k])
    ensures k > 0 && (WasRemote(ws, k, c) || c in BaselineContents(ws[k - 1]))
  {
    BaselineArrives(cfg, ws, steps, k, c);
    if WasRemote(ws, k - 1, c) { StillWasRemote(ws, k - 1, k, c); }
  }

  lemma {:induction false} BaselineWasRemote(cfg: Config, ws: seq<World>, steps: seq<Step>, k: nat, c: Content)
    requires Run(cfg, ws, steps) && Initial(ws[0]) && Reported(ws, steps) && k < |ws| && c in BaselineContents(ws[k])
    ensures WasRemote(ws, k, c)
    decreases k
  {
    BaselineNext(cfg, ws, steps, k, c);
    if !WasRemote(ws, k, c) {
      BaselineWasRemote(cfg, ws, steps, k - 1, c);
      StillWasRemote(ws, k - 1, k, c);
    }
  }

  /**
   So what the mount takes off the path stood on the remote at some earlier moment,
   or is in a copy from then on: an edit that was never sent is never destroyed.
   */
  lemma NothingUnsentLost(cfg: Config, ws: seq<World>, steps: seq<Step>, k: nat, j: nat)
    requires Run(cfg, ws, steps) && Initial(ws[0]) && cfg.action != Overwrite && k < j < |ws|
    requires Unburied(cfg, ws, steps) && RecordsSent(cfg, ws, steps) && Reported(ws, steps)
    requires ByMount(steps[k]) && ws[k].local.Some?
    requires !(ws[k + 1].local.Some? && ws[k + 1].local.value.content == ws[k].local.value.content)
    ensures WasRemote(ws, k, ws[k].local.value.content) || Kept(ws[j], ws[k].local.value.content)
  {
    NoUnkeptLocalLoss(cfg, ws, steps, k, j);
    if LocalIsBaseline(ws[k], ws[k].local.value) { BaselineWasRemote(cfg, ws, steps, k, ws[k].local.value.content); }
  }
}
