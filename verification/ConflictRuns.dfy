/**
 Runs of the conflict machine: any interleaving of local and remote edits, pulls
 of fresh or stale reports, pushes, copy senders, failures and restarts.
 */
module ConflictRuns {
  import opened Options
  import opened Conflicts

  datatype Step =
    | LocalWrite(content: Content, mtime: int, inPlace: bool)
    | LocalDelete
    | RemoteWrite(content: Content, modified: int)
    | RemoteDelete
    | Pull(f: Remote, ch: Choice)
    | PushOpen
    | PushStat
    | PushCheck(ch: Choice)
    | PushUpload(modified: int)
    | PushRecord
    | PushFail
    | Send(n: Name, ok: bool)
    | Restart

  /** A report names a version the remote has or had, as it was. */
  ghost predicate TrueReport(w: World, f: Remote) {
    && f.version < w.nextVersion
    && (w.remote.Some? && w.remote.value.version == f.version ==> f == w.remote.value)
  }

  /** A push has looked at the remote and has not yet replaced it; a pending create has not looked. */
  ghost predicate PushLooked(w: World) {
    (w.push.Checked? && !w.push.create) || (w.push.Opened? && w.push.gate.Some?)
  }

  /** What a step needs of the world; a write on the remote never stands between a push's look and its upload. */
  ghost predicate Enabled(w: World, s: Step) {
    match s
    case LocalWrite(_, _, _) => true
    case LocalDelete => true
    case RemoteWrite(_, _) => !PushLooked(w)
    case RemoteDelete => !PushLooked(w)
    case Pull(f, ch) => TrueReport(w, f)
    case PushOpen => w.push.Idle? && w.local.Some?
    case PushStat => w.push.Opened? && w.push.gate.None?
    case PushCheck(_) => w.push.Opened?
    case PushUpload(_) => w.push.Checked?
    case PushRecord => w.push.Uploaded?
    case PushFail => !w.push.Idle?
    case Send(n, _) => n in w.jobs
    case Restart => true
  }

  /** A write through the mount: into the file a push may hold open, or a new file. */
  function WriteLocal(w: World, content: Content, mtime: int, inPlace: bool): World {
    if inPlace && w.local.Some? then
      var l := LocalFile(w.local.value.inode, content, w.nextStamp, mtime);
      w.(local := Some(l), nextStamp := w.nextStamp + 1, push := Rewritten(w.push, l))
    else
      w.(local := Some(LocalFile(w.nextInode, content, w.nextStamp, mtime)),
         nextInode := w.nextInode + 1, nextStamp := w.nextStamp + 1)
  }

  function Rewritten(p: Push, l: LocalFile): Push {
    if p.Idle? || p.held.inode != l.inode then p else p.(held := l)
  }

  function Next(cfg: Config, w: World, s: Step): World
    requires Enabled(w, s)
  {
    match s
    case LocalWrite(content, mtime, inPlace) => WriteLocal(w, content, mtime, inPlace)
    case LocalDelete => w.(local := None)
    case RemoteWrite(content, modified) =>
      w.(remote := Some(Remote(content, w.nextVersion, modified)), nextVersion := w.nextVersion + 1)
    case RemoteDelete => w.(remote := None)
    case Pull(f, ch) => Apply(cfg, w, f, ch)
    case PushOpen => w.(push := Opened(w.local.value, None))
    case PushStat => w.(push := Opened(w.push.held, Some(w.remote)))
    case PushCheck(ch) => Check(cfg, w, ch)
    case PushUpload(modified) => Upload(w, modified)
    case PushRecord => Record(cfg, w)
    case PushFail => w.(push := Idle)
    case Send(n, ok) => if ok then JobStep(w, n) else w.(jobs := w.jobs - {n})
    case Restart => w.(push := Idle, jobs := map[], keptMem := None)
  }

  ghost predicate Run(cfg: Config, ws: seq<World>, steps: seq<Step>) {
    && |ws| == |steps| + 1
    && forall i :: 0 <= i < |steps| ==> Enabled(ws[i], steps[i]) && ws[i + 1] == Next(cfg, ws[i], steps[i])
  }

  /** A path nothing has happened to yet. */
  ghost predicate Initial(w: World) {
    && w.local.None? && w.remote.None? && w.echo.None? && w.keptDb.None? && w.keptMem.None?
    && w.copies == map[] && w.remoteCopies == map[] && w.localTrash == multiset{} && w.remoteTrash == multiset{}
    && w.jobs == map[] && w.push.Idle? && w.keeps == multiset{} && w.synced.None?
  }

  // ------------------------------------------------------------ what a copy's name can hide

  /** What lies here under the version's own name is that version, where keepRemote will trust the name. */
  ghost predicate NameHonest(cfg: Config, w: World, f: Remote) {
    var n := Name(Second(f.modified), 1);
    (cfg.action == Dir || cfg.action == RemoteTrash) && !AlreadyKept(w, f) && w.remote == Some(f) && n in w.copies ==>
      w.copies[n] == f.content
  }

  /** The content is in a copy other than the one on the remote at n. */
  ghost predicate Elsewhere(w: World, n: Name, c: Content) {
    || Holds(w.copies, c) || c in w.localTrash || c in w.remoteTrash
    || exists m :: m in w.remoteCopies && m != n && w.remoteCopies[m] == c
  }

  /** Storing c on the remote at n buries nothing: no other content stands there, or it is held elsewhere too. */
  ghost predicate Clear(w: World, n: Name, c: Content) {
    n in w.remoteCopies && w.remoteCopies[n] != c ==> Elsewhere(w, n, w.remoteCopies[n])
  }

  predicate Uploads(j: Job) { j.UploadKeep? || j.UploadRemove? || j.UploadTrash? }

  ghost predicate ClearSend(w: World, n: Name)
    requires n in w.jobs
  {
    Uploads(w.jobs[n]) && n in w.copies ==> Clear(w, n, w.copies[n])
  }

  /** The policy uploads a copy made here. */
  predicate Sends(cfg: Config) { cfg.action == RemoteTrash || (cfg.action == Dir && cfg.place != OnLocal) }

  /** At once, and the upload succeeds. */
  predicate SendsNow(cfg: Config, ch: Choice) { Sends(cfg) && ch.inline && ch.jobSteps > 0 }

  /** Keeping the version comes to a download of it. */
  predicate Downloads(cfg: Config, w: World, f: Remote, ch: Choice) {
    var n := Name(Second(f.modified), 1);
    w.remote.Some? && !AlreadyKept(w, f) && n !in w.copies && KeepRemoteByCopy(cfg, w, f, n, ch).None? && ch.fetchOk
  }

  /** The version on the remote, if its copy is sent at once under the name of f. */
  ghost predicate ClearVersion(cfg: Config, w: World, f: Remote, ch: Choice) {
    SendsNow(cfg, ch) && Downloads(cfg, w, f, ch) ==> Clear(w, Name(Second(f.modified), 1), w.remote.value.content)
  }

  /** The local file, if its copy is sent at once. */
  ghost predicate ClearLocal(cfg: Config, w: World, ch: Choice)
    requires w.local.Some?
  {
    SendsNow(cfg, ch) && ch.moveOk ==> Clear(w, UniqueCopy(w, Second(w.local.value.mtime)), w.local.value.content)
  }

  /** The local file differs from the report and from the baseline. */
  predicate Diverges(cfg: Config, w: World, f: Remote, ch: Choice)
    requires w.local.Some?
  {
    if cfg.hashes then
      w.local.value.content != f.content && (w.echo.None? || w.echo.value.hash != Some(w.local.value.content))
    else HashlessLocal(w, f, ch) == Diverged
  }

  /** Whichever side is found to be the loser. */
  ghost predicate ClearResolve(cfg: Config, w: World, f: Remote, ch: Choice)
    requires w.local.Some?
  {
    !AlreadyKept(w, f) ==> if f.modified > w.local.value.mtime then ClearLocal(cfg, w, ch) else ClearVersion(cfg, w, f, ch)
  }

  /** A pull that meets a conflict. */
  ghost predicate ClearLoser(cfg: Config, w: World, f: Remote, ch: Choice) {
    w.local.Some? && !EchoMatches(cfg, w, f) && Diverges(cfg, w, f, ch) ==> ClearResolve(cfg, w, f, ch)
  }

  /** The push's check comes to keeping the version on the remote. */
  predicate ChecksLoser(cfg: Config, w: World)
    requires w.push.Opened?
  {
    && StillAt(w, w.push.held) && !(w.echo.None? && w.push.gate.None? && cfg.creator)
    && w.remote.Some? && !EchoMatches(cfg, w, w.remote.value)
    && !(cfg.hasher && HashOf(cfg, w.remote.value.content) == Some(w.push.held.content))
    && !(cfg.hasher && w.echo.Some? && w.echo.value.hash == Some(w.push.held.content))
  }

  ghost predicate ClearCheck(cfg: Config, w: World, ch: Choice)
    requires w.push.Opened?
  {
    ChecksLoser(cfg, w) ==> ClearVersion(cfg, w, w.remote.value, ch)
  }

  /** No upload of a conflict copy in this step buries another. */
  ghost predicate ClearStep(cfg: Config, w: World, s: Step)
    requires Enabled(w, s)
  {
    match s
    case Pull(f, ch) => ClearLoser(cfg, w, f, ch)
    case PushCheck(ch) => ClearCheck(cfg, w, ch)
    case Send(n, ok) => ok ==> ClearSend(w, n)
    case _ => true
  }

  ghost predicate HonestStep(cfg: Config, w: World, s: Step) {
    match s
    case Pull(f, _) => NameHonest(cfg, w, f)
    case PushCheck(_) => w.remote.Some? ==> NameHonest(cfg, w, w.remote.value)
    case _ => true
  }

  /** A run in which no conflict copy is uploaded over another. */
  ghost predicate Unburied(cfg: Config, ws: seq<World>, steps: seq<Step>)
    requires Run(cfg, ws, steps)
  {
    forall i :: 0 <= i < |steps| ==> ClearStep(cfg, ws[i], steps[i])
  }

  /** A run in which no name is trusted that holds something else. */
  ghost predicate Honest(cfg: Config, ws: seq<World>, steps: seq<Step>)
    requires Run(cfg, ws, steps)
  {
    forall i :: 0 <= i < |steps| ==> HonestStep(cfg, ws[i], steps[i])
  }

  // ------------------------------------------------------------ invariant

  /** A sender never stands where its next step would take away the only copy. */
  ghost predicate JobSafe(w: World, n: Name)
    requires n in w.jobs
  {
    match w.jobs[n]
    case TrashThenRemove => n in w.copies && n in w.remoteCopies && w.remoteCopies[n] == w.copies[n]
    case RemoveLocal => n in w.copies &&
      ((n in w.remoteCopies && w.remoteCopies[n] == w.copies[n]) || w.copies[n] in w.remoteTrash)
    case TrashOnly => n in w.remoteCopies
    case _ => n in w.copies
  }

  ghost predicate JobsSafe(w: World) { forall n :: n in w.jobs ==> JobSafe(w, n) }

  /** A kept record of the version now on the remote is true. */
  ghost predicate RecordsTrue(w: World) {
    && (w.remote.Some? ==> w.remote.value.version < w.nextVersion)
    && (w.keptDb.Some? ==> w.keptDb.value < w.nextVersion)
    && (w.keptMem.Some? ==> w.keptMem.value < w.nextVersion)
    && (w.remote.Some? && AlreadyKept(w, w.remote.value) ==> Kept(w, w.remote.value.content))
  }

  /** A push that has looked holds what is on the remote. */
  predicate GateTrue(w: World) {
    w.push.Opened? && w.push.gate.Some? ==> w.push.gate.value == w.remote
  }

  /** And what it may replace is kept, or was found to be the baseline. */
  ghost predicate PushSafe(w: World) {
    && GateTrue(w)
    && (w.push.Checked? && !w.push.create && w.remote.Some? && !w.push.excused
        ==> Kept(w, w.remote.value.content))
  }

  ghost predicate Inv(w: World) {
    JobsSafe(w) && RecordsTrue(w) && PushSafe(w)
  }

  /** What a step takes off the path locally was the baseline, or is in a copy. */
  ghost predicate LocalSafe(w: World, w': World) {
    w.local.Some? && !(w'.local.Some? && w'.local.value.content == w.local.value.content) ==>
      LocalIsBaseline(w, w.local.value) || Kept(w', w.local.value.content)
  }

  /** What a step replaces on the remote was found to be the baseline, or is in a copy. */
  ghost predicate RemoteSafe(w: World, w': World) {
    w.remote.Some? && !(w'.remote.Some? && w'.remote.value.content == w.remote.value.content) ==>
      (w.push.Checked? && !w.push.create && w.push.excused) || Kept(w', w.remote.value.content)
  }

  /** The baseline carries a digest exactly when the backend reports digests. */
  ghost predicate EchoShape(cfg: Config, w: World) {
    w.echo.Some? ==> w.echo.value.hash.Some? == cfg.hashes
  }

  ghost predicate KeepsAll(w: World, w': World) { forall c :: Kept(w, c) ==> Kept(w', c) }

  /** What every step must do: lose no copy, leave its senders safe, and leave true what was true. */
  ghost predicate Keeping(w: World, w': World) {
    JobsSafe(w') && KeepsAll(w, w') && (Inv(w) ==> Inv(w'))
  }

  // ------------------------------------------------------------ senders

  lemma HoldsPut(m: map<Name, Content>, n: Name, x: Content, c: Content)
    requires Holds(m, c) && (n in m ==> m[n] == x)
    ensures Holds(m[n := x], c)
  {
    var k :| k in m && m[k] == c;
    assert k in m[n := x] && m[n := x][k] == c;
  }

  lemma HoldsBefore(m: map<Name, Content>, n: Name, x: Content, c: Content)
    ensures Holds(m[n := x], c) && c != x ==> Holds(m, c)
  {
    if Holds(m[n := x], c) && c != x {
      var k :| k in m[n := x] && m[n := x][k] == c;
      assert k in m && m[k] == c;
    }
  }

  lemma HoldsDrop(m: map<Name, Content>, n: Name, c: Content)
    requires Holds(m, c)
    ensures Holds(m - {n}, c) || (n in m && m[n] == c)
  {
    var k :| k in m && m[k] == c;
    if k != n { assert k in m - {n} && (m - {n})[k] == c; }
  }

  /** What an upload of c to n leaves on the remote: everything but what stood at n. */
  lemma HoldsOver(w: World, n: Name, c: Content, d: Content)
    ensures Holds(w.remoteCopies[n := c], d) <==>
      d == c || exists m :: m in w.remoteCopies && m != n && w.remoteCopies[m] == d
  {
    var r := w.remoteCopies[n := c];
    assert n in r && r[n] == c;
    if Holds(r, d) && d != c {
      var k :| k in r && r[k] == d;
      assert k in w.remoteCopies && k != n && w.remoteCopies[k] == d;
    }
    if m :| m in w.remoteCopies && m != n && w.remoteCopies[m] == d { assert m in r && r[m] == d; }
  }

  /** The sender's upload: what is kept after it is what is held elsewhere, and what it sends. */
  lemma UploadStepKept(w: World, n: Name, d: Content)
    requires n in w.jobs && Uploads(w.jobs[n]) && n in w.copies
    ensures Kept(JobStep(w, n), d) <==> Elsewhere(w, n, d)
  {
    HoldsOver(w, n, w.copies[n], d);
    if d == w.copies[n] { assert Holds(w.copies, d); }
  }

  lemma OtherStepKept(w: World, n: Name, c: Content)
    requires n in w.jobs && JobSafe(w, n) && !Uploads(w.jobs[n]) && Kept(w, c)
    ensures Kept(JobStep(w, n), c)
  {
    match w.jobs[n]
    case RemoveLocal =>
      if Holds(w.copies, c) { HoldsDrop(w.copies, n, c); }
    case TrashThenRemove => if Holds(w.remoteCopies, c) { HoldsDrop(w.remoteCopies, n, c); }
    case TrashOnly => if Holds(w.remoteCopies, c) { HoldsDrop(w.remoteCopies, n, c); }
  }

  /**
   A step of a sender loses a copy exactly when it uploads over another content
   that is held nowhere else.
   */
  lemma SenderLosesIff(w: World, n: Name)
    requires n in w.jobs && JobSafe(w, n)
    ensures KeepsAll(w, JobStep(w, n)) <==> ClearSend(w, n)
  {
    if !Uploads(w.jobs[n]) {
      forall c | Kept(w, c) ensures Kept(JobStep(w, n), c) { OtherStepKept(w, n, c); }
    } else {
      forall d ensures Kept(JobStep(w, n), d) <==> Elsewhere(w, n, d) { UploadStepKept(w, n, d); }
      if n in w.remoteCopies { assert Holds(w.remoteCopies, w.remoteCopies[n]); }
      if w.copies[n] == w.copies[n] { assert Holds(w.copies, w.copies[n]); }
      if ClearSend(w, n) {
        forall d | Kept(w, d) ensures Elsewhere(w, n, d) {
          if Holds(w.remoteCopies, d) { var m :| m in w.remoteCopies && w.remoteCopies[m] == d; }
        }
      }
    }
  }

  lemma JobStepSafe(w: World, n: Name, m: Name)
    requires n in w.jobs && JobSafe(w, n) && m in JobStep(w, n).jobs && m in w.jobs && JobSafe(w, m)
    ensures JobSafe(JobStep(w, n), m)
  {
  }

  lemma JobStepJobs(w: World, n: Name)
    requires n in w.jobs && JobsSafe(w)
    ensures JobsSafe(JobStep(w, n))
  {
    var w' := JobStep(w, n);
    assert JobSafe(w, n);
    forall m | m in w'.jobs ensures JobSafe(w', m) { JobStepSafe(w, n, m); }
  }

  /** Whatever only adds copies keeps what the records and the push know. */
  lemma InvByCopies(w: World, w': World)
    requires Inv(w) && JobsSafe(w') && KeepsAll(w, w') && OnlyCopiesDiffer(w, w')
    ensures Inv(w')
  {
  }

  lemma JobStepInv(w: World, n: Name)
    requires n in w.jobs && JobsSafe(w) && ClearSend(w, n)
    ensures JobsSafe(JobStep(w, n)) && KeepsAll(w, JobStep(w, n))
    ensures Inv(w) ==> Inv(JobStep(w, n))
  {
    assert JobSafe(w, n);
    SenderLosesIff(w, n);
    JobStepJobs(w, n);
    JobStepFrame(w, n);
    if Inv(w) { InvByCopies(w, JobStep(w, n)); }
  }

  /** A sender uploads in its first step or not at all. */
  lemma ClearOnce(w: World, n: Name)
    requires n in w.jobs
    ensures n in JobStep(w, n).jobs ==> ClearSend(JobStep(w, n), n)
  {
  }

  lemma {:induction false} DrainInv(w: World, n: Name, k: nat)
    requires JobsSafe(w) && (n in w.jobs && k > 0 ==> ClearSend(w, n))
    ensures JobsSafe(Drain(w, n, k)) && KeepsAll(w, Drain(w, n, k))
    decreases k
  {
    if n !in w.jobs {
    } else if k == 0 {
      SenderGoneInv(w, w.jobs - {n});
    } else {
      JobStepInv(w, n);
      ClearOnce(w, n);
      DrainInv(JobStep(w, n), n, k - 1);
    }
  }

  /** Sending copies touches the copies and the senders, nothing else. */
  ghost predicate OnlyCopiesDiffer(w: World, w': World) {
    w' == w.(copies := w'.copies, remoteCopies := w'.remoteCopies, remoteTrash := w'.remoteTrash, jobs := w'.jobs)
  }

  lemma JobStepFrame(w: World, n: Name)
    requires n in w.jobs
    ensures OnlyCopiesDiffer(w, JobStep(w, n))
  {
    match w.jobs[n]
    case TrashOnly =>
    case RemoveLocal =>
    case _ =>
  }

  lemma FrameTransitive(a: World, b: World, c: World)
    requires OnlyCopiesDiffer(a, b) && OnlyCopiesDiffer(b, c)
    ensures OnlyCopiesDiffer(a, c)
  {
  }

  lemma {:induction false} DrainFrame(w: World, n: Name, k: nat)
    ensures OnlyCopiesDiffer(w, Drain(w, n, k))
    decreases k
  {
    if n in w.jobs && k > 0 {
      var w1 := JobStep(w, n);
      JobStepFrame(w, n);
      DrainFrame(w1, n, k - 1);
      FrameTransitive(w, w1, Drain(w1, n, k - 1));
    }
  }

  lemma PublishFrame(cfg: Config, w: World, n: Name, ch: Choice)
    ensures OnlyCopiesDiffer(w, Publish(cfg, w, n, ch))
  {
    if !(cfg.action == Dir && cfg.place == OnLocal) && ch.inline {
      var job := if cfg.action == Dir && cfg.place == Both then UploadKeep
                 else if cfg.action == RemoteTrash then UploadTrash
                 else UploadRemove;
      DrainFrame(w.(jobs := w.jobs[n := job]), n, ch.jobSteps);
    }
  }

  // ------------------------------------------------------------ keeping

  lemma PublishInv(cfg: Config, w: World, n: Name, ch: Choice)
    requires JobsSafe(w) && n in w.copies && (cfg.action == Dir || cfg.action == RemoteTrash)
    requires SendsNow(cfg, ch) ==> Clear(w, n, w.copies[n])
    ensures JobsSafe(Publish(cfg, w, n, ch)) && KeepsAll(w, Publish(cfg, w, n, ch))
  {
    if Sends(cfg) {
      var job := if cfg.action == Dir && cfg.place == Both then UploadKeep
                 else if cfg.action == RemoteTrash then UploadTrash
                 else UploadRemove;
      var w1 := w.(jobs := w.jobs[n := job]);
      forall m | m in w1.jobs ensures JobSafe(w1, m) { if m != n { assert JobSafe(w, m); } }
      if ch.inline { DrainInv(w1, n, ch.jobSteps); }
    }
  }

  /** A copy under a free local name leaves every job as safe as it was, and every copy. */
  lemma NewCopyInv(w: World, n: Name, c: Content)
    requires JobsSafe(w) && n !in w.copies
    ensures var w1 := w.(copies := w.copies[n := c]); JobsSafe(w1) && KeepsAll(w, w1) && Kept(w1, c)
  {
    var w1 := w.(copies := w.copies[n := c]);
    forall m | m in w1.jobs ensures JobSafe(w1, m) { assert JobSafe(w, m); }
    forall d | Kept(w, d) ensures Kept(w1, d) {
      if Holds(w.copies, d) { HoldsPut(w.copies, n, c, d); }
    }
    assert n in w1.copies && w1.copies[n] == c;
  }

  /** A copy made here and published. */
  lemma NewCopyPublished(cfg: Config, w: World, n: Name, c: Content, ch: Choice)
    requires JobsSafe(w) && n !in w.copies && (cfg.action == Dir || cfg.action == RemoteTrash)
    requires SendsNow(cfg, ch) ==> Clear(w, n, c)
    ensures var w' := Publish(cfg, w.(copies := w.copies[n := c]), n, ch);
      JobsSafe(w') && KeepsAll(w, w') && Kept(w', c) && OnlyCopiesDiffer(w, w')
  {
    var w1 := w.(copies := w.copies[n := c]);
    NewCopyInv(w, n, c);
    if n in w.remoteCopies && Holds(w.copies, w.remoteCopies[n]) { HoldsPut(w.copies, n, c, w.remoteCopies[n]); }
    PublishInv(cfg, w1, n, ch);
    PublishFrame(cfg, w1, n, ch);
  }

  /** Fields no copy and no sender lives in. */
  ghost predicate SameCopies(w: World, w': World) {
    && w'.copies == w.copies && w'.remoteCopies == w.remoteCopies && w'.jobs == w.jobs
    && w'.localTrash == w.localTrash && w'.remoteTrash == w.remoteTrash
  }

  lemma SameCopiesInv(w: World, w': World)
    requires SameCopies(w, w')
    ensures forall c :: Kept(w, c) <==> Kept(w', c)
    ensures JobsSafe(w) <==> JobsSafe(w')
  {
    forall m | m in w.jobs ensures JobSafe(w, m) <==> JobSafe(w', m) { }
    if JobsSafe(w) { forall m | m in w'.jobs ensures JobSafe(w', m) { assert JobSafe(w, m); } }
    if JobsSafe(w') { forall m | m in w.jobs ensures JobSafe(w, m) { assert JobSafe(w', m); } }
  }

  /** A local loser leaves the path only into a copy, and no other copy is lost to it. */
  lemma KeepLocalInv(cfg: Config, w: World, ch: Choice)
    requires JobsSafe(w) && cfg.action != Overwrite && w.local.Some? && ClearLocal(cfg, w, ch)
    ensures var (w', ok) := KeepLocal(cfg, w, ch);
      && JobsSafe(w') && KeepsAll(w, w') && (Inv(w) ==> Inv(w'))
      && (ok ==> w'.local.None? && Kept(w', w.local.value.content))
  {
    if !ch.moveOk { return; }
    var l := w.local.value;
    var gone := w.(local := None);
    SameCopiesInv(w, gone);
    if cfg.action == LocalTrash {
      var w1 := gone.(localTrash := w.localTrash + multiset{l.content});
      forall m | m in w1.jobs ensures JobSafe(w1, m) { assert JobSafe(w, m); }
    } else {
      var n := UniqueCopy(w, Second(l.mtime));
      NewCopyPublished(cfg, gone, n, l.content, ch);
    }
  }

  lemma RememberInv(w: World, f: Remote)
    requires JobsSafe(w)
    ensures JobsSafe(Remember(w, f)) && KeepsAll(w, Remember(w, f))
    ensures Inv(w) && TrueReport(w, f) && (w.remote == Some(f) ==> Kept(w, f.content)) ==> Inv(Remember(w, f))
  {
    SameCopiesInv(w, Remember(w, f));
  }

  /** The backend's own copy of the version now at the path, under a name free on the remote. */
  lemma RemoteCopyInv(w: World, n: Name, c: Content)
    requires JobsSafe(w) && n !in w.copies && n !in w.remoteCopies
    ensures var w1 := w.(remoteCopies := w.remoteCopies[n := c]); JobsSafe(w1) && KeepsAll(w, w1) && Kept(w1, c)
  {
    var w1 := w.(remoteCopies := w.remoteCopies[n := c]);
    forall d | Kept(w, d) ensures Kept(w1, d) {
      if Holds(w.remoteCopies, d) { HoldsPut(w.remoteCopies, n, c, d); }
    }
    assert n in w1.remoteCopies && w1.remoteCopies[n] == c;
    forall m | m in w1.jobs ensures JobSafe(w1, m) { assert JobSafe(w, m); }
  }

  /** Keeping a version adds to the copies and the count, and loses no copy. */
  ghost predicate KeptIn(w: World, w': World, c: Content) {
    JobsSafe(w') && KeepsAll(w, w') && Kept(w', c) && KeepFrame(w, w') && w'.keptDb == w.keptDb && w'.keptMem == w.keptMem
  }

  lemma ByCopyInv(cfg: Config, w: World, f: Remote, n: Name, ch: Choice)
    requires JobsSafe(w) && n !in w.copies && KeepRemoteByCopy(cfg, w, f, n, ch).Some?
    ensures w.remote.Some? && KeptIn(w, KeepRemoteByCopy(cfg, w, f, n, ch).value, w.remote.value.content)
  {
    var c := w.remote.value.content;
    var w1 := w.(remoteCopies := w.remoteCopies[n := c]);
    var w2 := w1.(keeps := w.keeps + multiset{f.version});
    RemoteCopyInv(w, n, c);
    SameCopiesInv(w1, w2);
    if cfg.action == RemoteTrash {
      var w3 := w2.(jobs := w2.jobs[n := TrashOnly]);
      forall m | m in w3.jobs ensures JobSafe(w3, m) { if m != n { assert JobSafe(w2, m); } }
      if ch.inline {
        DrainInv(w3, n, ch.jobSteps);
        DrainFrame(w3, n, ch.jobSteps);
      }
    } else if cfg.place != OnRemote && ch.copyFetchOk {
      NewCopyInv(w2, n, c);
    }
  }

  lemma ByDownloadInv(cfg: Config, w: World, f: Remote, n: Name, ch: Choice)
    requires JobsSafe(w) && n !in w.copies && (cfg.action == Dir || cfg.action == RemoteTrash)
    requires SendsNow(cfg, ch) && w.remote.Some? ==> Clear(w, n, w.remote.value.content)
    requires KeepRemoteByDownload(cfg, w, f, n, ch).Some?
    ensures w.remote.Some? && KeptIn(w, KeepRemoteByDownload(cfg, w, f, n, ch).value, w.remote.value.content)
  {
    var w1 := w.(keeps := w.keeps + multiset{f.version});
    SameCopiesInv(w, w1);
    NewCopyPublished(cfg, w1, n, w.remote.value.content, ch);
  }

  /** What keeping a remote version leaves alone. */
  ghost predicate KeepFrame(w: World, w': World) {
    && w'.local == w.local && w'.remote == w.remote && w'.echo == w.echo && w'.push == w.push
    && w'.nextVersion == w.nextVersion && w'.nextInode == w.nextInode && w'.nextStamp == w.nextStamp
    && w'.synced == w.synced
  }

  lemma TrashedInv(w: World, f: Remote, c: Content)
    requires JobsSafe(w)
    ensures KeptIn(w, w.(localTrash := w.localTrash + multiset{c}, keeps := w.keeps + multiset{f.version}), c)
  {
    var w1 := w.(localTrash := w.localTrash + multiset{c}, keeps := w.keeps + multiset{f.version});
    forall m | m in w1.jobs ensures JobSafe(w1, m) { assert JobSafe(w, m); }
  }

  /** A version newly kept and remembered. */
  lemma KeptRemembered(w: World, w1: World, f: Remote)
    requires JobsSafe(w) && w.remote.Some? && KeptIn(w, w1, w.remote.value.content)
    ensures var w' := Remember(w1, f);
      && JobsSafe(w') && KeepsAll(w, w') && KeepFrame(w, w') && Kept(w', w.remote.value.content)
      && (Inv(w) && TrueReport(w, f) ==> Inv(w'))
  {
    RememberInv(w1, f);
    SameCopiesInv(w1, Remember(w1, f));
  }

  /** A keep that does not fail leaves the version in a copy, and no other copy is lost to it. */
  lemma KeepRemoteInv(cfg: Config, w: World, f: Remote, ch: Choice)
    requires JobsSafe(w) && cfg.action != Overwrite && ClearVersion(cfg, w, f, ch)
    ensures var (w', r) := KeepRemote(cfg, w, f, ch);
      && JobsSafe(w') && KeepsAll(w, w') && KeepFrame(w, w')
      && (Inv(w) && TrueReport(w, f) && NameHonest(cfg, w, f) ==>
            Inv(w') && (r != KeepFailed && w.remote == Some(f) ==> Kept(w', f.content)))
  {
    var n := Name(Second(f.modified), 1);
    if AlreadyKept(w, f) {
    } else if cfg.action == LocalTrash {
      if ch.fetchOk && w.remote.Some? {
        TrashedInv(w, f, w.remote.value.content);
        KeptRemembered(w, w.(localTrash := w.localTrash + multiset{w.remote.value.content}, keeps := w.keeps + multiset{f.version}), f);
      }
    } else if n in w.copies {
      RememberInv(w, f);
      SameCopiesInv(w, Remember(w, f));
      assert Holds(w.copies, w.copies[n]);
    } else {
      match KeepRemoteByCopy(cfg, w, f, n, ch)
      case Some(w1) =>
        ByCopyInv(cfg, w, f, n, ch);
        KeptRemembered(w, w1, f);
      case None =>
        match KeepRemoteByDownload(cfg, w, f, n, ch)
        case Some(w1) =>
          ByDownloadInv(cfg, w, f, n, ch);
          KeptRemembered(w, w1, f);
        case None =>
    }
  }

  // ------------------------------------------------------------ the pull

  /** Recording a baseline keeps the invariant, whatever it records. */
  lemma SetEchoInv(w: World, e: Echo, content: Option<Content>)
    requires JobsSafe(w)
    ensures var w' := SetEcho(w, e, content); JobsSafe(w') && KeepsAll(w, w') && (Inv(w) ==> Inv(w'))
  {
    SameCopiesInv(w, SetEcho(w, e, content));
  }

  lemma PlaceInv(cfg: Config, w: World, f: Remote, ch: Choice)
    requires JobsSafe(w)
    ensures var w' := PlaceAndRemember(cfg, w, f, ch); JobsSafe(w') && KeepsAll(w, w') && (Inv(w) ==> Inv(w'))
  {
    SameCopiesInv(w, PlaceAndRemember(cfg, w, f, ch));
  }

  /** What a step of the mount does to the copies and, the names being honest, to what it knows of them. */
  ghost predicate KeepsInv(cfg: Config, w: World, f: Remote, w': World) {
    && JobsSafe(w') && KeepsAll(w, w')
    && (Inv(w) && TrueReport(w, f) && NameHonest(cfg, w, f) ==> Inv(w'))
  }

  lemma ResolveInv(cfg: Config, w: World, f: Remote, ch: Choice)
    requires JobsSafe(w) && cfg.action != Overwrite && w.local.Some? && ClearResolve(cfg, w, f, ch)
    ensures KeepsInv(cfg, w, f, ResolveConflict(cfg, w, f, ch))
    ensures LocalSafe(w, ResolveConflict(cfg, w, f, ch))
  {
    if !AlreadyKept(w, f) {
      if f.modified > w.local.value.mtime {
        KeepLocalInv(cfg, w, ch);
        var (w1, ok) := KeepLocal(cfg, w, ch);
        if ok { PlaceInv(cfg, w1, f, ch); }
      } else {
        KeepRemoteInv(cfg, w, f, ch);
      }
    }
  }

  /** The pull takes an edit off the path only into a copy, the fingerprint being true, and no copy is lost to it. */
  lemma PullInv(cfg: Config, w: World, f: Remote, ch: Choice)
    requires EchoShape(cfg, w) && JobsSafe(w) && cfg.action != Overwrite && ClearLoser(cfg, w, f, ch)
    ensures KeepsInv(cfg, w, f, Apply(cfg, w, f, ch))
    ensures FingerprintTrue(w) ==> LocalSafe(w, Apply(cfg, w, f, ch))
  {
    if EchoMatches(cfg, w, f) {
    } else if w.local.None? {
      PlaceInv(cfg, w, f, ch);
    } else if cfg.hashes {
      var l := w.local.value;
      if l.content == f.content {
        SetEchoInv(w, Echo(HashOf(cfg, f.content), f.version, Some(l.stamp)), Some(l.content));
      } else if w.echo.None? || w.echo.value.hash != Some(l.content) {
        ResolveInv(cfg, w, f, ch);
      } else {
        PlaceInv(cfg, w, f, ch);
      }
    } else {
      match HashlessLocal(w, f, ch)
      case Same => SetEchoInv(w, Echo(HashOf(cfg, f.content), f.version, Some(w.local.value.stamp)), Some(w.local.value.content));
      case Diverged => ResolveInv(cfg, w, f, ch);
      case Unchanged => PlaceInv(cfg, w, f, ch);
      case Unreadable =>
    }
  }

  // ------------------------------------------------------------ the push

  lemma PushOnlyInv(w: World, p: Push)
    requires JobsSafe(w)
    ensures JobsSafe(w.(push := p)) && KeepsAll(w, w.(push := p))
    ensures Inv(w) && PushSafe(w.(push := p)) ==> Inv(w.(push := p))
  {
    SameCopiesInv(w, w.(push := p));
  }

  /** The moved version, unless there is nothing to send. */
  ghost predicate ClearMoved(cfg: Config, w: World, held: LocalFile, seen: Remote, ch: Choice) {
    || (cfg.hasher && HashOf(cfg, seen.content) == Some(held.content))
    || (cfg.hasher && w.echo.Some? && w.echo.value.hash == Some(held.content))
    || ClearVersion(cfg, w, seen, ch)
  }

  lemma CheckMovedInv(cfg: Config, w: World, held: LocalFile, seen: Remote, ch: Choice)
    requires JobsSafe(w) && cfg.action != Overwrite && ClearMoved(cfg, w, held, seen, ch)
    ensures var w' := CheckMoved(cfg, w, held, seen, ch);
      && JobsSafe(w') && KeepsAll(w, w')
      && (Inv(w) && w.remote == Some(seen) && NameHonest(cfg, w, seen) ==> Inv(w'))
  {
    if cfg.hasher && HashOf(cfg, seen.content) == Some(held.content) {
      var e := Echo(HashOf(cfg, seen.content), seen.version, Some(held.stamp));
      SetEchoInv(w, e, Some(held.content));
      PushOnlyInv(SetEcho(w, e, Some(held.content)), Idle);
    } else if cfg.hasher && w.echo.Some? && w.echo.value.hash == Some(held.content) {
      PushOnlyInv(w, Idle);
    } else {
      KeepRemoteInv(cfg, w, seen, ch);
      var (w1, r) := KeepRemote(cfg, w, seen, ch);
      PushOnlyInv(w, Idle);
      PushOnlyInv(w1, Checked(held, false, false));
    }
  }

  /** After the check the push may upload only over the baseline or over a kept version. */
  lemma CheckInv(cfg: Config, w: World, ch: Choice)
    requires JobsSafe(w) && GateTrue(w) && cfg.action != Overwrite && w.push.Opened?
    requires ClearCheck(cfg, w, ch)
    ensures var w' := Check(cfg, w, ch);
      && JobsSafe(w') && KeepsAll(w, w')
      && (Inv(w) && (w.remote.Some? ==> NameHonest(cfg, w, w.remote.value)) ==> Inv(w'))
  {
    var held := w.push.held;
    var seen := if w.push.gate.Some? then w.push.gate.value else w.remote;
    assert seen == w.remote;
    if !StillAt(w, held) {
      PushOnlyInv(w, Idle);
    } else if w.echo.None? && w.push.gate.None? && cfg.creator {
      PushOnlyInv(w, Checked(held, true, false));
    } else if seen.None? {
      PushOnlyInv(w, Checked(held, false, false));
    } else if EchoMatches(cfg, w, seen.value) {
      PushOnlyInv(w, Checked(held, false, true));
    } else {
      CheckMovedInv(cfg, w, held, seen.value, ch);
    }
  }

  /** An upload replaces only what the check let it, and no copy is lost to it. */
  lemma UploadInv(w: World, modified: int)
    requires JobsSafe(w) && w.push.Checked?
    ensures JobsSafe(Upload(w, modified)) && KeepsAll(w, Upload(w, modified)) && (Inv(w) ==> Inv(Upload(w, modified)))
  {
    SameCopiesInv(w, Upload(w, modified));
  }

  lemma RecordInv(cfg: Config, w: World)
    requires JobsSafe(w) && w.push.Uploaded?
    ensures JobsSafe(Record(cfg, w)) && KeepsAll(w, Record(cfg, w)) && (Inv(w) ==> Inv(Record(cfg, w)))
  {
    SameCopiesInv(w, Record(cfg, w));
  }

  // ------------------------------------------------------------ what a buried copy costs

  /** A sender makes no content of its own. */
  lemma JobStepAdds(w: World, n: Name, c: Content)
    requires n in w.jobs && Kept(JobStep(w, n), c)
    ensures Kept(w, c)
  {
    if Uploads(w.jobs[n]) && n in w.copies {
      UploadStepKept(w, n, c);
    } else {
      var w' := JobStep(w, n);
      if Holds(w'.copies, c) { var k :| k in w'.copies && w'.copies[k] == c; assert k in w.copies && w.copies[k] == c; }
      if Holds(w'.remoteCopies, c) { var k :| k in w'.remoteCopies && w'.remoteCopies[k] == c; assert k in w.remoteCopies && w.remoteCopies[k] == c; }
    }
  }

  lemma {:induction false} DrainAdds(w: World, n: Name, k: nat, c: Content)
    requires Kept(Drain(w, n, k), c)
    ensures Kept(w, c)
    decreases k
  {
    if n in w.jobs {
      if k == 0 {
        assert SameFolders(w, Drain(w, n, k));
      } else {
        DrainAdds(JobStep(w, n), n, k - 1, c);
        JobStepAdds(w, n, c);
      }
    }
  }

  ghost predicate SameFolders(w: World, w': World) {
    w'.copies == w.copies && w'.remoteCopies == w.remoteCopies && w'.localTrash == w.localTrash && w'.remoteTrash == w.remoteTrash
  }

  /** The content an upload to n would bury. */
  ghost predicate Buried(w: World, n: Name, c: Content, d: Content) {
    n in w.remoteCopies && w.remoteCopies[n] == d && d != c && !Elsewhere(w, n, d)
  }

  lemma DrainBuries(w: World, n: Name, k: nat, d: Content)
    requires n in w.jobs && Uploads(w.jobs[n]) && n in w.copies && k > 0 && Buried(w, n, w.copies[n], d)
    ensures Kept(w, d) && !Kept(Drain(w, n, k), d)
  {
    assert Holds(w.remoteCopies, d);
    UploadStepKept(w, n, d);
    if Kept(Drain(w, n, k), d) { DrainAdds(JobStep(w, n), n, k - 1, d); }
  }

  lemma NewCopyBuries(cfg: Config, w: World, n: Name, c: Content, ch: Choice, d: Content)
    requires n !in w.copies && SendsNow(cfg, ch) && Buried(w, n, c, d)
    ensures Kept(w, d) && !Kept(Publish(cfg, w.(copies := w.copies[n := c]), n, ch), d)
  {
    var job := if cfg.action == Dir && cfg.place == Both then UploadKeep
               else if cfg.action == RemoteTrash then UploadTrash
               else UploadRemove;
    var w1 := w.(copies := w.copies[n := c]);
    var w2 := w1.(jobs := w1.jobs[n := job]);
    assert Holds(w.remoteCopies, d);
    HoldsBefore(w.copies, n, c, d);
    assert Buried(w2, n, c, d);
    DrainBuries(w2, n, ch.jobSteps, d);
  }

  lemma KeepLocalBuries(cfg: Config, w: World, ch: Choice) returns (d: Content)
    requires w.local.Some? && cfg.action != Overwrite && !ClearLocal(cfg, w, ch)
    ensures KeepLocal(cfg, w, ch).1 && Kept(w, d) && !Kept(KeepLocal(cfg, w, ch).0, d)
  {
    var n, c := UniqueCopy(w, Second(w.local.value.mtime)), w.local.value.content;
    var gone := w.(local := None);
    d := w.remoteCopies[n];
    assert Buried(w, n, c, d);
    assert SameFolders(w, gone);
    assert Buried(gone, n, c, d);
    NewCopyBuries(cfg, gone, n, c, ch, d);
    SameCopiesInv(w, gone);
  }

  lemma KeepRemoteBuries(cfg: Config, w: World, f: Remote, ch: Choice) returns (d: Content)
    requires cfg.action != Overwrite && !ClearVersion(cfg, w, f, ch)
    ensures Kept(w, d) && !Kept(KeepRemote(cfg, w, f, ch).0, d)
  {
    var n, c := Name(Second(f.modified), 1), w.remote.value.content;
    var counted := w.(keeps := w.keeps + multiset{f.version});
    d := w.remoteCopies[n];
    assert Buried(counted, n, c, d);
    NewCopyBuries(cfg, counted, n, c, ch, d);
    SameCopiesInv(w, counted);
    var w1 := KeepRemoteByDownload(cfg, w, f, n, ch).value;
    assert w1 == Publish(cfg, counted.(copies := counted.copies[n := c]), n, ch);
    SameCopiesInv(w1, Remember(w1, f));
  }

  lemma ResolveBuries(cfg: Config, w: World, f: Remote, ch: Choice) returns (d: Content)
    requires w.local.Some? && cfg.action != Overwrite && !ClearResolve(cfg, w, f, ch)
    ensures Kept(w, d) && !Kept(ResolveConflict(cfg, w, f, ch), d)
  {
    if f.modified > w.local.value.mtime {
      d := KeepLocalBuries(cfg, w, ch);
      var w1 := KeepLocal(cfg, w, ch).0;
      SameCopiesInv(w1, PlaceAndRemember(cfg, w1, f, ch));
    } else {
      d := KeepRemoteBuries(cfg, w, f, ch);
    }
  }

  lemma CheckBuries(cfg: Config, w: World, ch: Choice) returns (d: Content)
    requires w.push.Opened? && GateTrue(w) && cfg.action != Overwrite && !ClearCheck(cfg, w, ch)
    ensures Kept(w, d) && !Kept(Check(cfg, w, ch), d)
  {
    d := KeepRemoteBuries(cfg, w, w.remote.value, ch);
    var (w1, r) := KeepRemote(cfg, w, w.remote.value, ch);
    SameCopiesInv(w1, w1.(push := Checked(w.push.held, false, false)));
    assert Check(cfg, w, ch) == CheckMoved(cfg, w, w.push.held, w.remote.value, ch);
  }

  // ------------------------------------------------------------ whole runs

  lemma KeepLocalFrame(cfg: Config, w: World, ch: Choice)
    requires w.local.Some?
    ensures var w' := KeepLocal(cfg, w, ch).0;
      w'.echo == w.echo && w'.remote == w.remote && w'.push == w.push && w'.keeps == w.keeps &&
      w'.keptDb == w.keptDb && w'.keptMem == w.keptMem && w'.nextInode == w.nextInode &&
      w'.nextVersion == w.nextVersion && w'.nextStamp == w.nextStamp && w'.synced == w.synced
  {
    var l := w.local.value;
    if cfg.action != Overwrite && ch.moveOk && cfg.action != LocalTrash {
      var gone := w.(local := None);
      var n := UniqueCopy(w, Second(l.mtime));
      PublishFrame(cfg, gone.(copies := w.copies[n := l.content]), n, ch);
    }
  }

  lemma ByCopyFrame(cfg: Config, w: World, f: Remote, n: Name, ch: Choice)
    requires KeepRemoteByCopy(cfg, w, f, n, ch).Some?
    ensures KeepFrame(w, KeepRemoteByCopy(cfg, w, f, n, ch).value)
  {
    var w1 := w.(remoteCopies := w.remoteCopies[n := w.remote.value.content], keeps := w.keeps + multiset{f.version});
    if cfg.action == RemoteTrash { DrainFrame(w1.(jobs := w1.jobs[n := TrashOnly]), n, ch.jobSteps); }
  }

  lemma ByDownloadFrame(cfg: Config, w: World, f: Remote, n: Name, ch: Choice)
    requires KeepRemoteByDownload(cfg, w, f, n, ch).Some?
    ensures KeepFrame(w, KeepRemoteByDownload(cfg, w, f, n, ch).value)
  {
    PublishFrame(cfg, w.(copies := w.copies[n := w.remote.value.content], keeps := w.keeps + multiset{f.version}), n, ch);
  }

  lemma KeepRemoteFrame(cfg: Config, w: World, f: Remote, ch: Choice)
    ensures KeepFrame(w, KeepRemote(cfg, w, f, ch).0)
  {
    var n := Name(Second(f.modified), 1);
    if cfg.action == Overwrite || AlreadyKept(w, f) || cfg.action == LocalTrash || n in w.copies {
    } else if KeepRemoteByCopy(cfg, w, f, n, ch).Some? {
      ByCopyFrame(cfg, w, f, n, ch);
    } else if KeepRemoteByDownload(cfg, w, f, n, ch).Some? {
      ByDownloadFrame(cfg, w, f, n, ch);
    }
  }

  lemma PlaceShape(cfg: Config, w: World, f: Remote, ch: Choice)
    requires EchoShape(cfg, w)
    ensures EchoShape(cfg, PlaceAndRemember(cfg, w, f, ch))
  {
  }

  lemma ResolveShape(cfg: Config, w: World, f: Remote, ch: Choice)
    requires EchoShape(cfg, w) && w.local.Some?
    ensures EchoShape(cfg, ResolveConflict(cfg, w, f, ch))
  {
    if AlreadyKept(w, f) {
    } else if f.modified > w.local.value.mtime {
      KeepLocalFrame(cfg, w, ch);
      PlaceShape(cfg, KeepLocal(cfg, w, ch).0, f, ch);
    } else {
      KeepRemoteFrame(cfg, w, f, ch);
    }
  }

  lemma PullShape(cfg: Config, w: World, f: Remote, ch: Choice)
    requires EchoShape(cfg, w)
    ensures EchoShape(cfg, Apply(cfg, w, f, ch))
  {
    PlaceShape(cfg, w, f, ch);
    if w.local.Some? { ResolveShape(cfg, w, f, ch); }
  }

  lemma CheckShape(cfg: Config, w: World, ch: Choice)
    requires EchoShape(cfg, w) && w.push.Opened?
    ensures EchoShape(cfg, Check(cfg, w, ch))
  {
    var seen := if w.push.gate.Some? then w.push.gate.value else w.remote;
    if seen.Some? {
      KeepRemoteFrame(cfg, w, seen.value, ch);
      assert EchoShape(cfg, CheckMoved(cfg, w, w.push.held, seen.value, ch));
    }
  }

  lemma StepShape(cfg: Config, w: World, s: Step)
    requires EchoShape(cfg, w) && Enabled(w, s)
    ensures EchoShape(cfg, Next(cfg, w, s))
  {
    match s
    case Pull(f, ch) => PullShape(cfg, w, f, ch);
    case PushCheck(ch) => CheckShape(cfg, w, ch);
    case Send(n, ok) => JobStepFrame(w, n);
    case _ =>
  }

  /** The steps of the mount itself, as against edits made on either side. */
  predicate ByMount(s: Step) {
    !s.LocalWrite? && !s.LocalDelete? && !s.RemoteWrite? && !s.RemoteDelete?
  }

  lemma PlaceRemote(cfg: Config, w: World, f: Remote, ch: Choice)
    ensures PlaceAndRemember(cfg, w, f, ch).remote == w.remote
    ensures PlaceAndRemember(cfg, w, f, ch).push == w.push
  {
  }

  lemma ResolveRemote(cfg: Config, w: World, f: Remote, ch: Choice)
    requires w.local.Some?
    ensures ResolveConflict(cfg, w, f, ch).remote == w.remote && ResolveConflict(cfg, w, f, ch).push == w.push
  {
    if AlreadyKept(w, f) {
    } else if f.modified > w.local.value.mtime {
      KeepLocalFrame(cfg, w, ch);
      PlaceRemote(cfg, KeepLocal(cfg, w, ch).0, f, ch);
    } else {
      KeepRemoteFrame(cfg, w, f, ch);
    }
  }

  /** The pull leaves the remote and the push as they are. */
  lemma PullRemote(cfg: Config, w: World, f: Remote, ch: Choice)
    ensures Apply(cfg, w, f, ch).remote == w.remote && Apply(cfg, w, f, ch).push == w.push
  {
    PlaceRemote(cfg, w, f, ch);
    if w.local.Some? { ResolveRemote(cfg, w, f, ch); }
  }

  /** The check leaves both sides of the path as they are. */
  lemma CheckSides(cfg: Config, w: World, ch: Choice)
    requires w.push.Opened?
    ensures Check(cfg, w, ch).remote == w.remote && Check(cfg, w, ch).local == w.local
  {
    var seen := if w.push.gate.Some? then w.push.gate.value else w.remote;
    if seen.Some? {
      KeepRemoteFrame(cfg, w, seen.value, ch);
      var w' := CheckMoved(cfg, w, w.push.held, seen.value, ch);
      assert w'.remote == w.remote && w'.local == w.local;
    }
  }

  /** Only an upload replaces the remote, and only a pull replaces the local file. */
  lemma StepRemote(cfg: Config, w: World, s: Step)
    requires Enabled(w, s) && ByMount(s)
    ensures !s.PushUpload? ==> Next(cfg, w, s).remote == w.remote
    ensures !s.Pull? ==> Next(cfg, w, s).local == w.local
  {
    match s
    case Pull(f, ch) => PullRemote(cfg, w, f, ch);
    case PushCheck(ch) => CheckSides(cfg, w, ch);
    case Send(n, ok) => JobStepFrame(w, n);
    case _ =>
  }

  /**
   One step loses no copy; the names it trusts being honest and the fingerprint true,
   it keeps the invariant and loses nothing unkept.
   */
  lemma StepInv(cfg: Config, w: World, s: Step)
    requires EchoShape(cfg, w) && JobsSafe(w) && GateTrue(w) && cfg.action != Overwrite
    requires Enabled(w, s) && ClearStep(cfg, w, s)
    ensures JobsSafe(Next(cfg, w, s)) && KeepsAll(w, Next(cfg, w, s))
    ensures Inv(w) && HonestStep(cfg, w, s) ==> Inv(Next(cfg, w, s))
    ensures ByMount(s) ==> (FingerprintTrue(w) ==> LocalSafe(w, Next(cfg, w, s))) && (Inv(w) ==> RemoteSafe(w, Next(cfg, w, s)))
  {
    StepCopies(cfg, w, s);
    if ByMount(s) { StepSides(cfg, w, s); }
  }

  lemma StepCopies(cfg: Config, w: World, s: Step)
    requires EchoShape(cfg, w) && JobsSafe(w) && GateTrue(w) && cfg.action != Overwrite
    requires Enabled(w, s) && ClearStep(cfg, w, s)
    ensures JobsSafe(Next(cfg, w, s)) && KeepsAll(w, Next(cfg, w, s))
    ensures Inv(w) && HonestStep(cfg, w, s) ==> Inv(Next(cfg, w, s))
  {
    match s
    case Pull(f, ch) => PullInv(cfg, w, f, ch);
    case PushCheck(ch) => CheckInv(cfg, w, ch);
    case PushUpload(modified) => UploadInv(w, modified);
    case PushRecord => RecordInv(cfg, w);
    case Send(n, ok) => SendInv(w, n, ok);
    case Restart => RestartInv(w);
    case _ => OutsideInv(cfg, w, s);
  }

  /** The edits on either side, and the steps of a push that only look. */
  lemma OutsideInv(cfg: Config, w: World, s: Step)
    requires JobsSafe(w) && Enabled(w, s) && (!ByMount(s) || s.PushOpen? || s.PushStat? || s.PushFail?)
    ensures JobsSafe(Next(cfg, w, s)) && KeepsAll(w, Next(cfg, w, s)) && (Inv(w) ==> Inv(Next(cfg, w, s)))
  {
    OutsideIs(cfg, w, s);
    EnvironmentInv(w, Next(cfg, w, s));
  }

  lemma OutsideIs(cfg: Config, w: World, s: Step)
    requires Enabled(w, s) && (!ByMount(s) || s.PushOpen? || s.PushStat? || s.PushFail?)
    ensures SameCopies(w, Next(cfg, w, s)) && (GateTrue(w) ==> Environment(w, Next(cfg, w, s)))
  {
  }

  lemma StepSides(cfg: Config, w: World, s: Step)
    requires EchoShape(cfg, w) && JobsSafe(w) && cfg.action != Overwrite && ByMount(s)
    requires Enabled(w, s) && ClearStep(cfg, w, s)
    ensures FingerprintTrue(w) ==> LocalSafe(w, Next(cfg, w, s))
    ensures Inv(w) ==> RemoteSafe(w, Next(cfg, w, s))
  {
    StepRemote(cfg, w, s);
    if s.Pull? { PullInv(cfg, w, s.f, s.ch); }
    if s.PushUpload? { UploadInv(w, s.modified); }
  }

  /**
   One step loses a copy exactly when it is not clear: its sender uploads over
   another content that is held nowhere else.
   */
  lemma StepKeepsIff(cfg: Config, w: World, s: Step)
    requires EchoShape(cfg, w) && JobsSafe(w) && GateTrue(w) && cfg.action != Overwrite && Enabled(w, s)
    ensures KeepsAll(w, Next(cfg, w, s)) <==> ClearStep(cfg, w, s)
  {
    if ClearStep(cfg, w, s) {
      StepInv(cfg, w, s);
    } else {
      match s
      case Pull(f, ch) => var d := ResolveBuries(cfg, w, f, ch);
      case PushCheck(ch) => var d := CheckBuries(cfg, w, ch);
      case Send(n, ok) => assert JobSafe(w, n); SenderLosesIff(w, n);
    }
  }

  lemma SendInv(w: World, n: Name, ok: bool)
    requires JobsSafe(w) && n in w.jobs && (ok ==> ClearSend(w, n))
    ensures var w' := if ok then JobStep(w, n) else w.(jobs := w.jobs - {n});
      JobsSafe(w') && KeepsAll(w, w') && (Inv(w) ==> Inv(w'))
  {
    if ok { JobStepInv(w, n); } else { SenderGoneInv(w, w.jobs - {n}); }
  }

  lemma RestartInv(w: World)
    requires JobsSafe(w)
    ensures var w' := w.(push := Idle, jobs := map[], keptMem := None);
      JobsSafe(w') && KeepsAll(w, w') && (Inv(w) ==> Inv(w'))
  {
    SenderGoneInv(w, map[]);
    EnvironmentInv(w.(jobs := map[]), w.(jobs := map[], push := Idle, keptMem := None));
  }

  lemma SenderGoneInv(w: World, jobs: map<Name, Job>)
    requires JobsSafe(w) && forall n :: n in jobs ==> n in w.jobs && jobs[n] == w.jobs[n]
    ensures JobsSafe(w.(jobs := jobs)) && KeepsAll(w, w.(jobs := jobs)) && (Inv(w) ==> Inv(w.(jobs := jobs)))
  {
    forall m | m in jobs ensures JobSafe(w.(jobs := jobs), m) { assert JobSafe(w, m); }
  }

  /** Steps that leave the copies, the records in the store and the senders alone. */
  ghost predicate Environment(w: World, w': World) {
    && SameCopies(w, w') && w'.keptDb == w.keptDb && (w'.keptMem == w.keptMem || w'.keptMem.None?)
    && w.nextVersion <= w'.nextVersion
    && (w'.remote != w.remote ==> !PushLooked(w) && w'.push == w.push)
    && (w'.remote != w.remote && w'.remote.Some? ==> w'.remote.value.version == w.nextVersion < w'.nextVersion)
    && (w'.push.Opened? && w'.push.gate.Some? ==> w'.push.gate.value == w'.remote)
    && (w'.push.Checked? ==> w.push.Checked? && w'.push.create == w.push.create && w'.push.excused == w.push.excused)
  }

  lemma EnvironmentInv(w: World, w': World)
    requires JobsSafe(w) && SameCopies(w, w')
    ensures JobsSafe(w') && KeepsAll(w, w')
    ensures Inv(w) && Environment(w, w') ==> Inv(w')
  {
    SameCopiesInv(w, w');
  }

  /** A look at the remote stays true until the push acts on it. */
  lemma GateStep(cfg: Config, w: World, s: Step)
    requires GateTrue(w) && Enabled(w, s)
    ensures GateTrue(Next(cfg, w, s))
  {
    match s
    case Pull(f, ch) => PullRemote(cfg, w, f, ch);
    case PushCheck(ch) => CheckSides(cfg, w, ch); CheckEnds(cfg, w, ch);
    case Send(n, ok) => JobStepFrame(w, n);
    case _ =>
  }

  /** The check ends the push or lets it upload. */
  lemma CheckEnds(cfg: Config, w: World, ch: Choice)
    requires w.push.Opened?
    ensures Check(cfg, w, ch).push.Idle? ||
            (Check(cfg, w, ch).push.Checked? && Check(cfg, w, ch).push.held == w.push.held && StillAt(w, w.push.held))
  {
  }

  lemma {:induction false} RunShape(cfg: Config, ws: seq<World>, steps: seq<Step>, k: nat)
    requires Run(cfg, ws, steps) && EchoShape(cfg, ws[0]) && GateTrue(ws[0]) && k < |ws|
    ensures EchoShape(cfg, ws[k]) && GateTrue(ws[k])
    decreases k
  {
    if k > 0 {
      RunShape(cfg, ws, steps, k - 1);
      StepShape(cfg, ws[k - 1], steps[k - 1]);
      GateStep(cfg, ws[k - 1], steps[k - 1]);
    }
  }

  /** Over a run in which no upload buries a copy, every copy stays. */
  lemma {:induction false} RunKeeps(cfg: Config, ws: seq<World>, steps: seq<Step>, i: nat, j: nat)
    requires Run(cfg, ws, steps) && Initial(ws[0]) && cfg.action != Overwrite && i <= j < |ws| && Unburied(cfg, ws, steps)
    ensures JobsSafe(ws[j]) && KeepsAll(ws[i], ws[j])
    decreases j
  {
    if j > 0 {
      RunKeeps(cfg, ws, steps, if i < j then i else j - 1, j - 1);
      RunShape(cfg, ws, steps, j - 1);
      StepInv(cfg, ws[j - 1], steps[j - 1]);
    }
  }

  /** The names being honest too, what the records and the push know of the remote stays true. */
  lemma {:induction false} RunInv(cfg: Config, ws: seq<World>, steps: seq<Step>, k: nat)
    requires Run(cfg, ws, steps) && Initial(ws[0]) && cfg.action != Overwrite && k < |ws|
    requires Unburied(cfg, ws, steps) && Honest(cfg, ws, steps)
    ensures Inv(ws[k])
    decreases k
  {
    if k > 0 {
      RunInv(cfg, ws, steps, k - 1);
      RunShape(cfg, ws, steps, k - 1);
      StepInv(cfg, ws[k - 1], steps[k - 1]);
    }
  }

  lemma CheckExcuse(cfg: Config, w: World, ch: Choice)
    requires w.push.Opened? && GateTrue(w)
    requires var p := Check(cfg, w, ch).push; p.Checked? && p.excused
    ensures w.remote.Some? && EchoMatches(cfg, w, w.remote.value)
  {
  }

  ghost predicate Excused(w: World) { w.push.Checked? && !w.push.create && w.push.excused && w.remote.Some? }

  lemma ExcusedStep(cfg: Config, w: World, s: Step)
    requires GateTrue(w) && Enabled(w, s) && Excused(Next(cfg, w, s))
    ensures Next(cfg, w, s).remote == w.remote
    ensures Excused(w) || (s.PushCheck? && EchoMatches(cfg, w, w.remote.value))
  {
    match s
    case PushCheck(ch) => CheckSides(cfg, w, ch); CheckExcuse(cfg, w, ch);
    case Pull(f, ch) => PullRemote(cfg, w, f, ch);
    case Send(n, ok) => JobStepFrame(w, n);
    case _ =>
  }

  /** An excused push found the object on the remote to be the baseline, and it still stands. */
  lemma {:induction false} ExcusedSince(cfg: Config, ws: seq<World>, steps: seq<Step>, k: nat) returns (c: nat)
    requires Run(cfg, ws, steps) && Initial(ws[0]) && k < |ws| && Excused(ws[k])
    ensures c < k && steps[c].PushCheck? && ws[c].remote == ws[k].remote
    ensures EchoMatches(cfg, ws[c], ws[c].remote.value)
    decreases k
  {
    RunShape(cfg, ws, steps, k - 1);
    ExcusedStep(cfg, ws[k - 1], steps[k - 1]);
    if Excused(ws[k - 1]) { c := ExcusedSince(cfg, ws, steps, k - 1); } else { c := k - 1; }
  }

  /**
   No unkept loss, remotely. Whenever the mount replaces a version on the
   remote, the push had found it to be the baseline while it stood there, or it
   is in a copy then and at every later moment.
   */
  lemma NoUnkeptRemoteLoss(cfg: Config, ws: seq<World>, steps: seq<Step>, k: nat, j: nat)
    requires Run(cfg, ws, steps) && Initial(ws[0]) && cfg.action != Overwrite && k < j < |ws|
    requires Unburied(cfg, ws, steps) && Honest(cfg, ws, steps)
    requires ByMount(steps[k]) && ws[k].remote.Some?
    requires !(ws[k + 1].remote.Some? && ws[k + 1].remote.value.content == ws[k].remote.value.content)
    ensures || Kept(ws[j], ws[k].remote.value.content)
            || exists c :: 0 <= c < k && steps[c].PushCheck? && ws[c].remote == ws[k].remote &&
                           EchoMatches(cfg, ws[c], ws[c].remote.value)
  {
    RunShape(cfg, ws, steps, k);
    RunInv(cfg, ws, steps, k);
    RunKeeps(cfg, ws, steps, k + 1, j);
    StepInv(cfg, ws[k], steps[k]);
    if !Kept(ws[k + 1], ws[k].remote.value.content) {
      var c := ExcusedSince(cfg, ws, steps, k);
    }
  }

  lemma StepKept(cfg: Config, w: World, s: Step, w': World)
    requires EchoShape(cfg, w) && JobsSafe(w) && GateTrue(w) && cfg.action != Overwrite && Enabled(w, s)
    requires w' == Next(cfg, w, s) && KeepsAll(w, w')
    ensures ClearStep(cfg, w, s) && JobsSafe(w')
  {
    StepKeepsIff(cfg, w, s);
    StepInv(cfg, w, s);
  }

  /** Every step loses nothing. */
  ghost predicate EachKeeps(ws: seq<World>) { forall i {:trigger ws[i]} :: 0 < i < |ws| ==> KeepsAll(ws[i - 1], ws[i]) }

  lemma {:induction false} KeptSoClear(cfg: Config, ws: seq<World>, steps: seq<Step>, k: nat)
    requires Run(cfg, ws, steps) && Initial(ws[0]) && cfg.action != Overwrite && k < |ws| && EachKeeps(ws)
    ensures JobsSafe(ws[k]) && (k > 0 ==> ClearStep(cfg, ws[k - 1], steps[k - 1]))
    decreases k
  {
    if k > 0 {
      KeptSoClear(cfg, ws, steps, k - 1);
      RunShape(cfg, ws, steps, k - 1);
      StepKept(cfg, ws[k - 1], steps[k - 1], ws[k]);
    }
  }

  /** A run loses no copy exactly when no step of it uploads a copy over another that is held nowhere else. */
  lemma CopiesStayIff(cfg: Config, ws: seq<World>, steps: seq<Step>)
    requires Run(cfg, ws, steps) && Initial(ws[0]) && cfg.action != Overwrite
    ensures (forall i, j :: 0 <= i <= j < |ws| ==> KeepsAll(ws[i], ws[j])) <==> Unburied(cfg, ws, steps)
  {
    if Unburied(cfg, ws, steps) {
      forall i, j | 0 <= i <= j < |ws| ensures KeepsAll(ws[i], ws[j]) { RunKeeps(cfg, ws, steps, i, j); }
    } else if EachKeeps(ws) {
      var i :| 0 <= i < |steps| && !ClearStep(cfg, ws[i], steps[i]);
      KeptSoClear(cfg, ws, steps, i + 1);
    }
  }

  /** A copy once made always has a holder: no sender, failure or restart leaves a moment without one. */
  lemma CopiesNeverVanish(cfg: Config, ws: seq<World>, steps: seq<Step>, i: nat, j: nat, c: Content)
    requires Run(cfg, ws, steps) && Initial(ws[0]) && cfg.action != Overwrite && i <= j < |ws| && Unburied(cfg, ws, steps)
    requires Kept(ws[i], c)
    ensures Kept(ws[j], c)
  {
    RunKeeps(cfg, ws, steps, i, j);
  }
}
