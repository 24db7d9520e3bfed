/**
 The conflict policy and the two components that decide one path: the pull
 (`applyTo`, `resolveConflict`), the push's divergence check (`checkRemote`),
 its upload and baseline record, and the senders of conflict copies. Everything
 here is about one path; `World` is what that path's decisions read and write.

 A digest is modelled by the content itself (digests are injective), a local
 fingerprint (size and mtime) by a stamp that every write renews.
 */
module Conflicts {
  import opened Options

  type Content = string

  datatype Action = Dir | LocalTrash | RemoteTrash | Overwrite
  datatype Place = Both | OnLocal | OnRemote

  /** What the mount and its backend are: fixed for a run. */
  datatype Config = Config(
    action: Action, place: Place,
    hashes: bool,   // the backend reports a content digest
    hasher: bool,   // the backend's digest can be computed locally
    copier: bool,   // the backend copies on its own side
    creator: bool)  // the backend can refuse to replace

  datatype Remote = Remote(content: Content, version: nat, modified: int)

  datatype LocalFile = LocalFile(inode: nat, content: Content, stamp: nat, mtime: int)

  datatype Echo = Echo(hash: Option<Content>, version: nat, stamp: Option<nat>)

  /** A conflict copy's name: the loser's time to the second, and uniqueCopy's counter. */
  datatype Name = Name(second: int, n: nat)

  const TICKS_PER_SECOND := 1_000_000_000

  function Second(t: int): int { t / TICKS_PER_SECOND }

  /** The remote half of keeping a loser, by what is still to be done. */
  datatype Job =
    | UploadKeep       // dir, both: send the copy, keep the local one
    | UploadRemove     // dir, remote: send, then remove the local one
    | UploadTrash      // remote trash: send, trash, remove
    | TrashThenRemove
    | RemoveLocal
    | TrashOnly        // copied on the remote already, with nothing local

  /** A push of the path. `gate` is the Stat the shortcut gates paid for. */
  datatype Push =
    | Idle
    | Opened(held: LocalFile, gate: Option<Option<Remote>>)
    | Checked(held: LocalFile, create: bool, excused: bool)
    | Uploaded(held: LocalFile, sent: Remote)

  datatype World = World(
    local: Option<LocalFile>,
    remote: Option<Remote>,
    echo: Option<Echo>,
    keptDb: Option<nat>,              // the kept record in the state store
    keptMem: Option<nat>,             // the one in memory
    copies: map<Name, Content>,       // the local conflicts folder
    remoteCopies: map<Name, Content>, // the same folder on the remote
    localTrash: multiset<Content>,
    remoteTrash: multiset<Content>,
    jobs: map<Name, Job>,
    push: Push,
    nextVersion: nat, nextInode: nat, nextStamp: nat,
    // History, read by no operation.
    keeps: multiset<nat>,             // the remote versions a copy was made for
    synced: Option<Content>)          // the content both sides had when the baseline was recorded

  /** What the environment decides within one operation: which calls succeed. */
  datatype Choice = Choice(
    moveOk: bool, copyOk: bool, fetchOk: bool, copyFetchOk: bool,
    placeOk: bool,      // the winner's download succeeds
    recordOk: bool,     // the process survives to record the winner
    inline: bool,       // no `later`: the sender runs now
    jobSteps: nat)      // how many steps of it succeed

  function HashOf(cfg: Config, c: Content): Option<Content> { if cfg.hashes then Some(c) else None }

  predicate Matches(e: Echo, hash: Option<Content>, version: nat) {
    if e.hash.Some? || hash.Some? then e.hash == hash else e.version == version
  }

  predicate EchoMatches(cfg: Config, w: World, f: Remote) {
    w.echo.Some? && Matches(w.echo.value, HashOf(cfg, f.content), f.version)
  }

  ghost predicate Holds(folder: map<Name, Content>, c: Content) {
    exists n :: n in folder && folder[n] == c
  }

  /** The content exists as a conflict copy somewhere. */
  ghost predicate Kept(w: World, c: Content) {
    || Holds(w.copies, c)
    || Holds(w.remoteCopies, c)
    || c in w.localTrash
    || c in w.remoteTrash
  }

  /** The local file as the mount can tell it from an edit: by the digest, or by the fingerprint where there is none. */
  predicate LooksSynced(w: World, l: LocalFile) {
    w.echo.Some? &&
    if w.echo.value.hash.Some? then w.echo.value.hash.value == l.content
    else w.echo.value.stamp == Some(l.stamp)
  }

  /** The local file holds what the baseline stands for: no edit is in it. */
  predicate LocalIsBaseline(w: World, l: LocalFile) {
    w.echo.Some? && l.content in BaselineContents(w)
  }

  /** The content a baseline stands for: what its digest says, or without one what was synced. */
  function BaselineContents(w: World): set<Content> {
    if w.echo.None? then {}
    else if w.echo.value.hash.Some? then {w.echo.value.hash.value}
    else if w.synced.Some? then {w.synced.value} else {}
  }

  /** A fingerprint that matches the local file, where nothing else is recorded, is of the content that was synced. */
  predicate FingerprintTrue(w: World) {
    w.local.Some? && w.echo.Some? && w.echo.value.hash.None? && LooksSynced(w, w.local.value) ==>
      LocalIsBaseline(w, w.local.value)
  }

  predicate StillAt(w: World, held: LocalFile) {
    w.local.Some? && w.local.value.inode == held.inode
  }

  predicate AlreadyKept(w: World, f: Remote) {
    w.keptMem == Some(f.version) || w.keptDb == Some(f.version)
  }

  function Remember(w: World, f: Remote): World {
    w.(keptMem := Some(f.version), keptDb := Some(f.version))
  }

  /** SetEcho: the baseline of a content, and the kept record dropped with it. */
  function SetEcho(w: World, e: Echo, content: Option<Content>): World {
    w.(echo := Some(e), synced := content, keptDb := None)
  }

  function ContentOf(l: Option<LocalFile>): Option<Content> { if l.Some? then Some(l.value.content) else None }

  // ---------------------------------------------------------------- senders

  /** The first free name for a local loser: uniqueCopy. */
  function FirstFree(taken: set<Name>, second: int, n: nat): (r: nat)
    ensures n <= r && Name(second, r) !in taken
    ensures forall m :: n <= m < r ==> Name(second, m) in taken
    decreases taken
  {
    if Name(second, n) !in taken then n
    else
      var r := FirstFree(taken - {Name(second, n)}, second, n + 1);
      assert forall m :: n < m < r ==> Name(second, m) in taken - {Name(second, n)};
      r
  }

  function UniqueCopy(w: World, second: int): Name {
    Name(second, FirstFree(w.copies.Keys, second, 1))
  }

  /** One successful step of the sender of the copy at n. */
  function JobStep(w: World, n: Name): World
    requires n in w.jobs
  {
    var rest := w.jobs - {n};
    match w.jobs[n]
    case UploadKeep =>
      if n !in w.copies then w.(jobs := rest)
      else w.(remoteCopies := w.remoteCopies[n := w.copies[n]], jobs := rest)
    case UploadRemove =>
      if n !in w.copies then w.(jobs := rest)
      else w.(remoteCopies := w.remoteCopies[n := w.copies[n]], jobs := w.jobs[n := RemoveLocal])
    case UploadTrash =>
      if n !in w.copies then w.(jobs := rest)
      else w.(remoteCopies := w.remoteCopies[n := w.copies[n]], jobs := w.jobs[n := TrashThenRemove])
    case TrashThenRemove =>
      if n !in w.remoteCopies then w.(jobs := rest)
      else w.(remoteTrash := w.remoteTrash + multiset{w.remoteCopies[n]},
              remoteCopies := w.remoteCopies - {n}, jobs := w.jobs[n := RemoveLocal])
    case RemoveLocal =>
      w.(copies := w.copies - {n}, jobs := rest)
    case TrashOnly =>
      if n !in w.remoteCopies then w.(jobs := rest)
      else w.(remoteTrash := w.remoteTrash + multiset{w.remoteCopies[n]},
              remoteCopies := w.remoteCopies - {n}, jobs := rest)
  }

  /** The sender run in place: k steps succeed, and what is left is given up. */
  function Drain(w: World, n: Name, k: nat): World
    decreases k
  {
    if n !in w.jobs then w
    else if k == 0 then w.(jobs := w.jobs - {n})
    else Drain(JobStep(w, n), n, k - 1)
  }

  function Finish(w: World, n: Name, ch: Choice): World {
    if ch.inline then Drain(w, n, ch.jobSteps) else w
  }

  function Publish(cfg: Config, w: World, n: Name, ch: Choice): World {
    if cfg.action == Dir && cfg.place == OnLocal then w
    else
      var job := if cfg.action == Dir && cfg.place == Both then UploadKeep
                 else if cfg.action == RemoteTrash then UploadTrash
                 else UploadRemove;
      Finish(w.(jobs := w.jobs[n := job]), n, ch)
  }

  // ---------------------------------------------------------------- keeping

  /** keepLocal: the file leaves the path and is a copy. False: it could not be kept. */
  function KeepLocal(cfg: Config, w: World, ch: Choice): (World, bool)
    requires w.local.Some?
  {
    var l := w.local.value;
    var gone := w.(local := None);
    if cfg.action == Overwrite then (w, true)
    else if !ch.moveOk then (w, false)
    else if cfg.action == LocalTrash then
      (gone.(localTrash := w.localTrash + multiset{l.content}), true)
    else
      var n := UniqueCopy(w, Second(l.mtime));
      (Publish(cfg, gone.(copies := w.copies[n := l.content]), n, ch), true)
  }

  datatype KeepResult = KeptNow | KeptBefore | KeptNowhere | KeepFailed

  /** keepRemoteByCopy: None when the backend's own copy did not keep it, as when something stands at the name already. */
  function KeepRemoteByCopy(cfg: Config, w: World, f: Remote, n: Name, ch: Choice): Option<World> {
    if (cfg.action == Dir && cfg.place == OnLocal) || !cfg.copier || !ch.copyOk || w.remote.None? || n in w.remoteCopies then None
    else
      var c := w.remote.value.content;
      var w1 := w.(remoteCopies := w.remoteCopies[n := c], keeps := w.keeps + multiset{f.version});
      if cfg.action == RemoteTrash then Some(Finish(w1.(jobs := w1.jobs[n := TrashOnly]), n, ch))
      else if cfg.place == OnRemote || !ch.copyFetchOk then Some(w1)
      else Some(w1.(copies := w1.copies[n := c]))
  }

  /** The object downloaded into the local folder and published from there. */
  function KeepRemoteByDownload(cfg: Config, w: World, f: Remote, n: Name, ch: Choice): Option<World> {
    if !ch.fetchOk || w.remote.None? then None
    else
      var w1 := w.(copies := w.copies[n := w.remote.value.content], keeps := w.keeps + multiset{f.version});
      Some(Publish(cfg, w1, n, ch))
  }

  /** keepRemote: the object now at the path, kept as the version f reports. */
  function KeepRemote(cfg: Config, w: World, f: Remote, ch: Choice): (World, KeepResult) {
    var n := Name(Second(f.modified), 1);
    if cfg.action == Overwrite then (w, KeptNowhere)
    else if AlreadyKept(w, f) then (w, KeptBefore)
    else if cfg.action == LocalTrash then
      if !ch.fetchOk || w.remote.None? then (w, KeepFailed)
      else (Remember(w.(localTrash := w.localTrash + multiset{w.remote.value.content},
                        keeps := w.keeps + multiset{f.version}), f), KeptNow)
    else if n in w.copies then (Remember(w, f), KeptBefore)
    else
      match KeepRemoteByCopy(cfg, w, f, n, ch)
      case Some(w1) => (Remember(w1, f), KeptNow)
      case None =>
        match KeepRemoteByDownload(cfg, w, f, n, ch)
        case Some(w1) => (Remember(w1, f), KeptNow)
        case None => (w, KeepFailed)
  }

  // ---------------------------------------------------------------- the pull

  /** materialize: what the remote holds now, in place of what is at the path. */
  function Materialize(w: World, f: Remote, ch: Choice): Option<World> {
    if !ch.placeOk || w.remote.None? then None
    else
      Some(w.(local := Some(LocalFile(w.nextInode, w.remote.value.content, w.nextStamp, f.modified)),
              nextInode := w.nextInode + 1, nextStamp := w.nextStamp + 1))
  }

  /** rememberApplied. */
  function RememberApplied(cfg: Config, w: World, f: Remote): World {
    SetEcho(w, Echo(HashOf(cfg, f.content), f.version,
                    if w.local.Some? then Some(w.local.value.stamp) else None), ContentOf(w.local))
  }

  function PlaceAndRemember(cfg: Config, w: World, f: Remote, ch: Choice): World {
    match Materialize(w, f, ch)
    case None => w
    case Some(w1) => if ch.recordOk then RememberApplied(cfg, w1, f) else w1
  }

  function ResolveConflict(cfg: Config, w: World, f: Remote, ch: Choice): World
    requires w.local.Some?
  {
    if AlreadyKept(w, f) then w
    else if f.modified > w.local.value.mtime then
      var (w1, ok) := KeepLocal(cfg, w, ch);
      if !ok then w else PlaceAndRemember(cfg, w1, f, ch)
    else KeepRemote(cfg, w, f, ch).0
  }

  datatype Verdict = Unchanged | Same | Diverged | Unreadable

  /** hashlessLocal: the local file against a remote object with no digest. */
  function HashlessLocal(w: World, f: Remote, ch: Choice): Verdict
    requires w.local.Some?
  {
    var l := w.local.value;
    if w.echo.Some? && w.echo.value.stamp.Some? then
      if l.stamp != w.echo.value.stamp.value then Diverged else Unchanged
    else if |l.content| != |f.content| then Diverged
    else if !ch.fetchOk || w.remote.None? then Unreadable
    else if l.content == w.remote.value.content then Same
    else Diverged
  }

  /** applyTo, for a report f of a file at the path. */
  function Apply(cfg: Config, w: World, f: Remote, ch: Choice): World {
    if EchoMatches(cfg, w, f) then w
    else if w.local.None? then PlaceAndRemember(cfg, w, f, ch)
    else if cfg.hashes then
      var l := w.local.value;
      if l.content == f.content then RememberApplied(cfg, w, f)
      else if w.echo.None? || w.echo.value.hash != Some(l.content) then ResolveConflict(cfg, w, f, ch)
      else PlaceAndRemember(cfg, w, f, ch)
    else
      match HashlessLocal(w, f, ch)
      case Same => RememberApplied(cfg, w, f)
      case Diverged => ResolveConflict(cfg, w, f, ch)
      case Unchanged => PlaceAndRemember(cfg, w, f, ch)
      case Unreadable => w
  }

  // ---------------------------------------------------------------- the push

  /** The remote moved since the baseline: nothing to send, or a loser to keep first. */
  function CheckMoved(cfg: Config, w: World, held: LocalFile, seen: Remote, ch: Choice): World {
    if cfg.hasher && HashOf(cfg, seen.content) == Some(held.content) then
      SetEcho(w, Echo(HashOf(cfg, seen.content), seen.version, Some(held.stamp)), Some(held.content)).(push := Idle)
    else if cfg.hasher && w.echo.Some? && w.echo.value.hash == Some(held.content) then
      w.(push := Idle)
    else
      var (w1, r) := KeepRemote(cfg, w, seen, ch);
      if r == KeepFailed then w.(push := Idle) else w1.(push := Checked(held, false, false))
  }

  /** checkRemote, for the push that holds the file open. */
  function Check(cfg: Config, w: World, ch: Choice): World
    requires w.push.Opened?
  {
    var held := w.push.held;
    if !StillAt(w, held) then w.(push := Idle)
    else if w.echo.None? && w.push.gate.None? && cfg.action == Overwrite then
      w.(push := Checked(held, false, false))
    else if w.echo.None? && w.push.gate.None? && cfg.creator then
      w.(push := Checked(held, true, false))
    else
      var seen := if w.push.gate.Some? then w.push.gate.value else w.remote;
      if seen.None? then w.(push := Checked(held, false, false))
      else if EchoMatches(cfg, w, seen.value) then w.(push := Checked(held, false, true))
      else CheckMoved(cfg, w, held, seen.value, ch)
  }

  /** The whole-file upload, or the Create that a standing object refuses. */
  function Upload(w: World, modified: int): World
    requires w.push.Checked?
  {
    var held := w.push.held;
    if w.push.create && w.remote.Some? then w.(push := Opened(held, Some(w.remote)))
    else
      var sent := Remote(held.content, w.nextVersion, modified);
      w.(remote := Some(sent), nextVersion := w.nextVersion + 1,
         push := Uploaded(held, sent))
  }

  /** uploaded: the baseline, with a fingerprint only when the file sent is still there. */
  function Record(cfg: Config, w: World): World
    requires w.push.Uploaded?
  {
    var sent := w.push.sent;
    SetEcho(w, Echo(HashOf(cfg, sent.content), sent.version,
                    if StillAt(w, w.push.held) then Some(w.push.held.stamp) else None), Some(sent.content)).(push := Idle)
  }
}
