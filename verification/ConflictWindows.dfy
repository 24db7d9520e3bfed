/**
 The windows the conflict machine leaves open, each as a run from a path nothing
 has happened to yet, and what keepRemote makes of a name it finds taken.
 */
module ConflictWindows {
  import opened Options
  import opened Conflicts
  import opened ConflictRuns
  import opened ConflictFingerprints
  import opened ConflictWinners

  const ALL_OK := Choice(true, true, true, true, true, true, true, 3)

  /** A path nothing has happened to yet. */
  const UNTOUCHED := World(None, None, None, None, None, map[], map[], multiset{}, multiset{}, map[], Idle, 0, 0, 0, multiset{}, None)

  /** One step, with the world it leads to. */
  ghost predicate Leads(cfg: Config, w: World, s: Step, w': World) { Enabled(w, s) && Next(cfg, w, s) == w' }

  /** One more step of a run. */
  lemma Extend(cfg: Config, ws: seq<World>, steps: seq<Step>, s: Step, w': World) returns (ws': seq<World>, steps': seq<Step>)
    requires Run(cfg, ws, steps) && Leads(cfg, ws[|steps|], s, w')
    ensures Run(cfg, ws', steps') && ws' == ws + [w'] && steps' == steps + [s]
    ensures Initial(ws[0]) ==> Initial(ws'[0])
    ensures Fresh(ws, steps) && (s.Pull? ==> ws[|steps|].remote == Some(s.f)) ==> Fresh(ws', steps')
    ensures Honest(cfg, ws, steps) && HonestStep(cfg, ws[|steps|], s) ==> Honest(cfg, ws', steps')
    ensures Unburied(cfg, ws, steps) && ClearStep(cfg, ws[|steps|], s) ==> Unburied(cfg, ws', steps')
  {
    ws', steps' := ws + [w'], steps + [s];
    ExtendRun(cfg, ws, steps, s, w');
    ExtendHonest(cfg, ws, steps, s, w');
    ExtendUnburied(cfg, ws, steps, s, w');
  }

  lemma ExtendRun(cfg: Config, ws: seq<World>, steps: seq<Step>, s: Step, w': World)
    requires Run(cfg, ws, steps) && Leads(cfg, ws[|steps|], s, w')
    ensures Run(cfg, ws + [w'], steps + [s])
    ensures Fresh(ws, steps) && (s.Pull? ==> ws[|steps|].remote == Some(s.f)) ==> Fresh(ws + [w'], steps + [s])
  {
  }

  lemma ExtendHonest(cfg: Config, ws: seq<World>, steps: seq<Step>, s: Step, w': World)
    requires Run(cfg, ws, steps) && Run(cfg, ws + [w'], steps + [s])
    ensures Honest(cfg, ws, steps) && HonestStep(cfg, ws[|steps|], s) ==> Honest(cfg, ws + [w'], steps + [s])
  {
  }

  lemma ExtendUnburied(cfg: Config, ws: seq<World>, steps: seq<Step>, s: Step, w': World)
    requires Run(cfg, ws, steps) && Run(cfg, ws + [w'], steps + [s]) && Enabled(ws[|steps|], s)
    ensures Unburied(cfg, ws, steps) && ClearStep(cfg, ws[|steps|], s) ==> Unburied(cfg, ws + [w'], steps + [s])
  {
  }

  lemma Start(cfg: Config) returns (ws: seq<World>, steps: seq<Step>)
    ensures Run(cfg, ws, steps) && Initial(ws[0]) && ws == [UNTOUCHED] && steps == []
    ensures Fresh(ws, steps) && Honest(cfg, ws, steps) && Unburied(cfg, ws, steps)
  {
    ws, steps := [UNTOUCHED], [];
  }

  // ------------------------------------------------------------ two winners

  function HashedLocally(): Config { Config(Dir, OnLocal, true, true, false, false) }

  /** What a pull that moves the newer report's loser into the local folder leaves. */
  function MovedAside(w: World, f: Remote, c: Content): World
    requires w.local.Some?
  {
    w.(local := Some(LocalFile(w.nextInode, c, w.nextStamp, f.modified)), copies := map[Name(0, 1) := w.local.value.content],
       echo := Some(Echo(Some(f.content), f.version, Some(w.nextStamp))), synced := Some(c), keptDb := None,
       nextInode := w.nextInode + 1, nextStamp := w.nextStamp + 1)
  }

  lemma MovesAside(cfg: Config, w: World, f: Remote)
    requires cfg == HashedLocally() || cfg == Creating()
    requires w.remote.Some? && w.local.Some? && f.modified > w.local.value.mtime && !AlreadyKept(w, f)
    requires w.copies == map[] && w.local.value.content != f.content && Second(w.local.value.mtime) == 0
    requires !EchoMatches(cfg, w, f) && (w.echo.None? || w.echo.value.hash != Some(w.local.value.content))
    ensures UniqueCopy(w, 0) == Name(0, 1) && Apply(cfg, w, f, ALL_OK) == MovedAside(w, f, w.remote.value.content)
    ensures Kept(MovedAside(w, f, w.remote.value.content), w.local.value.content)
  {
    var n, c := Name(0, 1), w.local.value.content;
    assert w.copies[n := c] == map[n := c] && n in map[n := c] && map[n := c][n] == c;
  }

  /** A baseline placed, an edit on top of it, and its push let through. */
  function CheckedEdit(): World {
    var held := LocalFile(1, "edit", 1, 50);
    UNTOUCHED.(local := Some(held), remote := Some(Remote("base", 1, 10)), echo := Some(Echo(Some("base"), 1, Some(0))), synced := Some("base"),
               push := Checked(held, false, true), nextVersion := 2, nextInode := 2, nextStamp := 2)
  }

  lemma ReachesCheckedEdit() returns (ws: seq<World>, steps: seq<Step>)
    ensures Run(HashedLocally(), ws, steps) && Initial(ws[0]) && |steps| == 6 && ws[6] == CheckedEdit()
  {
    var cfg := HashedLocally();
    var base, held := Remote("base", 1, 10), LocalFile(1, "edit", 1, 50);
    ws, steps := Start(cfg);
    var w1 := UNTOUCHED.(remote := Some(Remote("old", 0, 2 * TICKS_PER_SECOND)), nextVersion := 1);
    ws, steps := Extend(cfg, ws, steps, RemoteWrite("old", 2 * TICKS_PER_SECOND), w1);
    var w2 := w1.(remote := Some(base), nextVersion := 2);
    ws, steps := Extend(cfg, ws, steps, RemoteWrite("base", 10), w2);
    var w3 := w2.(local := Some(LocalFile(0, "base", 0, 10)), echo := Some(Echo(Some("base"), 1, Some(0))), synced := Some("base"),
                  nextInode := 1, nextStamp := 1);
    ws, steps := Extend(cfg, ws, steps, Pull(base, ALL_OK), w3);
    var w4 := w3.(local := Some(held), nextInode := 2, nextStamp := 2);
    ws, steps := Extend(cfg, ws, steps, LocalWrite("edit", 50, false), w4);
    ws, steps := Extend(cfg, ws, steps, PushOpen, w4.(push := Opened(held, None)));
    ws, steps := Extend(cfg, ws, steps, PushCheck(ALL_OK), CheckedEdit());
  }

  const STALE := Remote("old", 0, 2 * TICKS_PER_SECOND)

  /** What the upload of a push's held file leaves on the remote. */
  function SentOver(w: World, modified: int): World
    requires w.push.Checked?
  {
    var sent := Remote(w.push.held.content, w.nextVersion, modified);
    w.(remote := Some(sent), nextVersion := w.nextVersion + 1, push := Uploaded(w.push.held, sent))
  }

  lemma SendsHeld(cfg: Config, w: World, modified: int)
    requires w.push.Checked? && (w.push.create ==> w.remote.None?)
    ensures Leads(cfg, w, PushUpload(modified), SentOver(w, modified))
  {
  }

  lemma StaleMovesAside()
    ensures var w := CheckedEdit();
      && Leads(HashedLocally(), w, Pull(STALE, ALL_OK), MovedAside(w, STALE, "base"))
      && Kept(MovedAside(w, STALE, "base"), "edit") && !Kept(w, "edit")
      && Takes([w, MovedAside(w, STALE, "base")], [Pull(STALE, ALL_OK)], 0)
  {
    MovesAside(HashedLocally(), CheckedEdit(), STALE);
  }

  /**
   A stale report applied between a push's check and its upload, newer than the
   local edit by its own time, makes both sides win: the edit is moved to the
   conflicts folder and uploaded.
   */
  lemma StaleReportTwoWinners() returns (ws: seq<World>, steps: seq<Step>)
    ensures Run(HashedLocally(), ws, steps) && Initial(ws[0]) && |steps| == 8 && !Fresh(ws, steps)
    ensures Takes(ws, steps, 6) && Pending(ws, 6, 7) && ws[7].remote.Some?
    ensures steps[7].PushUpload? && ws[8].remote.Some? && ws[8].remote.value.content == "edit"
    ensures !Kept(ws[6], "edit") && Kept(ws[7], "edit")
  {
    var cfg, w := HashedLocally(), CheckedEdit();
    ws, steps := ReachesCheckedEdit();
    StaleMovesAside();
    var w' := MovedAside(w, STALE, "base");
    ws, steps := Extend(cfg, ws, steps, Pull(STALE, ALL_OK), w');
    SendsHeld(cfg, w', 0);
    ws, steps := Extend(cfg, ws, steps, PushUpload(0), SentOver(w', 0));
    assert ws[6] == w && ws[7] == w' && steps[6] == Pull(STALE, ALL_OK);
    assert steps[6].Pull? && ws[6].remote != Some(steps[6].f);
  }

  function Creating(): Config { Config(Dir, OnLocal, true, true, false, true) }

  /** A create let through, with nothing on the remote. */
  function CreateChecked(): World {
    var held := LocalFile(0, "edit", 0, 10);
    UNTOUCHED.(local := Some(held), push := Checked(held, true, false), nextInode := 1, nextStamp := 1)
  }

  lemma ReachesCreateChecked() returns (ws: seq<World>, steps: seq<Step>)
    ensures Run(Creating(), ws, steps) && Initial(ws[0]) && |steps| == 3 && Fresh(ws, steps) && ws[3] == CreateChecked()
  {
    var cfg, held := Creating(), LocalFile(0, "edit", 0, 10);
    ws, steps := Start(cfg);
    var w1 := UNTOUCHED.(local := Some(held), nextInode := 1, nextStamp := 1);
    ws, steps := Extend(cfg, ws, steps, LocalWrite("edit", 10, false), w1);
    ws, steps := Extend(cfg, ws, steps, PushOpen, w1.(push := Opened(held, None)));
    ws, steps := Extend(cfg, ws, steps, PushCheck(ALL_OK), CreateChecked());
  }

  const THEIRS := Remote("theirs", 0, 20)

  /** An object that appears, and the edit moved away for it. */
  function CreateOrphaned(): World { MovedAside(CreateChecked().(remote := Some(THEIRS), nextVersion := 1), THEIRS, "theirs") }

  lemma ReachesCreateOrphaned() returns (ws: seq<World>, steps: seq<Step>)
    ensures Run(Creating(), ws, steps) && Initial(ws[0]) && |steps| == 5 && Fresh(ws, steps)
    ensures Takes(ws, steps, 4) && Pending(ws, 4, 5) && ws[5] == CreateOrphaned()
  {
    var cfg := Creating();
    ws, steps := ReachesCreateChecked();
    var w4 := CreateChecked().(remote := Some(THEIRS), nextVersion := 1);
    ws, steps := Extend(cfg, ws, steps, RemoteWrite("theirs", 20), w4);
    MovesAside(cfg, w4, THEIRS);
    ws, steps := Extend(cfg, ws, steps, Pull(THEIRS, ALL_OK), CreateOrphaned());
    assert ws[4] == w4 && steps[4] == Pull(THEIRS, ALL_OK);
  }

  /**
   A create let through before an object appears and a fresh report of it moves
   the edit away, with the object deleted again before the create is sent.
   */
  lemma DeletedBeforeCreateTwoWinners() returns (ws: seq<World>, steps: seq<Step>)
    ensures Run(Creating(), ws, steps) && Initial(ws[0]) && |steps| == 7 && Fresh(ws, steps)
    ensures Takes(ws, steps, 4) && Pending(ws, 4, 6) && ws[6].remote.None?
    ensures steps[6].PushUpload? && ws[7].push.Uploaded? && ws[7].remote.Some? && ws[7].remote.value.content == "edit"
  {
    var cfg, w := Creating(), CreateOrphaned();
    ws, steps := ReachesCreateOrphaned();
    var w6 := w.(remote := None);
    ws, steps := Extend(cfg, ws, steps, RemoteDelete, w6);
    SendsHeld(cfg, w6, 0);
    ws, steps := Extend(cfg, ws, steps, PushUpload(0), SentOver(w6, 0));
    assert ws[5] == w && ws[6] == w6;
  }

  // ------------------------------------------------------------ written while it is sent

  function Hashless(): Config { Config(Dir, OnLocal, false, false, false, false) }

  /** "first" uploaded, and "second" written into the same file before the upload is recorded. */
  function WrittenSince(): World {
    var held := LocalFile(0, "second", 1, 20);
    UNTOUCHED.(local := Some(held), remote := Some(Remote("first", 0, 5)), push := Uploaded(held, Remote("first", 0, 5)),
               nextVersion := 1, nextInode := 1, nextStamp := 2)
  }

  /** The content never stood on the remote. */
  ghost predicate NeverSent(ws: seq<World>, c: Content) {
    forall k :: 0 <= k < |ws| && ws[k].remote.Some? ==> ws[k].remote.value.content != c
  }

  lemma ReachesWrittenSince() returns (ws: seq<World>, steps: seq<Step>)
    ensures Run(Hashless(), ws, steps) && Initial(ws[0]) && |steps| == 5 && ws[5] == WrittenSince()
    ensures Fresh(ws, steps) && Honest(Hashless(), ws, steps) && Unburied(Hashless(), ws, steps) && NeverSent(ws, "second")
  {
    var cfg, first := Hashless(), LocalFile(0, "first", 0, 10);
    ws, steps := Start(cfg);
    var w1 := UNTOUCHED.(local := Some(first), nextInode := 1, nextStamp := 1);
    ws, steps := Extend(cfg, ws, steps, LocalWrite("first", 10, false), w1);
    ws, steps := Extend(cfg, ws, steps, PushOpen, w1.(push := Opened(first, None)));
    var w3 := w1.(push := Checked(first, false, false));
    ws, steps := Extend(cfg, ws, steps, PushCheck(ALL_OK), w3);
    SendsHeld(cfg, w3, 5);
    ws, steps := Extend(cfg, ws, steps, PushUpload(5), SentOver(w3, 5));
    ws, steps := Extend(cfg, ws, steps, LocalWrite("second", 20, true), WrittenSince());
  }

  /** What the record leaves, and then a newer version on the remote: the fingerprint is the second write's. */
  function FalselyRecorded(): World {
    WrittenSince().(push := Idle, echo := Some(Echo(None, 0, Some(1))), synced := Some("first"),
                    remote := Some(Remote("theirs", 1, 30)), nextVersion := 2)
  }

  lemma ReachesFalselyRecorded() returns (ws: seq<World>, steps: seq<Step>)
    ensures Run(Hashless(), ws, steps) && Initial(ws[0]) && |steps| == 7 && ws[7] == FalselyRecorded()
    ensures Fresh(ws, steps) && Honest(Hashless(), ws, steps) && Unburied(Hashless(), ws, steps) && NeverSent(ws, "second")
    ensures steps[5].PushRecord? && !RecordTrue(Hashless(), ws[5])
  {
    var cfg, w := Hashless(), WrittenSince();
    ws, steps := ReachesWrittenSince();
    var w6 := w.(push := Idle, echo := Some(Echo(None, 0, Some(1))), synced := Some("first"));
    ws, steps := Extend(cfg, ws, steps, PushRecord, w6);
    ws, steps := Extend(cfg, ws, steps, RemoteWrite("theirs", 30), FalselyRecorded());
    assert ws[5] == w;
  }

  /** The winner in place of the file whose fingerprint matched, with nothing kept. */
  function Replaced(): World {
    FalselyRecorded().(local := Some(LocalFile(1, "theirs", 2, 30)), echo := Some(Echo(None, 1, Some(2))), synced := Some("theirs"),
                       nextInode := 2, nextStamp := 3)
  }

  lemma ReplacesUnkept()
    ensures var w := FalselyRecorded();
      && Leads(Hashless(), w, Pull(w.remote.value, ALL_OK), Replaced()) && ClearLoser(Hashless(), w, w.remote.value, ALL_OK)
      && LosesEdit(Hashless(), w, w.remote.value, ALL_OK) && !LocalIsBaseline(w, w.local.value) && !Kept(Replaced(), "second")
  {
  }

  /**
   On a backend without digests: a write into the file between its upload and the
   record of it gets the baseline's fingerprint, and the next version from the
   remote replaces it. It was never sent, and no copy was made.
   */
  lemma WriteDuringUploadLost() returns (ws: seq<World>, steps: seq<Step>)
    ensures Run(Hashless(), ws, steps) && Initial(ws[0]) && |steps| == 8 && Fresh(ws, steps)
    ensures Honest(Hashless(), ws, steps) && Unburied(Hashless(), ws, steps)
    ensures steps[5].PushRecord? && !RecordTrue(Hashless(), ws[5]) && steps[7].Pull?
    ensures ws[7].local.Some? && ws[7].local.value.content == "second" && !LocalIsBaseline(ws[7], ws[7].local.value)
    ensures ws[8].local.Some? && ws[8].local.value.content == "theirs" && !Kept(ws[8], "second")
    ensures NeverSent(ws, "second")
  {
    var cfg, w := Hashless(), FalselyRecorded();
    ws, steps := ReachesFalselyRecorded();
    ReplacesUnkept();
    ws, steps := Extend(cfg, ws, steps, Pull(w.remote.value, ALL_OK), Replaced());
    assert ws[7] == w && ws[8] == Replaced();
  }

  // ------------------------------------------------------------ kept twice

  function TrashingLocally(): Config { Config(LocalTrash, Both, true, true, false, false) }

  /** What a pull that finds a newer local edit leaves: the standing version trashed, once more than before. */
  function TrashedAgain(w: World, f: Remote): World {
    w.(localTrash := w.localTrash + multiset{f.content}, keeps := w.keeps + multiset{f.version},
       keptDb := Some(f.version), keptMem := Some(f.version))
  }

  lemma TrashesAgain(w: World, f: Remote, c: Content)
    requires w.remote.Some? && w.remote.value.content == c && !EchoMatches(TrashingLocally(), w, f) && !AlreadyKept(w, f)
    requires w.local.Some? && w.local.value.content != f.content && f.modified <= w.local.value.mtime
    requires w.echo.None? || w.echo.value.hash != Some(w.local.value.content)
    ensures Apply(TrashingLocally(), w, f, ALL_OK) == TrashedAgain(w, f.(content := c))
  {
  }

  /** A version kept by a pull while the upload it met is still to be recorded. */
  function KeptBeforeRecord(): World {
    var held := LocalFile(0, "second", 1, 50);
    TrashedAgain(UNTOUCHED.(local := Some(held), remote := Some(Remote("theirs", 1, 20)),
                            push := Uploaded(held, Remote("first", 0, 10)),
                            nextVersion := 2, nextInode := 1, nextStamp := 2), Remote("theirs", 1, 20))
  }

  /** A first edit pushed, its upload still to be recorded. */
  function FirstUploaded(): World {
    var first := LocalFile(0, "first", 0, 40);
    UNTOUCHED.(local := Some(first), remote := Some(Remote("first", 0, 10)), push := Uploaded(first, Remote("first", 0, 10)),
               nextVersion := 1, nextInode := 1, nextStamp := 1)
  }

  lemma ReachesFirstUploaded() returns (ws: seq<World>, steps: seq<Step>)
    ensures Run(TrashingLocally(), ws, steps) && Initial(ws[0]) && |steps| == 4 && Fresh(ws, steps)
    ensures ws[4] == FirstUploaded()
  {
    var cfg, first := TrashingLocally(), LocalFile(0, "first", 0, 40);
    ws, steps := Start(cfg);
    var w1 := UNTOUCHED.(local := Some(first), nextInode := 1, nextStamp := 1);
    ws, steps := Extend(cfg, ws, steps, LocalWrite("first", 40, false), w1);
    ws, steps := Extend(cfg, ws, steps, PushOpen, w1.(push := Opened(first, None)));
    ws, steps := Extend(cfg, ws, steps, PushCheck(ALL_OK), w1.(push := Checked(first, false, false)));
    ws, steps := Extend(cfg, ws, steps, PushUpload(10), FirstUploaded());
  }

  lemma ReachesKeptBeforeRecord() returns (ws: seq<World>, steps: seq<Step>)
    ensures Run(TrashingLocally(), ws, steps) && Initial(ws[0]) && |steps| == 7 && Fresh(ws, steps)
    ensures ws[7] == KeptBeforeRecord()
  {
    var cfg, w, f, second := TrashingLocally(), FirstUploaded(), Remote("theirs", 1, 20), LocalFile(0, "second", 1, 50);
    ws, steps := ReachesFirstUploaded();
    var w5 := w.(remote := Some(f), nextVersion := 2);
    ws, steps := Extend(cfg, ws, steps, RemoteWrite("theirs", 20), w5);
    var w6 := w5.(local := Some(second), nextStamp := 2, push := Uploaded(second, w.push.sent));
    ws, steps := Extend(cfg, ws, steps, LocalWrite("second", 50, true), w6);
    TrashesAgain(w6, f, "theirs");
    ws, steps := Extend(cfg, ws, steps, Pull(f, ALL_OK), KeptBeforeRecord());
  }

  /** The kept record lost to the upload's record, and memory to a restart. */
  function Forgotten(): World {
    KeptBeforeRecord().(push := Idle, echo := Some(Echo(Some("first"), 0, Some(1))), synced := Some("first"),
                        keptDb := None, keptMem := None)
  }

  lemma ReachesForgotten() returns (ws: seq<World>, steps: seq<Step>)
    ensures Run(TrashingLocally(), ws, steps) && Initial(ws[0]) && |steps| == 9 && Fresh(ws, steps) && ws[9] == Forgotten()
    ensures steps[7].PushRecord? && Recognised(TrashingLocally(), ws[7]) && !SentStands(TrashingLocally(), ws[7])
    ensures steps[8].Restart?
  {
    var cfg, w := TrashingLocally(), KeptBeforeRecord();
    ws, steps := ReachesKeptBeforeRecord();
    var w8 := w.(push := Idle, echo := Some(Echo(Some("first"), 0, Some(1))), synced := Some("first"), keptDb := None);
    ForgetsAtRecord(w, w8);
    ws, steps := Extend(cfg, ws, steps, PushRecord, w8);
    ws, steps := Extend(cfg, ws, steps, Restart, Forgotten());
    assert ws[7] == w;
  }

  /**
   A version the pull keeps between an upload and the record of its baseline
   loses its kept record to that record; a restart then keeps it again.
   */
  lemma RestartKeepsTwice() returns (ws: seq<World>, steps: seq<Step>)
    ensures Run(TrashingLocally(), ws, steps) && Initial(ws[0]) && |steps| == 10 && Fresh(ws, steps)
    ensures steps[7].PushRecord? && Recognised(TrashingLocally(), ws[7]) && !SentStands(TrashingLocally(), ws[7])
    ensures steps[8].Restart? && ws[10].remote.Some? && ws[10].keeps[ws[10].remote.value.version] == 2
  {
    var cfg, w, f := TrashingLocally(), Forgotten(), Remote("theirs", 1, 20);
    ws, steps := ReachesForgotten();
    TrashesAgain(w, f, "theirs");
    ws, steps := Extend(cfg, ws, steps, Pull(f, ALL_OK), TrashedAgain(w, f));
  }

  lemma ForgetsAtRecord(w: World, w': World)
    requires w == KeptBeforeRecord() && w' == w.(push := Idle, echo := Some(Echo(Some("first"), 0, Some(1))), synced := Some("first"), keptDb := None)
    ensures Leads(TrashingLocally(), w, PushRecord, w')
    ensures Recognised(TrashingLocally(), w) && !SentStands(TrashingLocally(), w)
  {
  }

  /** A stale report of a version already kept, once a later one has been kept too, keeps it again. */
  lemma StaleReportKeepsTwice() returns (ws: seq<World>, steps: seq<Step>)
    ensures Run(TrashingLocally(), ws, steps) && Initial(ws[0]) && |steps| == 6 && !Fresh(ws, steps)
    ensures NothingForgotten(TrashingLocally(), ws, steps) && ws[6].keeps[0] == 2
  {
    var cfg, f, g := TrashingLocally(), Remote("one", 0, 10), Remote("two", 1, 20);
    ws, steps := Start(cfg);
    var w1 := UNTOUCHED.(local := Some(LocalFile(0, "edit", 0, 50)), nextInode := 1, nextStamp := 1);
    ws, steps := Extend(cfg, ws, steps, LocalWrite("edit", 50, false), w1);
    var w2 := w1.(remote := Some(f), nextVersion := 1);
    ws, steps := Extend(cfg, ws, steps, RemoteWrite("one", 10), w2);
    TrashesAgain(w2, f, "one");
    var w3 := TrashedAgain(w2, f);
    ws, steps := Extend(cfg, ws, steps, Pull(f, ALL_OK), w3);
    var w4 := w3.(remote := Some(g), nextVersion := 2);
    ws, steps := Extend(cfg, ws, steps, RemoteWrite("two", 20), w4);
    TrashesAgain(w4, g, "two");
    var w5 := TrashedAgain(w4, g);
    ws, steps := Extend(cfg, ws, steps, Pull(g, ALL_OK), w5);
    TrashesAgain(w5, f, "two");
    ws, steps := Extend(cfg, ws, steps, Pull(f, ALL_OK), TrashedAgain(w5, f.(content := "two")));
    assert ws[5] == w5 && steps[5] == Pull(f, ALL_OK);
    assert steps[5].Pull? && ws[5].remote != Some(steps[5].f);
    assert forall i :: 0 <= i < |steps| ==> !steps[i].PushRecord?;
  }

  // ------------------------------------------------------------ trusted names

  /**
   The check by name: what keepRemote calls kept it has made a copy of exactly if
   nothing lay under the version's name here; if something did, it changes no copy
   at all, so the version is in one exactly if it was before the call.
   */
  lemma KeptIffNameTrue(cfg: Config, w: World, f: Remote, ch: Choice)
    requires cfg.action != Overwrite && w.remote == Some(f) && !AlreadyKept(w, f)
    requires KeepRemote(cfg, w, f, ch).1 != KeepFailed
    ensures var n, w' := Name(Second(f.modified), 1), KeepRemote(cfg, w, f, ch).0;
      && (w'.keeps == w.keeps + multiset{f.version} <==> cfg.action == LocalTrash || n !in w.copies)
      && (cfg.action != LocalTrash && n in w.copies ==> w' == Remember(w, f))
      && (JobsSafe(w) && ClearVersion(cfg, w, f, ch) ==>
            (Kept(w', f.content) <==> (cfg.action != LocalTrash && n in w.copies ==> Kept(w, f.content))))
  {
    var n := Name(Second(f.modified), 1);
    KeepCounts(cfg, w, f, ch);
    assert (w.keeps + multiset{f.version})[f.version] == w.keeps[f.version] + 1;
    if JobsSafe(w) && ClearVersion(cfg, w, f, ch) {
      if cfg.action == LocalTrash {
      } else if n in w.copies {
        SameCopiesInv(w, Remember(w, f));
      } else {
        match KeepRemoteByCopy(cfg, w, f, n, ch)
        case Some(w1) =>
          ByCopyInv(cfg, w, f, n, ch);
          KeptRemembered(w, w1, f);
        case None =>
          ByDownloadInv(cfg, w, f, n, ch);
          KeptRemembered(w, KeepRemoteByDownload(cfg, w, f, n, ch).value, f);
      }
    }
  }

  /** A push of an edit, opened where an earlier local loser of the same second stands under the standing version's name. */
  function OpenedOverLoser(): World {
    UNTOUCHED.(local := Some(LocalFile(2, "edit", 2, 50)), remote := Some(Remote("theirs", 1, 999)),
               echo := Some(Echo(Some("base"), 0, Some(1))), synced := Some("base"), copies := map[Name(0, 1) := "earlier"],
               push := Opened(LocalFile(2, "edit", 2, 50), None), nextVersion := 2, nextInode := 3, nextStamp := 3)
  }

  /** The earlier loser moved aside and the baseline in its place. */
  function EarlierLost(): World {
    UNTOUCHED.(local := Some(LocalFile(1, "base", 1, 20)), remote := Some(Remote("base", 0, 20)),
               echo := Some(Echo(Some("base"), 0, Some(1))), synced := Some("base"), copies := map[Name(0, 1) := "earlier"],
               nextVersion := 1, nextInode := 2, nextStamp := 2)
  }

  lemma ReachesEarlierLost() returns (ws: seq<World>, steps: seq<Step>)
    ensures Run(HashedLocally(), ws, steps) && Initial(ws[0]) && |steps| == 3 && Fresh(ws, steps)
    ensures Unburied(HashedLocally(), ws, steps) && ws[3] == EarlierLost()
    ensures steps[0].LocalWrite? && steps[1].RemoteWrite? && steps[2].Pull?
  {
    var cfg, base := HashedLocally(), Remote("base", 0, 20);
    ws, steps := Start(cfg);
    var w1 := UNTOUCHED.(local := Some(LocalFile(0, "earlier", 0, 10)), nextInode := 1, nextStamp := 1);
    ws, steps := Extend(cfg, ws, steps, LocalWrite("earlier", 10, false), w1);
    var w2 := w1.(remote := Some(base), nextVersion := 1);
    ws, steps := Extend(cfg, ws, steps, RemoteWrite("base", 20), w2);
    MovesAside(cfg, w2, base);
    assert MovedAside(w2, base, "base").copies == map[Name(0, 1) := "earlier"];
    ws, steps := Extend(cfg, ws, steps, Pull(base, ALL_OK), EarlierLost());
  }

  lemma ReachesOpenedOverLoser() returns (ws: seq<World>, steps: seq<Step>)
    ensures Run(HashedLocally(), ws, steps) && Initial(ws[0]) && |steps| == 6 && Fresh(ws, steps)
    ensures Unburied(HashedLocally(), ws, steps) && ws[6] == OpenedOverLoser()
    ensures forall c :: 0 <= c < 6 ==> !steps[c].PushCheck?
  {
    var cfg, w, edit := HashedLocally(), EarlierLost(), LocalFile(2, "edit", 2, 50);
    ws, steps := ReachesEarlierLost();
    var w4 := w.(local := Some(edit), nextInode := 3, nextStamp := 3);
    ws, steps := Extend(cfg, ws, steps, LocalWrite("edit", 50, false), w4);
    var w5 := w4.(remote := Some(Remote("theirs", 1, 999)), nextVersion := 2);
    ws, steps := Extend(cfg, ws, steps, RemoteWrite("theirs", 999), w5);
    ws, steps := Extend(cfg, ws, steps, PushOpen, OpenedOverLoser());
  }

  /**
   A local edit that lost in the same second a remote version was written stands
   under that version's name, and the version is replaced unkept.
   */
  lemma SameSecondLosesRemote() returns (ws: seq<World>, steps: seq<Step>)
    ensures Run(HashedLocally(), ws, steps) && Initial(ws[0]) && |steps| == 8 && Fresh(ws, steps)
    ensures Unburied(HashedLocally(), ws, steps)
    ensures steps[7].PushUpload? && ws[7].remote.Some? && ws[8].remote != ws[7].remote
    ensures !Kept(ws[8], ws[7].remote.value.content)
    ensures forall c :: 0 <= c < 7 && steps[c].PushCheck? ==> c == 6 && !EchoMatches(HashedLocally(), ws[6], Remote("theirs", 1, 999))
  {
    var cfg, theirs := HashedLocally(), Remote("theirs", 1, 999);
    ws, steps := ReachesOpenedOverLoser();
    var w := OpenedOverLoser();
    TrustsName(w);
    var w7 := Remember(w, theirs).(push := Checked(w.push.held, false, false));
    ws, steps := Extend(cfg, ws, steps, PushCheck(ALL_OK), w7);
    SendsHeld(cfg, w7, 0);
    ws, steps := Extend(cfg, ws, steps, PushUpload(0), SentOver(w7, 0));
    assert ws[6] == w && ws[7] == w7 && steps[6] == PushCheck(ALL_OK);
    assert !Kept(ws[8], "theirs");
  }

  lemma TrustsName(w: World)
    requires w == OpenedOverLoser()
    ensures Check(HashedLocally(), w, ALL_OK) == Remember(w, w.remote.value).(push := Checked(w.push.held, false, false))
  {
  }

  function SentToRemote(): Config { Config(Dir, OnRemote, true, true, false, false) }

  /** What a pull that moves the newer report's loser straight to the remote folder leaves. */
  function SentStraight(w: World, f: Remote): World
    requires w.local.Some?
  {
    w.(local := Some(LocalFile(w.nextInode, f.content, w.nextStamp, f.modified)),
       remoteCopies := w.remoteCopies[Name(0, 1) := w.local.value.content],
       echo := Some(Echo(Some(f.content), f.version, Some(w.nextStamp))), synced := Some(f.content), keptDb := None,
       nextInode := w.nextInode + 1, nextStamp := w.nextStamp + 1)
  }

  lemma SendsStraight(w: World, f: Remote)
    requires w.remote == Some(f) && w.local.Some? && f.modified > w.local.value.mtime && !AlreadyKept(w, f)
    requires w.copies == map[] && w.jobs == map[] && w.local.value.content != f.content && Second(w.local.value.mtime) == 0
    requires !EchoMatches(SentToRemote(), w, f) && (w.echo.None? || w.echo.value.hash != Some(w.local.value.content))
    ensures UniqueCopy(w, 0) == Name(0, 1) && Apply(SentToRemote(), w, f, ALL_OK) == SentStraight(w, f)
  {
    var n, c := Name(0, 1), w.local.value.content;
    SendsAndRemoves(w.(local := None), n, c);
  }

  /** A copy made here, sent and removed again. */
  lemma SendsAndRemoves(w: World, n: Name, c: Content)
    requires w.copies == map[] && w.jobs == map[]
    ensures var w0 := w.(copies := w.copies[n := c]);
      Publish(SentToRemote(), w0, n, ALL_OK) == w.(remoteCopies := w.remoteCopies[n := c])
  {
    var w0 := w.(copies := w.copies[n := c], jobs := w.jobs[n := UploadRemove]);
    var w1 := JobStep(w0, n);
    assert w1.jobs == map[n := RemoveLocal];
    var w2 := JobStep(w1, n);
    assert w2.copies == map[] && w2.jobs == map[];
    assert Drain(w0, n, 3) == Drain(w1, n, 2) == Drain(w2, n, 1) == w2;
  }

  /** The pull above, where another content stands at that name and nowhere else, is not clear, and loses it. */
  lemma StraightBuries(w: World, f: Remote, d: Content)
    requires w.remote == Some(f) && w.local.Some? && f.modified > w.local.value.mtime && !AlreadyKept(w, f)
    requires w.copies == map[] && w.localTrash == multiset{} && w.remoteTrash == multiset{}
    requires w.remoteCopies == map[Name(0, 1) := d] && d != w.local.value.content && w.local.value.content != f.content
    requires !EchoMatches(SentToRemote(), w, f) && (w.echo.None? || w.echo.value.hash != Some(w.local.value.content))
    requires Second(w.local.value.mtime) == 0 && UniqueCopy(w, 0) == Name(0, 1)
    ensures !ClearLoser(SentToRemote(), w, f, ALL_OK)
    ensures Kept(w, d) && !Kept(SentStraight(w, f), d)
  {
    assert Name(0, 1) in w.remoteCopies && w.remoteCopies[Name(0, 1)] == d;
    assert SentStraight(w, f).remoteCopies == map[Name(0, 1) := w.local.value.content];
  }

  /** The first of two local edits of the same second lost and sent, and the second one in place. */
  function SecondEdit(): World {
    UNTOUCHED.(local := Some(LocalFile(2, "second", 2, 30)), remote := Some(Remote("b", 1, 40)),
               remoteCopies := map[Name(0, 1) := "first"], echo := Some(Echo(Some("a"), 0, Some(1))), synced := Some("a"),
               nextVersion := 2, nextInode := 3, nextStamp := 3)
  }

  lemma ReachesSecondEdit() returns (ws: seq<World>, steps: seq<Step>)
    ensures Run(SentToRemote(), ws, steps) && Initial(ws[0]) && |steps| == 5 && Fresh(ws, steps)
    ensures Honest(SentToRemote(), ws, steps) && ws[5] == SecondEdit()
  {
    var cfg, f := SentToRemote(), Remote("a", 0, 20);
    ws, steps := Start(cfg);
    var w1 := UNTOUCHED.(local := Some(LocalFile(0, "first", 0, 10)), nextInode := 1, nextStamp := 1);
    ws, steps := Extend(cfg, ws, steps, LocalWrite("first", 10, false), w1);
    var w2 := w1.(remote := Some(f), nextVersion := 1);
    ws, steps := Extend(cfg, ws, steps, RemoteWrite("a", 20), w2);
    SendsStraight(w2, f);
    var w3 := SentStraight(w2, f);
    assert w3.remoteCopies == map[Name(0, 1) := "first"];
    ws, steps := Extend(cfg, ws, steps, Pull(f, ALL_OK), w3);
    var w4 := w3.(local := Some(LocalFile(2, "second", 2, 30)), nextInode := 3, nextStamp := 3);
    ws, steps := Extend(cfg, ws, steps, LocalWrite("second", 30, false), w4);
    ws, steps := Extend(cfg, ws, steps, RemoteWrite("b", 40), SecondEdit());
  }

  /**
   With the folder on the remote alone, two local edits that lost in the same
   second get the same name, and the second one's upload buries the first one's copy.
   */
  lemma SameSecondLosesCopy() returns (ws: seq<World>, steps: seq<Step>)
    ensures Run(SentToRemote(), ws, steps) && Initial(ws[0]) && |steps| == 6 && Fresh(ws, steps)
    ensures Honest(SentToRemote(), ws, steps) && !ClearStep(SentToRemote(), ws[5], steps[5])
    ensures Kept(ws[5], "first") && !Kept(ws[6], "first")
  {
    var w, g := SecondEdit(), Remote("b", 1, 40);
    ws, steps := ReachesSecondEdit();
    SendsStraight(w, g);
    StraightBuries(w, g, "first");
    ws, steps := Extend(SentToRemote(), ws, steps, Pull(g, ALL_OK), SentStraight(w, g));
  }
}
