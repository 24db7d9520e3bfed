/**
 The placeholder marker's crash protocol: a file is marked before it can be seen,
 and unmarked only after its content is complete and on disk. The machine takes
 one system call a step; any number of creations and fetches are under way at
 once, any of them may fail, and the whole may stop between any two steps.
 */
module Placeholders {
  import opened Options

  type Path = string
  type Bytes = seq<int>

  datatype Name = Real(path: Path) | Temp(n: nat)

  /** content is what a reader sees, disk what survives the machine going down. */
  datatype Inode = Inode(content: Bytes, disk: Bytes, marked: bool)

  datatype Op =
    | Creating(path: Path, tmp: nat, file: nat, size: nat, built: CreateStage)
    | Fetching(path: Path, body: Bytes, inode: Option<nat>, done: nat, stage: FetchStage)

  datatype CreateStage = Empty | Sized | Attached
  datatype FetchStage = Copying | Trimmed | Flushed

  /** full: the contents the store has delivered whole, path by path. */
  datatype Disk = Disk(names: map<Name, nat>, inodes: map<nat, Inode>, ops: map<nat, Op>, full: set<(Path, Bytes)>)

  datatype Step =
    | CreateTemp(op: nat, path: Path, tmp: nat, inode: nat, size: nat)
    | Truncate(op: nat)
    | SetMark(op: nat)
    | Publish(op: nat)
    | Get(op: nat, path: Path, body: Bytes)
    | Open(op: nat)
    | Write(op: nat, n: nat)
    | Trim(op: nat)
    | Sync(op: nat)
    | Unmark(op: nat)
    | Fail(op: nat)
    | Stop(left: map<nat, Bytes>)

  function Zeros(n: nat): Bytes { seq(n, _ => 0) }

  /** n more bytes written in place over what is there. */
  function Overwritten(content: Bytes, body: Bytes, done: nat, n: nat): Bytes
    requires done <= |content| && done + n <= |body|
  {
    content[..done] + body[done..done + n] + (if done + n <= |content| then content[done + n..] else [])
  }

  predicate At(d: Disk, op: nat, stage: CreateStage) {
    op in d.ops && d.ops[op].Creating? && d.ops[op].built == stage && d.ops[op].file in d.inodes
  }

  predicate FetchAt(d: Disk, op: nat, stage: FetchStage) {
    op in d.ops && d.ops[op].Fetching? && d.ops[op].stage == stage && d.ops[op].inode.Some? && d.ops[op].inode.value in d.inodes
  }

  /** What the system calls themselves allow. */
  predicate Enabled(d: Disk, s: Step) {
    match s
    case CreateTemp(op, path, tmp, inode, size) => op !in d.ops && Temp(tmp) !in d.names && inode !in d.inodes
    case Truncate(op) => At(d, op, Empty)
    case SetMark(op) => At(d, op, Sized)
    case Publish(op) => At(d, op, Attached)
    case Get(op, path, body) => op !in d.ops
    case Open(op) => op in d.ops && d.ops[op].Fetching? && d.ops[op].inode.None? &&
      Real(d.ops[op].path) in d.names && d.names[Real(d.ops[op].path)] in d.inodes
    case Write(op, n) => FetchAt(d, op, Copying) && d.ops[op].done + n <= |d.ops[op].body|
      && d.ops[op].done <= |d.inodes[d.ops[op].inode.value].content|
    case Trim(op) => FetchAt(d, op, Copying) && d.ops[op].done == |d.ops[op].body|
      && d.ops[op].done <= |d.inodes[d.ops[op].inode.value].content|
    case Sync(op) => FetchAt(d, op, Trimmed)
    case Unmark(op) => FetchAt(d, op, Flushed) && Real(d.ops[op].path) in d.names && d.names[Real(d.ops[op].path)] in d.inodes
    case Fail(op) => op in d.ops
    case Stop(left) => left.Keys == d.inodes.Keys
  }

  /** Going down: what was not on disk may be left in any state. */
  function AfterStop(i: Inode, left: Bytes): Inode {
    if i.content == i.disk then i else i.(content := left, disk := left)
  }

  function Next(d: Disk, s: Step): Disk
    requires Enabled(d, s)
  {
    match s
    case CreateTemp(op, path, tmp, inode, size) =>
      d.(names := d.names[Temp(tmp) := inode], inodes := d.inodes[inode := Inode([], [], false)],
         ops := d.ops[op := Creating(path, tmp, inode, size, Empty)])
    case Truncate(op) =>
      var o := d.ops[op];
      d.(inodes := d.inodes[o.file := d.inodes[o.file].(content := Zeros(o.size))], ops := d.ops[op := o.(built := Sized)])
    case SetMark(op) =>
      var o := d.ops[op];
      d.(inodes := d.inodes[o.file := d.inodes[o.file].(marked := true)], ops := d.ops[op := o.(built := Attached)])
    case Publish(op) =>
      var o := d.ops[op];
      d.(names := (d.names - {Temp(o.tmp)})[Real(o.path) := o.file], ops := d.ops - {op})
    case Get(op, path, body) =>
      d.(ops := d.ops[op := Fetching(path, body, None, 0, Copying)], full := d.full + {(path, body)})
    case Open(op) =>
      d.(ops := d.ops[op := d.ops[op].(inode := Some(d.names[Real(d.ops[op].path)]))])
    case Write(op, n) =>
      var o, i := d.ops[op], d.inodes[d.ops[op].inode.value];
      d.(inodes := d.inodes[o.inode.value := i.(content := Overwritten(i.content, o.body, o.done, n))],
         ops := d.ops[op := o.(done := o.done + n)])
    case Trim(op) =>
      var o, i := d.ops[op], d.inodes[d.ops[op].inode.value];
      d.(inodes := d.inodes[o.inode.value := i.(content := i.content[..o.done])], ops := d.ops[op := o.(stage := Trimmed)])
    case Sync(op) =>
      var o, i := d.ops[op], d.inodes[d.ops[op].inode.value];
      d.(inodes := d.inodes[o.inode.value := i.(disk := i.content)], ops := d.ops[op := o.(stage := Flushed)])
    case Unmark(op) =>
      var at := d.names[Real(d.ops[op].path)];
      d.(inodes := d.inodes[at := d.inodes[at].(marked := false)], ops := d.ops - {op})
    case Fail(op) =>
      d.(ops := d.ops - {op}, names := if d.ops[op].Creating? then d.names - {Temp(d.ops[op].tmp)} else d.names)
    case Stop(left) => d.(inodes := map i | i in d.inodes :: AfterStop(d.inodes[i], left[i]), ops := map[])
  }

  // ------------------------------------------------------------ the property

  /** A file everyone can see that is not marked holds, on disk too, a whole delivered content. */
  ghost predicate Safe(d: Disk) {
    forall p: Path :: Real(p) in d.names ==> SafeAt(d, p)
  }

  ghost predicate SafeAt(d: Disk, p: Path)
    requires Real(p) in d.names
  {
    && d.names[Real(p)] in d.inodes
    && (d.inodes[d.names[Real(p)]].marked || Resident(d, p, d.inodes[d.names[Real(p)]]))
  }

  ghost predicate Resident(d: Disk, p: Path, i: Inode) {
    i.content == i.disk && (p, i.content) in d.full
  }

  /**
   What the callers must see to: one operation on a path at a time, and a fetch
   opening a file that lost its marker in the meantime brings what it holds.
   */
  ghost predicate Careful(d: Disk, s: Step) {
    match s
    case CreateTemp(op, path, _, _, _) => forall o :: o in d.ops ==> d.ops[o].path != path
    case Get(op, path, body) => forall o :: o in d.ops ==> d.ops[o].path != path
    case Open(op) => op in d.ops && Real(d.ops[op].path) in d.names && d.names[Real(d.ops[op].path)] in d.inodes &&
      var i := d.inodes[d.names[Real(d.ops[op].path)]];
      i.marked || (d.ops[op].Fetching? && i.content == d.ops[op].body)
    case _ => true
  }

  // ------------------------------------------------------------ what every step keeps

  /** No two names share a file, and the file of an unpublished placeholder has only its temporary name. */
  ghost predicate NamesApart(d: Disk) {
    && (forall n :: n in d.names ==> d.names[n] in d.inodes)
    && forall m, n :: m in d.names && n in d.names && m != n ==> d.names[m] != d.names[n]
  }

  ghost predicate OpApart(d: Disk) {
    forall a, b :: a in d.ops && b in d.ops && a != b ==> OpsApart(d.ops[a], d.ops[b])
  }

  ghost predicate OpsApart(a: Op, b: Op) {
    a.path != b.path && (a.Creating? && b.Creating? ==> a.tmp != b.tmp)
  }

  ghost predicate CreateHolds(d: Disk, o: Op)
    requires o.Creating?
  {
    && o.file in d.inodes && Temp(o.tmp) in d.names && d.names[Temp(o.tmp)] == o.file
    && (o.built == Attached ==> d.inodes[o.file].marked)
  }

  /** How far a fetch's file has come; unmarked, it holds the same bytes the fetch brings. */
  ghost predicate FetchHolds(d: Disk, o: Op)
    requires o.Fetching?
  {
    && (o.path, o.body) in d.full && (o.inode.None? ==> o.done == 0 && o.stage == Copying)
    && (o.inode.Some? ==>
          && Real(o.path) in d.names && d.names[Real(o.path)] == o.inode.value && o.inode.value in d.inodes
          && var i := d.inodes[o.inode.value];
          && o.done <= |i.content| && o.done <= |o.body| && i.content[..o.done] == o.body[..o.done]
          && (o.stage != Copying ==> i.content == o.body) && (o.stage == Flushed ==> i.disk == o.body)
          && (i.marked || (i.content == o.body && i.disk == o.body)))
  }

  ghost predicate OpHolds(d: Disk, o: Op) {
    if o.Creating? then CreateHolds(d, o) else FetchHolds(d, o)
  }

  ghost predicate Inv(d: Disk) {
    Safe(d) && NamesApart(d) && OpApart(d) && forall op :: op in d.ops ==> OpHolds(d, d.ops[op])
  }

  ghost predicate Run(ds: seq<Disk>, ss: seq<Step>) {
    && |ds| == |ss| + 1
    && forall k :: 0 <= k < |ss| ==> Enabled(ds[k], ss[k]) && Careful(ds[k], ss[k]) && ds[k + 1] == Next(ds[k], ss[k])
  }

  lemma CreateTempInv(d: Disk, s: Step)
    requires Inv(d) && s.CreateTemp? && Enabled(d, s) && Careful(d, s)
    ensures Inv(Next(d, s))
  {
    var e := Next(d, s);
    forall p: Path | Real(p) in e.names ensures SafeAt(e, p) { assert SafeAt(d, p); }
    forall op | op in e.ops ensures OpHolds(e, e.ops[op]) { if op != s.op { assert OpHolds(d, d.ops[op]); } }
  }

  /** The file an unpublished placeholder is being built in is nobody else's. */
  lemma BuiltApart(d: Disk, op: nat)
    requires Inv(d) && op in d.ops && d.ops[op].Creating?
    ensures CreateHolds(d, d.ops[op])
    ensures forall p: Path :: Real(p) in d.names ==> d.names[Real(p)] != d.ops[op].file
    ensures forall o :: o in d.ops && o != op && d.ops[o].Creating? ==> d.ops[o].file != d.ops[op].file
    ensures forall o :: o in d.ops && d.ops[o].Fetching? ==> d.ops[o].inode != Some(d.ops[op].file)
  {
    assert OpHolds(d, d.ops[op]);
    forall o | o in d.ops && o != op ensures OpHolds(d, d.ops[o]) && OpsApart(d.ops[o], d.ops[op]) { }
  }

  lemma BuildInv(d: Disk, s: Step)
    requires Inv(d) && (s.Truncate? || s.SetMark?) && Enabled(d, s)
    ensures Inv(Next(d, s))
  {
    var e := Next(d, s);
    BuiltApart(d, s.op);
    forall p: Path | Real(p) in e.names ensures SafeAt(e, p) { assert SafeAt(d, p); }
    forall op | op in e.ops ensures OpHolds(e, e.ops[op]) { if op != s.op { assert OpHolds(d, d.ops[op]); } }
  }

  lemma PublishInv(d: Disk, s: Step)
    requires Inv(d) && s.Publish? && Enabled(d, s)
    ensures Inv(Next(d, s))
  {
    var e := Next(d, s);
    BuiltApart(d, s.op);
    forall p: Path | Real(p) in e.names ensures SafeAt(e, p) {
      if p != d.ops[s.op].path { assert Real(p) in d.names && SafeAt(d, p); }
    }
    forall op | op in e.ops ensures OpHolds(e, e.ops[op]) {
      assert OpHolds(d, d.ops[op]) && OpsApart(d.ops[op], d.ops[s.op]);
    }
  }

  lemma GetInv(d: Disk, s: Step)
    requires Inv(d) && s.Get? && Enabled(d, s) && Careful(d, s)
    ensures Inv(Next(d, s))
  {
    var e := Next(d, s);
    forall p: Path | Real(p) in e.names ensures SafeAt(e, p) { assert SafeAt(d, p); }
    forall op | op in e.ops ensures OpHolds(e, e.ops[op]) { if op != s.op { assert OpHolds(d, d.ops[op]); } }
  }

  lemma OpenInv(d: Disk, s: Step)
    requires Inv(d) && s.Open? && Enabled(d, s) && Careful(d, s)
    ensures Inv(Next(d, s))
  {
    var e := Next(d, s);
    assert OpHolds(d, d.ops[s.op]) && SafeAt(d, d.ops[s.op].path);
    forall p: Path | Real(p) in e.names ensures SafeAt(e, p) { assert SafeAt(d, p); }
    forall op | op in e.ops ensures OpHolds(e, e.ops[op]) { if op != s.op { assert OpHolds(d, d.ops[op]); } }
  }

  /** Only the fetch's own file, seen only at its own path, is touched by a fetch's step. */
  lemma FetchApart(d: Disk, op: nat)
    requires Inv(d) && op in d.ops && d.ops[op].Fetching? && d.ops[op].inode.Some?
    ensures FetchHolds(d, d.ops[op])
    ensures forall p: Path :: Real(p) in d.names && d.names[Real(p)] == d.ops[op].inode.value ==> p == d.ops[op].path
    ensures forall o :: o in d.ops && d.ops[o].Creating? ==> d.ops[o].file != d.ops[op].inode.value
    ensures forall o :: o in d.ops && o != op && d.ops[o].Fetching? ==> d.ops[o].inode != d.ops[op].inode
  {
    assert OpHolds(d, d.ops[op]);
    forall o | o in d.ops && o != op ensures OpHolds(d, d.ops[o]) && OpsApart(d.ops[o], d.ops[op]) { }
  }

  lemma OverwrittenHolds(content: Bytes, body: Bytes, done: nat, n: nat)
    requires done <= |content| && done + n <= |body| && content[..done] == body[..done]
    ensures var w := Overwritten(content, body, done, n);
      && done + n <= |w| && w[..done + n] == body[..done + n] && (content == body ==> w == body)
  {
    var w := Overwritten(content, body, done, n);
    assert body[..done + n] == body[..done] + body[done..done + n];
    assert w[..done + n] == content[..done] + body[done..done + n];
    if content == body { assert w == body; }
  }

  /** What one step of a copy makes of its file. */
  lemma CopyHolds(d: Disk, s: Step)
    requires Inv(d) && (s.Write? || s.Trim? || s.Sync?) && Enabled(d, s)
    ensures s.op in Next(d, s).ops && Next(d, s).ops[s.op].Fetching? && FetchHolds(Next(d, s), Next(d, s).ops[s.op])
    ensures SafeAt(Next(d, s), d.ops[s.op].path)
  {
    var o := d.ops[s.op];
    FetchApart(d, s.op);
    var i := d.inodes[o.inode.value];
    if s.Write? { OverwrittenHolds(i.content, o.body, o.done, s.n); }
    if s.Trim? { assert i.content[..o.done] == o.body; }
    assert SafeAt(d, o.path);
  }

  lemma CopyInv(d: Disk, s: Step)
    requires Inv(d) && (s.Write? || s.Trim? || s.Sync?) && Enabled(d, s)
    ensures Inv(Next(d, s))
  {
    var e, o := Next(d, s), d.ops[s.op];
    FetchApart(d, s.op);
    CopyHolds(d, s);
    forall p: Path | Real(p) in e.names ensures SafeAt(e, p) { if p != o.path { assert SafeAt(d, p); } }
    forall op | op in e.ops ensures OpHolds(e, e.ops[op]) { if op != s.op { assert OpHolds(d, d.ops[op]); } }
  }

  lemma UnmarkInv(d: Disk, s: Step)
    requires Inv(d) && s.Unmark? && Enabled(d, s)
    ensures Inv(Next(d, s))
  {
    var e := Next(d, s);
    FetchApart(d, s.op);
    forall p: Path | Real(p) in e.names ensures SafeAt(e, p) { assert SafeAt(d, p); }
    forall op | op in e.ops ensures OpHolds(e, e.ops[op]) { assert OpHolds(d, d.ops[op]); }
  }

  lemma FailInv(d: Disk, s: Step)
    requires Inv(d) && s.Fail? && Enabled(d, s)
    ensures Inv(Next(d, s))
  {
    var e := Next(d, s);
    forall p: Path | Real(p) in e.names ensures SafeAt(e, p) { assert SafeAt(d, p); }
    forall op | op in e.ops ensures OpHolds(e, e.ops[op]) {
      assert OpHolds(d, d.ops[op]) && OpsApart(d.ops[op], d.ops[s.op]);
    }
  }

  lemma StopInv(d: Disk, s: Step)
    requires Inv(d) && s.Stop? && Enabled(d, s)
    ensures Inv(Next(d, s))
  {
    var e := Next(d, s);
    forall p: Path | Real(p) in e.names ensures SafeAt(e, p) { assert SafeAt(d, p); }
  }

  lemma StepInv(d: Disk, s: Step)
    requires Inv(d) && Enabled(d, s) && Careful(d, s)
    ensures Inv(Next(d, s))
  {
    match s
    case CreateTemp(_, _, _, _, _) => CreateTempInv(d, s);
    case Truncate(_) => BuildInv(d, s);
    case SetMark(_) => BuildInv(d, s);
    case Publish(_) => PublishInv(d, s);
    case Get(_, _, _) => GetInv(d, s);
    case Open(_) => OpenInv(d, s);
    case Write(_, _) => CopyInv(d, s);
    case Trim(_) => CopyInv(d, s);
    case Sync(_) => CopyInv(d, s);
    case Unmark(_) => UnmarkInv(d, s);
    case Fail(_) => FailInv(d, s);
    case Stop(_) => StopInv(d, s);
  }

  /** A tree in which nothing is under way and every visible file is a placeholder or whole. */
  ghost predicate Initial(d: Disk) { Safe(d) && NamesApart(d) && d.ops == map[] }

  /** Stop anywhere in any run: no visible unmarked file is short of its content. */
  lemma {:induction false} NeverShortUnmarked(ds: seq<Disk>, ss: seq<Step>, k: nat)
    requires Run(ds, ss) && Initial(ds[0]) && k < |ds|
    ensures Inv(ds[k]) && Safe(ds[k])
    decreases k
  {
    if k > 0 {
      NeverShortUnmarked(ds, ss, k - 1);
      StepInv(ds[k - 1], ss[k - 1]);
    }
  }

  /** And the machine going down right there, losing whatever was not on disk, leaves it so. */
  lemma SafeAfterStop(ds: seq<Disk>, ss: seq<Step>, k: nat, left: map<nat, Bytes>)
    requires Run(ds, ss) && Initial(ds[0]) && k < |ds| && left.Keys == ds[k].inodes.Keys
    ensures Initial(Next(ds[k], Stop(left)))
  {
    NeverShortUnmarked(ds, ss, k);
    StopInv(ds[k], Stop(left));
  }

  // ------------------------------------------------------------ names and markers late on disk

  /**
   Going down with names and markers as they were at an earlier moment: they reach
   the disk in the order they were made, contents only when flushed.
   */
  function Recovered(early: Disk, late: Disk, left: map<nat, Bytes>): Disk
    requires left.Keys == late.inodes.Keys
  {
    Disk(early.names,
         map i | i in late.inodes ::
           AfterStop(late.inodes[i], left[i]).(marked := i in early.inodes && early.inodes[i].marked),
         map[], late.full)
  }

  /** The file i, whole and unmarked under p once, is nobody else's and still holds the same. */
  ghost predicate StaysWhole(d: Disk, i: nat, p: Path, c: Bytes) {
    && i in d.inodes && d.inodes[i] == Inode(c, c, false) && (p, c) in d.full
    && (forall n :: n in d.names && d.names[n] == i ==> n == Real(p))
  }

  lemma WholeStep(d: Disk, s: Step, i: nat, p: Path, c: Bytes)
    requires Inv(d) && Enabled(d, s) && Careful(d, s) && StaysWhole(d, i, p, c)
    ensures StaysWhole(Next(d, s), i, p, c)
  {
    if s.Truncate? || s.SetMark? || s.Publish? {
      BuiltApart(d, s.op);
    } else if s.Write? || s.Trim? {
      FetchApart(d, s.op);
      var o := d.ops[s.op];
      var f := d.inodes[o.inode.value];
      if s.Write? { OverwrittenHolds(f.content, o.body, o.done, s.n); }
      if s.Trim? { assert f.content[..o.done] == o.body; }
    }
  }

  lemma {:induction false} WholeEver(ds: seq<Disk>, ss: seq<Step>, j: nat, k: nat, i: nat, p: Path, c: Bytes)
    requires Run(ds, ss) && Initial(ds[0]) && j <= k < |ds| && StaysWhole(ds[j], i, p, c)
    ensures StaysWhole(ds[k], i, p, c)
    decreases k
  {
    if j < k {
      WholeEver(ds, ss, j, k - 1, i, p, c);
      NeverShortUnmarked(ds, ss, k - 1);
      WholeStep(ds[k - 1], ss[k - 1], i, p, c);
    }
  }

  lemma {:induction false} InodesStay(ds: seq<Disk>, ss: seq<Step>, j: nat, k: nat)
    requires Run(ds, ss) && j <= k < |ds|
    ensures ds[j].inodes.Keys <= ds[k].inodes.Keys
    decreases k
  {
    if j < k {
      InodesStay(ds, ss, j, k - 1);
      assert ds[k] == Next(ds[k - 1], ss[k - 1]);
    }
  }

  /** Every moment's names and markers are safe to come back to with any later moment's contents. */
  lemma SafeAfterLateStop(ds: seq<Disk>, ss: seq<Step>, j: nat, k: nat, left: map<nat, Bytes>)
    requires Run(ds, ss) && Initial(ds[0]) && j <= k < |ds| && left.Keys == ds[k].inodes.Keys
    ensures Initial(Recovered(ds[j], ds[k], left))
  {
    var early, r := ds[j], Recovered(ds[j], ds[k], left);
    NeverShortUnmarked(ds, ss, j);
    InodesStay(ds, ss, j, k);
    forall p: Path | Real(p) in r.names ensures SafeAt(r, p) {
      assert SafeAt(early, p);
      var i := early.names[Real(p)];
      if !early.inodes[i].marked { WholeEver(ds, ss, j, k, i, p, early.inodes[i].content); }
    }
  }

  // ------------------------------------------------------------ why the callers must be careful

  function Sum(ns: seq<nat>): nat { if ns == [] then 0 else ns[0] + Sum(ns[1..]) }

  /** A fetch's file, open at its own path. */
  predicate OpenAt(d: Disk, op: nat) {
    && FetchAt(d, op, Copying) && d.ops[op].done <= |d.inodes[d.ops[op].inode.value].content|
    && Real(d.ops[op].path) in d.names && d.names[Real(d.ops[op].path)] == d.ops[op].inode.value
  }

  /** The body copied on in chunks of the given sizes. */
  function Written(d: Disk, op: nat, ns: seq<nat>): Disk
    requires OpenAt(d, op)
    requires d.ops[op].done + Sum(ns) <= |d.ops[op].body|
    decreases |ns|
  {
    if ns == [] then d else Written(Next(d, Write(op, ns[0])), op, ns[1..])
  }

  /** And safe before, between and after the writes. */
  ghost predicate SafeThroughout(d: Disk, op: nat, ns: seq<nat>)
    requires OpenAt(d, op)
    requires d.ops[op].done + Sum(ns) <= |d.ops[op].body|
    decreases |ns|
  {
    Safe(d) && (ns != [] ==> SafeThroughout(Next(d, Write(op, ns[0])), op, ns[1..]))
  }

  /** With every other visible file safe, all is safe exactly when the fetch's own unmarked file is whole. */
  lemma SafeByOwn(d: Disk, e: Disk, p: Path)
    requires Safe(d) && NamesApart(d) && e.names == d.names && e.full == d.full && Real(p) in d.names
    requires e.inodes.Keys == d.inodes.Keys && !e.inodes[d.names[Real(p)]].marked
    requires forall i :: i in d.inodes && i != d.names[Real(p)] ==> e.inodes[i] == d.inodes[i]
    ensures Safe(e) <==> Resident(e, p, e.inodes[d.names[Real(p)]])
  {
    forall q: Path | Real(q) in d.names && q != p ensures SafeAt(e, q) { assert SafeAt(d, q); }
    if Safe(e) { assert SafeAt(e, p); }
  }

  lemma {:induction false} SameThroughout(d: Disk, op: nat, ns: seq<nat>)
    requires Safe(d) && NamesApart(d) && OpenAt(d, op)
    requires d.ops[op].done + Sum(ns) <= |d.ops[op].body|
    requires var i := d.inodes[d.ops[op].inode.value]; !i.marked && i.content == d.ops[op].body
    ensures SafeThroughout(d, op, ns)
    ensures Written(d, op, ns) == d.(ops := d.ops[op := d.ops[op].(done := d.ops[op].done + Sum(ns))])
    decreases |ns|
  {
    if ns != [] {
      var o := d.ops[op];
      var i := d.inodes[o.inode.value];
      var e := Next(d, Write(op, ns[0]));
      OverwrittenSame(i.content, o.done, ns[0]);
      assert e.inodes == d.inodes;
      SafeByOwn(d, e, o.path);
      assert SafeAt(d, o.path);
      SameThroughout(e, op, ns[1..]);
    }
  }

  lemma OverwrittenSame(body: Bytes, done: nat, n: nat)
    requires done + n <= |body|
    ensures Overwritten(body, body, done, n) == body
  {
  }

  /** However it is chunked, the copy ends with the body's first bytes in place and the rest as it was. */
  lemma {:induction false} WrittenHolds(d: Disk, op: nat, ns: seq<nat>)
    requires OpenAt(d, op)
    requires d.ops[op].done + Sum(ns) <= |d.ops[op].body|
    requires d.inodes[d.ops[op].inode.value].content[..d.ops[op].done] == d.ops[op].body[..d.ops[op].done]
    ensures var e, o := Written(d, op, ns), d.ops[op];
      && e.names == d.names && e.full == d.full && e.ops == d.ops[op := o.(done := o.done + Sum(ns))]
      && OpenAt(e, op) && e.inodes.Keys == d.inodes.Keys
      && (forall i :: i in d.inodes && i != o.inode.value ==> e.inodes[i] == d.inodes[i])
      && e.inodes[o.inode.value].content[..o.done + Sum(ns)] == o.body[..o.done + Sum(ns)]
      && e.inodes[o.inode.value].disk == d.inodes[o.inode.value].disk
      && e.inodes[o.inode.value].marked == d.inodes[o.inode.value].marked
    decreases |ns|
  {
    if ns != [] {
      var o := d.ops[op];
      OverwrittenHolds(d.inodes[o.inode.value].content, o.body, o.done, ns[0]);
      WrittenHolds(Next(d, Write(op, ns[0])), op, ns[1..]);
    }
  }

  /**
   A fetch writing over a file already resident and unmarked, the body arriving
   in chunks of any sizes, is safe before, between and after its writes and once
   trimmed exactly when it brings the very bytes the file holds.
   */
  lemma RefetchSafeIff(d: Disk, op: nat, ns: seq<nat>)
    requires OpenAt(d, op)
    requires d.ops[op].done == 0 && Sum(ns) == |d.ops[op].body|
    requires NamesApart(d) && Safe(d) && !d.inodes[d.ops[op].inode.value].marked
    ensures var e := Written(d, op, ns);
      && Enabled(e, Trim(op))
      && ((SafeThroughout(d, op, ns) && Safe(Next(e, Trim(op)))) <==> d.inodes[d.ops[op].inode.value].content == d.ops[op].body)
  {
    var o := d.ops[op];
    WrittenHolds(d, op, ns);
    var e := Written(d, op, ns);
    var t := Next(e, Trim(op));
    assert SafeAt(d, o.path);
    assert t.inodes[o.inode.value].content == o.body;
    SafeByOwn(d, t, o.path);
    if d.inodes[o.inode.value].content == o.body { SameThroughout(d, op, ns); }
  }

  /**
   The marker removed by path, for a fetch whose own file is whole and on disk:
   safe exactly when the path still leads to that file, or to one that is resident.
   */
  lemma UnmarkSafeIff(d: Disk, op: nat)
    requires Enabled(d, Unmark(op)) && Safe(d) && NamesApart(d)
    requires var o := d.ops[op]; Resident(d, o.path, d.inodes[o.inode.value])
    ensures Safe(Next(d, Unmark(op))) <==>
      || d.names[Real(d.ops[op].path)] == d.ops[op].inode.value
      || Resident(d, d.ops[op].path, d.inodes[d.names[Real(d.ops[op].path)]])
  {
    SafeByOwn(d, Next(d, Unmark(op)), d.ops[op].path);
  }

  /** With a placeholder published at the path in between: only an empty one, of an object that is empty, is safe to unmark. */
  lemma UnmarkAfterPublishIff(d: Disk, op: nat, c: nat)
    requires FetchAt(d, op, Flushed) && At(d, c, Attached) && d.ops[c].path == d.ops[op].path && Safe(d) && NamesApart(d)
    requires var o := d.ops[op]; Resident(d, o.path, d.inodes[o.inode.value]) && o.inode.value != d.ops[c].file
    requires CreateHolds(d, d.ops[c]) && d.inodes[d.ops[c].file] == Inode(Zeros(d.ops[c].size), [], true)
    ensures var a := Next(d, Publish(c));
      && Safe(a) && Enabled(a, Unmark(op))
      && (Safe(Next(a, Unmark(op))) <==> d.ops[c].size == 0 && (d.ops[op].path, []) in d.full)
  {
    var a := Next(d, Publish(c));
    forall p: Path | Real(p) in a.names ensures SafeAt(a, p) { if p != d.ops[c].path { assert SafeAt(d, p); } }
    UnmarkSafeIff(a, op);
  }

  function WholeFile(): Disk { Disk(map[Real("p") := 1], map[1 := Inode([1, 2], [1, 2], false)], map[], {("p", [1, 2])}) }

  /** A fetch that read the marker before another fetch removed it, finding the object changed. */
  lemma StaleMarkerTears()
    ensures var a := Next(WholeFile(), Get(0, "p", [3, 4]));
            var b := Next(a, Open(0));
      Initial(WholeFile()) && !Careful(a, Open(0)) && !Safe(Next(b, Write(0, 1)))
  {
    var d := WholeFile();
    forall p: Path | Real(p) in d.names ensures SafeAt(d, p) { }
    var a := Next(d, Get(0, "p", [3, 4]));
    var b := Next(a, Open(0));
    var c := Next(b, Write(0, 1));
    assert c.inodes[1].content == [3] + [2];
    assert c.inodes[1].content[0] == 3 && c.inodes[1].disk[0] == 1;
    assert !SafeAt(c, "p");
  }

  /** A placeholder put in place while a fetch of the same path is finishing: the fetch unmarks the wrong file. */
  function MidFetch(): Disk {
    Disk(map[Real("p") := 1, Temp(0) := 2],
         map[1 := Inode([1], [1], true), 2 := Inode([0, 0], [], true)],
         map[0 := Fetching("p", [1], Some(1), 1, Flushed), 1 := Creating("p", 0, 2, 2, Attached)],
         {("p", [1])})
  }

  lemma OverlapUnmarksTheWrongFile()
    ensures var a := Next(MidFetch(), Publish(1));
      Safe(MidFetch()) && !OpApart(MidFetch()) && !Safe(Next(a, Unmark(0)))
  {
    var d := MidFetch();
    forall p: Path | Real(p) in d.names ensures SafeAt(d, p) { }
    assert !OpsApart(d.ops[0], d.ops[1]);
    assert Zeros(2) == [0, 0];
    UnmarkAfterPublishIff(d, 0, 1);
  }

  // ------------------------------------------------------------ the two operations

  /** The backing store, with every state it has been in. */
  class Backing {
    var disk: Disk
    ghost var states: seq<Disk>
    ghost var steps: seq<Step>

    ghost predicate Valid()
      reads this
    {
      Run(states, steps) && Initial(states[0]) && states[|steps|] == disk
    }

    constructor (d: Disk)
      requires Initial(d)
      ensures Valid() && disk == d
    {
      disk, states, steps := d, [d], [];
    }

    /** One system call. */
    method Do(s: Step)
      requires Valid() && Enabled(disk, s) && Careful(disk, s)
      modifies this
      ensures Valid() && disk == Next(old(disk), s)
      ensures steps == old(steps) + [s]
    {
      states, steps := states + [Next(disk, s)], steps + [s];
      disk := Next(disk, s);
    }

    /** Every state so far, and so every place the program could have stopped, was safe. */
    lemma AlwaysSafe(k: nat)
      requires Valid() && k < |states|
      ensures Safe(states[k])
    {
      NeverShortUnmarked(states, steps, k);
    }

    /** The temporary file as CreatePlaceholder's first calls leave it, those that succeed. */
    method BuildTemp(op: nat, path: Path, tmp: nat, inode: nat, size: nat, calls: nat)
      requires Valid() && Enabled(disk, CreateTemp(op, path, tmp, inode, size)) && 0 < calls
      requires forall o :: o in disk.ops ==> disk.ops[o].path != path
      modifies this
      ensures Valid() && disk.names == old(disk.names)[Temp(tmp) := inode] && disk.full == old(disk.full)
      ensures op in disk.ops && disk.ops == old(disk.ops)[op := disk.ops[op]] && inode in disk.inodes
      ensures disk.inodes == old(disk.inodes)[inode := disk.inodes[inode]]
      ensures disk.ops[op] == Creating(path, tmp, inode, size, if calls == 1 then Empty else if calls == 2 then Sized else Attached)
      ensures calls > 2 ==> disk.inodes[inode] == Inode(Zeros(size), [], true)
    {
      Do(CreateTemp(op, path, tmp, inode, size));
      if calls > 1 { Do(Truncate(op)); }
      if calls > 2 { Do(SetMark(op)); }
    }

    /**
     Marked before it can be seen: in one rename the path shows a marked file of
     the right size. With any of the four calls refused, the path and every file
     that was there are as they were, and the temporary name is gone.
     */
    method CreatePlaceholder(op: nat, path: Path, tmp: nat, inode: nat, size: nat, calls: nat) returns (ok: bool)
      requires Valid() && Enabled(disk, CreateTemp(op, path, tmp, inode, size))
      requires forall o :: o in disk.ops ==> disk.ops[o].path != path
      modifies this
      ensures Valid() && ok == (calls >= 4)
      ensures ok ==> disk == old(disk).(names := old(disk.names)[Real(path) := inode],
                                        inodes := old(disk.inodes)[inode := Inode(Zeros(size), [], true)])
      ensures !ok ==> disk == old(disk).(inodes := disk.inodes) &&
                      forall i :: i in old(disk.inodes) ==> i in disk.inodes && disk.inodes[i] == old(disk.inodes)[i]
    {
      if calls == 0 { return false; }
      BuildTemp(op, path, tmp, inode, size, calls);
      ok := calls >= 4;
      if ok { Do(Publish(op)); } else { Do(Fail(op)); }
      assert disk.ops == old(disk.ops);
      if ok { assert disk.names == old(disk.names)[Real(path) := inode]; } else { assert disk.names == old(disk.names); }
    }

    /** io.Copy: the first `good` bytes of the body written in place, a chunk at a time. */
    method Copy(op: nat, chunk: nat, good: nat)
      requires Valid() && FetchAt(disk, op, Copying) && chunk > 0 && disk.ops[op].done == 0 && good <= |disk.ops[op].body|
      modifies this
      ensures Valid() && disk.ops.Keys == old(disk.ops.Keys) && disk.ops[op] == old(disk.ops[op]).(done := good)
      ensures disk.names == old(disk.names) && disk.full == old(disk.full)
      ensures Copied(old(disk), disk, op, good)
      ensures forall o :: o in disk.ops && o != op ==> disk.ops[o] == old(disk.ops[o])
    {
      var done := 0;
      while done < good
        invariant Valid() && done <= good && disk.ops == old(disk.ops)[op := old(disk.ops[op]).(done := done)]
        invariant disk.names == old(disk.names) && disk.full == old(disk.full)
        invariant Copied(old(disk), disk, op, done)
      {
        var n := if done + chunk < good then chunk else good - done;
        OverwrittenHolds(disk.inodes[disk.ops[op].inode.value].content, disk.ops[op].body, done, n);
        Do(Write(op, n));
        done := done + n;
      }
    }

    /** The body came whole: trimmed to it, flushed, and only then unmarked, as far as the calls succeed. */
    method Finish(op: nat, fault: Fault) returns (ok: bool)
      requires Valid() && FetchAt(disk, op, Copying) && disk.ops[op].done == |disk.ops[op].body|
      requires Real(disk.ops[op].path) in disk.names && disk.names[Real(disk.ops[op].path)] == disk.ops[op].inode.value
      requires disk.ops[op].done <= |disk.inodes[disk.ops[op].inode.value].content|
      requires disk.inodes[disk.ops[op].inode.value].content[..disk.ops[op].done] == disk.ops[op].body
      modifies this
      ensures Valid() && ok == !(fault.NoTrim? || fault.NoSync? || fault.NoUnmark?)
      ensures disk.ops == old(disk.ops) - {op} && disk.names == old(disk.names) && disk.full == old(disk.full)
      ensures ok ==> var o := old(disk.ops[op]);
        disk.inodes == old(disk.inodes)[o.inode.value := Inode(o.body, o.body, false)]
      ensures !ok ==> ContentOnly(old(disk), disk, old(disk.ops[op].inode.value))
    {
      ok := false;
      if !fault.NoTrim? {
        Do(Trim(op));
        if !fault.NoSync? {
          Do(Sync(op));
          ok := !fault.NoUnmark?;
        }
      }
      if ok { Do(Unmark(op)); } else { Do(Fail(op)); }
      assert disk.ops == old(disk.ops) - {op};
    }

    /** The object fetched and opened, and its first `good` bytes written. */
    method Begin(op: nat, path: Path, body: Bytes, chunk: nat, good: nat)
      requires Valid() && op !in disk.ops && Fetchable(disk, path, body) && chunk > 0 && good <= |body|
      modifies this
      ensures Valid() && disk.names == old(disk.names) && disk.full == old(disk.full) + {(path, body)}
      ensures disk.ops == old(disk.ops)[op := Fetching(path, body, Some(disk.names[Real(path)]), good, Copying)]
      ensures disk.names[Real(path)] in disk.inodes && FetchAt(disk, op, Copying)
      ensures ContentOnly(old(disk), disk, disk.names[Real(path)])
      ensures var f := disk.inodes[disk.names[Real(path)]]; good <= |f.content| && f.content[..good] == body[..good]
    {
      Do(Get(op, path, body));
      Do(Open(op));
      Copy(op, chunk, good);
    }

    /**
     fetchWhole, by the call that fails first. None does: the file holds the body,
     on disk, unmarked. One does: its marker is as it was, and no other file and no name has changed.
     */
    method FetchWhole(op: nat, path: Path, body: Bytes, chunk: nat, fault: Fault) returns (ok: bool)
      requires Valid() && op !in disk.ops && Fetchable(disk, path, body) && chunk > 0
      requires fault.Cut? ==> fault.good < |body|
      modifies this
      ensures Valid() && ok == fault.Nothing?
      ensures disk.ops == old(disk.ops) && disk.names == old(disk.names) && disk.names[Real(path)] in disk.inodes
      ensures ok ==> disk.inodes == old(disk.inodes)[disk.names[Real(path)] := Inode(body, body, false)]
      ensures !ok ==> ContentOnly(old(disk), disk, disk.names[Real(path)])
    {
      if fault.NoGet? { return false; }
      if fault.NoOpen? {
        Do(Get(op, path, body));
        Do(Fail(op));
        assert disk.ops == old(disk.ops);
        return false;
      }
      Begin(op, path, body, chunk, if fault.Cut? then fault.good else |body|);
      if fault.Cut? {
        Do(Fail(op));
        ok := false;
      } else {
        assert body[..|body|] == body;
        ok := Finish(op, fault);
      }
      assert disk.ops == old(disk.ops);
    }
  }

  /** The call of fetchWhole that fails first; Cut: the body breaks off after `good` bytes. */
  datatype Fault = NoGet | NoOpen | Cut(good: nat) | NoTrim | NoSync | NoUnmark | Nothing

  /** No operation is under way on the path, and its file is a placeholder or already holds the body. */
  predicate Fetchable(d: Disk, path: Path, body: Bytes) {
    && Real(path) in d.names && d.names[Real(path)] in d.inodes
    && (forall o :: o in d.ops ==> d.ops[o].path != path)
    && (d.inodes[d.names[Real(path)]].marked || d.inodes[d.names[Real(path)]].content == body)
  }

  /** Of all files only i may differ, and not in its marker. */
  ghost predicate ContentOnly(before: Disk, after: Disk, i: nat) {
    && after.inodes.Keys == before.inodes.Keys
    && (forall k :: k in before.inodes && k != i ==> after.inodes[k] == before.inodes[k])
    && (i in before.inodes ==> after.inodes[i].marked == before.inodes[i].marked)
  }

  /** Only the fetch's file changed; its marker and what is on disk did not, and its first n bytes are the body's. */
  ghost predicate Copied(before: Disk, after: Disk, op: nat, n: nat) {
    && FetchAt(before, op, Copying) && after.inodes.Keys == before.inodes.Keys
    && var o := before.ops[op];
    && (forall i :: i in before.inodes && i != o.inode.value ==> after.inodes[i] == before.inodes[i])
    && var f := after.inodes[o.inode.value];
    && n <= |f.content| && n <= |o.body| && f.content[..n] == o.body[..n]
    && f == before.inodes[o.inode.value].(content := f.content)
  }
}
