/**
 The sparse copy of a download: all-zero blocks are left unwritten, and nobody who
 reads the file can tell.
 */
module Sparse {
  import opened Arithmetic
  import opened Ranges

  type Bytes = seq<bv8>

  const SPARSE_BLOCK := 4096
  const BUFFER := 32 * SPARSE_BLOCK

  function Zeros(n: nat): (z: Bytes)
    ensures |z| == n && forall k :: 0 <= k < n ==> z[k] == 0
  {
    seq(n, _ => 0)
  }

  /** What a file holds once it is n long: what was never written reads as zeros. */
  function Padded(c: Bytes, n: nat): Bytes
    requires |c| <= n
  {
    c + Zeros(n - |c|)
  }

  /** b written at off. */
  function Overlay(c: Bytes, b: Bytes, off: nat): Bytes {
    (if |c| <= off then Padded(c, off) else c[..off]) + b + (if off + |b| <= |c| then c[off + |b|..] else [])
  }

  // ------------------------------------------------------------ which blocks

  /** Where block k of a buffer starts, or the buffer's end. */
  function Cut(b: Bytes, k: nat): (n: nat)
    ensures n <= |b|
  {
    if k * SPARSE_BLOCK < |b| then k * SPARSE_BLOCK else |b|
  }

  /** The bytes of blocks [k, e), the last one possibly short. */
  function Between(b: Bytes, k: nat, e: nat): (s: Bytes)
    requires k <= e
  {
    b[Cut(b, k)..Cut(b, e)]
  }

  function Blocks(b: Bytes): nat { (|b| + SPARSE_BLOCK - 1) / SPARSE_BLOCK }

  predicate IsHole(b: Bytes, k: int)
    requires 0 <= k < Blocks(b)
  {
    Between(b, k, k + 1) == Zeros(Cut(b, k + 1) - Cut(b, k))
  }

  /** The buffer's non-zero blocks, as marks. */
  ghost function Solid(b: Bytes): (g: Grid)
    ensures g.bs == SPARSE_BLOCK && g.size == |b| && NumBlocks(g.size, g.bs) == Blocks(b) && Wf(g)
    ensures forall k :: k in g.marks <==> 0 <= k < Blocks(b) && !IsHole(b, k)
  {
    Grid(SPARSE_BLOCK, |b|, set k | 0 <= k < Blocks(b) && !IsHole(b, k))
  }

  /** Where a stretch of non-zero blocks from block k on stops. */
  function SolidEnd(b: Bytes, k: nat): (e: nat)
    requires k <= Blocks(b)
    ensures k <= e <= Blocks(b) && (k < Blocks(b) && !IsHole(b, k) ==> k < e)
    decreases Blocks(b) - k
  {
    if k < Blocks(b) && !IsHole(b, k) then SolidEnd(b, k + 1) else k
  }

  /** From block k on: one write for each stretch of non-zero blocks, and no other. */
  function WantedFrom(b: Bytes, off: nat, k: nat): seq<(nat, Bytes)>
    requires k <= Blocks(b)
    decreases Blocks(b) - k
  {
    if k == Blocks(b) then []
    else if IsHole(b, k) then WantedFrom(b, off, k + 1)
    else
      var e := SolidEnd(b, k);
      [(off + Cut(b, k), Between(b, k, e))] + WantedFrom(b, off, e)
  }

  // ------------------------------------------------------------ the file and the stream

  class File {
    var content: Bytes
    ghost var writes: seq<(nat, Bytes)>
    const room: nat

    constructor (room: nat)
      ensures content == [] && writes == [] && this.room == room
    {
      content, writes, this.room := [], [], room;
    }

    method WriteAt(b: Bytes, off: nat) returns (ok: bool)
      modifies this
      ensures ok <==> off + |b| <= room
      ensures content == if ok then Overlay(old(content), b, off) else old(content)
      ensures writes == if ok then old(writes) + [(off, b)] else old(writes)
    {
      ok := off + |b| <= room;
      if ok {
        content := Overlay(content, b, off);
        writes := writes + [(off, b)];
      }
    }

    method Truncate(n: nat)
      modifies this
      ensures content == (if |old(content)| <= n then Padded(old(content), n) else old(content)[..n]) && writes == old(writes)
    {
      content := if |content| <= n then Padded(content, n) else content[..n];
    }
  }

  datatype End = Full | Eof | UnexpectedEof | Broken

  /** What a reader still has to give, and whether it ends in an error. */
  class Stream {
    var rest: Bytes
    const broken: bool

    constructor (data: Bytes, broken: bool)
      ensures rest == data && this.broken == broken
    {
      rest, this.broken := data, broken;
    }

    /** io.ReadFull. */
    method ReadFull(buf: array<bv8>) returns (n: nat, end: End)
      requires buf.Length > 0
      modifies this, buf
      ensures n == (if |old(rest)| < buf.Length then |old(rest)| else buf.Length)
      ensures buf[..n] == old(rest)[..n] && rest == old(rest)[n..]
      ensures end == if n == buf.Length then Full else if broken then Broken else if n == 0 then Eof else UnexpectedEof
    {
      n := if |rest| < buf.Length then |rest| else buf.Length;
      for i := 0 to n
        invariant rest == old(rest) && buf[..i] == old(rest)[..i]
      {
        buf[i] := rest[i];
      }
      rest := rest[n..];
      end := if n == buf.Length then Full else if broken then Broken else if n == 0 then Eof else UnexpectedEof;
    }
  }

  // ------------------------------------------------------------ writeNonZero

  /** Up to byte i the buffer can be read back, written or not. */
  ghost predicate Shows(content: Bytes, was: Bytes, b: Bytes, off: nat, i: nat) {
    && |was| <= off && i <= |b| && |content| <= off + i
    && Padded(content, off + i) == Padded(was, off) + b[..i]
  }

  lemma SkipShows(content: Bytes, was: Bytes, b: Bytes, off: nat, i: nat, j: nat)
    requires Shows(content, was, b, off, i) && i <= j <= |b| && b[i..j] == Zeros(j - i)
    ensures Shows(content, was, b, off, j)
  {
    assert b[..j] == b[..i] + b[i..j];
    assert Padded(content, off + j) == Padded(content, off + i) + Zeros(j - i);
  }

  lemma WriteShows(content: Bytes, content': Bytes, was: Bytes, b: Bytes, off: nat, k: nat, e: nat)
    requires k <= e && Shows(content, was, b, off, Cut(b, k))
    requires content' == Overlay(content, Between(b, k, e), off + Cut(b, k))
    ensures Shows(content', was, b, off, Cut(b, e))
  {
    var i, j := Cut(b, k), Cut(b, e);
    assert b[..j] == b[..i] + b[i..j];
    assert content' == Padded(content, off + i) + b[i..j];
    assert Padded(content', off + j) == content';
  }

  method FindEnd(b: Bytes, k: nat) returns (e: nat)
    requires k < Blocks(b) && !IsHole(b, k)
    ensures k < e <= Blocks(b) && e == SolidEnd(b, k)
  {
    e := k + 1;
    while e < Blocks(b) && !IsHole(b, e)
      invariant k < e <= Blocks(b) && SolidEnd(b, e) == SolidEnd(b, k)
    {
      e := e + 1;
    }
  }

  /** One write, of the stretch that starts at block k; `all` is what the buffer's writes will come to. */
  method WriteRun(f: File, b: Bytes, off: nat, k: nat, ghost was: Bytes, ghost all: seq<(nat, Bytes)>)
    returns (ok: bool, e: nat)
    requires k < Blocks(b) && !IsHole(b, k)
    requires Shows(f.content, was, b, off, Cut(b, k)) && f.writes + WantedFrom(b, off, k) == all
    modifies f
    ensures k < e <= Blocks(b)
    ensures ok ==> Shows(f.content, was, b, off, Cut(b, e)) && f.writes + WantedFrom(b, off, e) == all
    ensures !ok ==> f.room < off + |b|
  {
    e := FindEnd(b, k);
    ghost var content, writes := f.content, f.writes;
    ok := f.WriteAt(Between(b, k, e), off + Cut(b, k));
    if ok {
      WriteShows(content, f.content, was, b, off, k, e);
      MoveOver(writes, (off + Cut(b, k), Between(b, k, e)), WantedFrom(b, off, e));
    }
  }

  lemma MoveOver<T>(a: seq<T>, x: T, b: seq<T>)
    ensures a + ([x] + b) == a + [x] + b
  {
  }

  method WriteNonZero(f: File, b: Bytes, off: nat) returns (ok: bool)
    requires |f.content| <= off
    modifies f
    ensures ok ==> Shows(f.content, old(f.content), b, off, |b|)
    ensures ok ==> f.writes == old(f.writes) + WantedFrom(b, off, 0)
    ensures !ok ==> f.room < off + |b|
  {
    var k := 0;
    ghost var was, all := f.content, f.writes + WantedFrom(b, off, 0);
    assert Shows(was, was, b, off, 0) by { assert Padded(was, off + 0) == Padded(was, off) + b[..0]; }
    while k < Blocks(b)
      invariant k <= Blocks(b) && Shows(f.content, was, b, off, Cut(b, k))
      invariant f.writes + WantedFrom(b, off, k) == all
    {
      if IsHole(b, k) {
        SkipShows(f.content, was, b, off, Cut(b, k), Cut(b, k + 1));
        k := k + 1;
      } else {
        ok, k := WriteRun(f, b, off, k, was, all);
        if !ok { return; }
      }
    }
    ok := true;
    assert f.writes + [] == f.writes;
  }

  /** The writes are those of the ranges, one for one. */
  ghost predicate WritesOf(b: Bytes, off: nat, ws: seq<(nat, Bytes)>, rs: seq<Range>) {
    && |ws| == |rs|
    && forall i :: 0 <= i < |ws| ==> IsWriteOf(b, off, ws[i], rs[i])
  }

  ghost predicate IsWriteOf(b: Bytes, off: nat, w: (nat, Bytes), r: Range) {
    0 <= r.off <= r.off + r.len <= |b| && w == (off + r.off, b[r.off..r.off + r.len])
  }

  lemma WritesOfCons(b: Bytes, off: nat, w: (nat, Bytes), r: Range, ws: seq<(nat, Bytes)>, rs: seq<Range>)
    requires IsWriteOf(b, off, w, r) && WritesOf(b, off, ws, rs)
    ensures WritesOf(b, off, [w] + ws, [r] + rs)
  {
  }

  lemma {:induction false} WantedAreRuns(b: Bytes, off: nat, k: nat)
    requires k <= Blocks(b)
    ensures WritesOf(b, off, WantedFrom(b, off, k), Runs(Solid(b), k, Blocks(b), true))
    decreases Blocks(b) - k
  {
    if k < Blocks(b) {
      if IsHole(b, k) {
        WantedAreRuns(b, off, k + 1);
      } else {
        var e, g := SolidEnd(b, k), Solid(b);
        WantedAreRuns(b, off, e);
        StretchIsRun(b, off, k, e);
        WritesOfCons(b, off, (off + Cut(b, k), Between(b, k, e)), RunRange(g, k, e),
                     WantedFrom(b, off, e), Runs(g, e, Blocks(b), true));
      }
    }
  }

  lemma StretchIsRun(b: Bytes, off: nat, k: nat, e: nat)
    requires k < Blocks(b) && !IsHole(b, k) && e == SolidEnd(b, k)
    ensures Runs(Solid(b), k, Blocks(b), true) == [RunRange(Solid(b), k, e)] + Runs(Solid(b), e, Blocks(b), true)
    ensures IsWriteOf(b, off, (off + Cut(b, k), Between(b, k, e)), RunRange(Solid(b), k, e))
  {
    SolidEndIsRunEnd(b, k);
    CutRange(b, k, e);
  }

  lemma {:induction false} SolidEndIsRunEnd(b: Bytes, k: nat)
    requires k <= Blocks(b)
    ensures SolidEnd(b, k) == RunEnd(Solid(b).marks, k, Blocks(b), true)
    decreases Blocks(b) - k
  {
    if k < Blocks(b) && !IsHole(b, k) { SolidEndIsRunEnd(b, k + 1); }
  }

  lemma CutRange(b: Bytes, k: nat, e: nat)
    requires k < e <= Blocks(b)
    ensures RunRange(Solid(b), k, e) == Range(Cut(b, k), Cut(b, e) - Cut(b, k)) && Cut(b, k) < Cut(b, e)
  {
    RunRangeBounds(Solid(b), k, e);
  }

  // ------------------------------------------------------------ copySparse

  datatype CopyEnd = Copied | ReadFailed | WriteFailed

  /** The writes the stream calls for from byte n on, a buffer at a time. */
  ghost function AllWanted(data: Bytes, n: nat): seq<(nat, Bytes)>
    requires n <= |data|
    decreases |data| - n
  {
    if n == |data| then [] else WantedFrom(data[n..BufferEnd(data, n)], n, 0) + AllWanted(data, BufferEnd(data, n))
  }

  function BufferEnd(data: Bytes, n: nat): (m: nat)
    requires n <= |data|
    ensures n <= m <= |data| && (n < |data| ==> n < m)
  {
    if n + BUFFER < |data| then n + BUFFER else |data|
  }

  /** Everything up to n is in the file, and nothing was written but what the buffers called for. */
  ghost predicate CopiedTo(content: Bytes, writes: seq<(nat, Bytes)>, data: Bytes, n: nat) {
    && n <= |data| && |content| <= n && Padded(content, n) == data[..n]
    && writes + AllWanted(data, n) == AllWanted(data, 0)
  }

  lemma BufferLogged(log: seq<(nat, Bytes)>, data: Bytes, n: nat, all: seq<(nat, Bytes)>)
    requires n < |data| && log + AllWanted(data, n) == all
    ensures log + WantedFrom(data[n..BufferEnd(data, n)], n, 0) + AllWanted(data, BufferEnd(data, n)) == all
  {
    var m := BufferEnd(data, n);
    var w, rest := WantedFrom(data[n..m], n, 0), AllWanted(data, m);
    assert AllWanted(data, n) == w + rest;
    assert log + (w + rest) == log + w + rest;
  }

  lemma BufferShown(content: Bytes, was: Bytes, data: Bytes, n: nat, m: nat)
    requires n <= m <= |data| && |was| <= n && Padded(was, n) == data[..n]
    requires Shows(content, was, data[n..m], n, m - n)
    ensures |content| <= m && Padded(content, m) == data[..m]
  {
    var b := data[n..m];
    assert b[..m - n] == b;
    assert data[..m] == data[..n] + b;
  }

  lemma BufferCopied(content: Bytes, writes: seq<(nat, Bytes)>, was: Bytes, log: seq<(nat, Bytes)>, data: Bytes, n: nat)
    requires CopiedTo(was, log, data, n) && n < |data|
    requires Shows(content, was, data[n..BufferEnd(data, n)], n, BufferEnd(data, n) - n)
    requires writes == log + WantedFrom(data[n..BufferEnd(data, n)], n, 0)
    ensures CopiedTo(content, writes, data, BufferEnd(data, n))
  {
    BufferShown(content, was, data, n, BufferEnd(data, n));
    BufferLogged(log, data, n, AllWanted(data, 0));
  }

  /** One buffer of the stream, read and written. */
  method CopyBuffer(f: File, r: Stream, buf: array<bv8>, n: nat, ghost data: Bytes) returns (m: nat, e: End, ok: bool)
    requires buf.Length == BUFFER && CopiedTo(f.content, f.writes, data, n) && r.rest == data[n..]
    modifies f, r, buf
    ensures n <= |data| && m == (if ok then BufferEnd(data, n) else n)
    ensures ok ==> CopiedTo(f.content, f.writes, data, m) && r.rest == data[m..]
    ensures !ok ==> f.room < |data|
    ensures e == Full ==> n < |data|
    ensures e == Broken ==> r.broken && BufferEnd(data, n) == |data|
    ensures e == Eof || e == UnexpectedEof ==> !r.broken && BufferEnd(data, n) == |data|
  {
    m, ok := n, true;
    var got;
    got, e := r.ReadFull(buf);
    assert n + got == BufferEnd(data, n);
    assert buf[..got] == data[n..n + got];
    if got > 0 {
      ghost var was, log := f.content, f.writes;
      ok := WriteNonZero(f, buf[..got], n);
      if ok {
        BufferCopied(f.content, f.writes, was, log, data, n);
        m := n + got;
      }
    }
  }

  /** A fresh file becomes exactly the stream's bytes, whatever was left unwritten. */
  method CopySparse(f: File, r: Stream) returns (n: nat, end: CopyEnd)
    requires f.content == [] && f.writes == []
    modifies f, r
    ensures n <= |old(r.rest)|
    ensures end == Copied ==> n == |old(r.rest)| && f.content == old(r.rest) && f.writes == AllWanted(old(r.rest), 0)
    ensures end == ReadFailed ==> n == |old(r.rest)| && CopiedTo(f.content, f.writes, old(r.rest), n)
    ensures end == ReadFailed || end == Copied ==> (r.broken <==> end == ReadFailed)
    ensures end == WriteFailed ==> f.room < |old(r.rest)|
  {
    var buf := new bv8[BUFFER](_ => 0);
    ghost var data := r.rest;
    n := 0;
    assert data[..0] == [] && [] + AllWanted(data, 0) == AllWanted(data, 0);
    while true
      invariant CopiedTo(f.content, f.writes, data, n) && r.rest == data[n..]
      decreases |data| - n
    {
      var e, ok;
      n, e, ok := CopyBuffer(f, r, buf, n, data);
      if !ok { return n, WriteFailed; }
      if e == Eof || e == UnexpectedEof { break; }
      if e == Broken { return n, ReadFailed; }
    }
    f.Truncate(n);
    assert data[..n] == data;
    end := Copied;
  }

  /** Each write starts on a block, covers only non-zero blocks, and could not have been longer in its buffer. */
  lemma WritesAreMaximalRuns(b: Bytes, off: nat)
    ensures var ws, rs := WantedFrom(b, off, 0), Extents(Solid(b));
      && WritesOf(b, off, ws, rs) && Apart(rs) && (forall i :: 0 <= i < |rs| ==> Aligned(Solid(b), rs[i]))
      && forall p :: CoveredBy(rs, p) <==> 0 <= p < |b| && 0 <= p / SPARSE_BLOCK < Blocks(b) && !IsHole(b, p / SPARSE_BLOCK)
  {
    WantedAreRuns(b, off, 0);
    ExtentsAreExact(Solid(b));
    forall p ensures CoveredBy(Extents(Solid(b)), p) <==>
                     0 <= p < |b| && 0 <= p / SPARSE_BLOCK < Blocks(b) && !IsHole(b, p / SPARSE_BLOCK)
    {
      assert CoveredBy(Extents(Solid(b)), p) <==> Marked(Solid(b), p);
    }
  }

  /** Written or not, a hole reads as zeros: that is all a block left out can have held. */
  lemma HolesAreZero(b: Bytes, p: nat)
    requires p < |b| && 0 <= p / SPARSE_BLOCK < Blocks(b) && IsHole(b, p / SPARSE_BLOCK)
    ensures b[p] == 0
  {
    var k := p / SPARSE_BLOCK;
    InBlock(p, SPARSE_BLOCK, k);
    assert Between(b, k, k + 1)[p - Cut(b, k)] == b[p];
  }
}
