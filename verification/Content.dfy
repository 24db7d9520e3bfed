/**
 The plugin's random access to the one file the host registered: reads clamped to
 a chunk by the server, and put back together by the reader on the other side.
 */
module Content {
  import opened Options

  type Bytes = seq<bv8>
  type Handle = nat

  const CHUNK_SIZE := 0x4_0000

  /** A registered file: its content, the size it was registered with, and whether reading it fails. */
  datatype Sized = Sized(data: Bytes, size: nat, eager: bool, broken: bool)

  datatype Response = Data(data: Bytes, eof: bool) | Error

  function Min(a: int, b: int): int { if a < b then a else b }

  /** How much of a file is there to be read: what it holds, up to the size it was registered with. */
  function Limit(f: Sized): nat { Min(|f.data|, f.size) }

  // ------------------------------------------------------------ the registry

  class Registry {
    var next: nat
    var files: map<Handle, Sized>

    /** Every live handle was issued, and none is zero. */
    ghost predicate Valid()
      reads this
    {
      forall id :: id in files ==> 0 < id <= next
    }

    constructor ()
      ensures Valid() && files == map[] && next == 0
    {
      next, files := 0, map[];
    }

    /** A handle never issued before, naming exactly this file. */
    method Add(f: Sized) returns (id: Handle)
      requires Valid()
      modifies this
      ensures Valid() && id !in old(files) && id > old(next) && next == id && files == old(files)[id := f]
    {
      next := next + 1;
      id := next;
      files := files[id := f];
    }

    method Drop(id: Handle)
      requires Valid()
      modifies this
      ensures Valid() && next == old(next) && files == old(files) - {id}
    {
      files := files - {id};
    }

    /** The server's ReadAt: at most a chunk, nothing past the end, and the end said so. */
    method ReadAt(id: Handle, off: int, len: int) returns (r: Response)
      ensures id !in files ==> r == Error
      ensures id in files ==> r == Answer(files[id], off, len)
    {
      if id !in files { return Error; }
      var f := files[id];
      var n := len;
      if n <= 0 { return Data([], false); }
      if n > CHUNK_SIZE { n := CHUNK_SIZE; }
      if off >= f.size { return Data([], true); }
      if n > f.size - off { n := f.size - off; }
      if f.broken || off < 0 { return Error; }
      var got := if off >= |f.data| then [] else f.data[off..Min(off + n, |f.data|)];
      var srcEof := |got| < n || (f.eager && off + |got| == |f.data|);
      r := Data(got, srcEof || off + |got| >= f.size);
    }
  }

  /** What a live handle answers: the file's own bytes, clamped; eof says the limit was reached or the source ended. */
  function Answer(f: Sized, off: int, len: int): Response {
    if len <= 0 then Data([], false)
    else if off >= f.size then Data([], true)
    else if f.broken || off < 0 then Error
    else
      var n := Min(Min(len, CHUNK_SIZE), f.size - off);
      var got := if off >= |f.data| then [] else f.data[off..Min(off + n, |f.data|)];
      Data(got, |got| < n || (f.eager && off + |got| == |f.data|) || off + |got| >= f.size)
  }

  /** eof is said exactly when nothing past this answer can be read, or the source says so a moment early. */
  lemma AnswerIsTheFile(f: Sized, off: nat, len: int)
    requires !f.broken && 0 < len && off <= Limit(f)
    ensures Answer(f, off, len).Data?
    ensures var a := Answer(f, off, len);
      && |a.data| == Min(Min(len, CHUNK_SIZE), Limit(f) - off) && a.data == f.data[off..off + |a.data|]
      && (a.data == [] ==> a.eof) && (a.eof <==> off + |a.data| == Limit(f) && (|a.data| < Min(len, CHUNK_SIZE) || f.eager || Limit(f) == f.size))
  {
  }

  /** And outside what can be read: past the end there is the end, before the start or of a broken source an error. */
  lemma AnswerElsewhere(f: Sized, off: int, len: int)
    requires 0 < len
    ensures off >= f.size || (!f.broken && off > Limit(f)) ==> Answer(f, off, len) == Data([], true)
    ensures (f.broken || off < 0) && off < f.size ==> Answer(f, off, len) == Error
    ensures Answer(f, off, 0) == Data([], false)
  {
  }

  // ------------------------------------------------------------ the reader

  datatype ReadEnd = Full | AtEof | Unexpected | Failed

  /** The plugin's io.ReaderAt over one handle; calls counts how many more the connection carries. */
  class RemoteReader {
    const reg: Registry
    const handle: Handle
    var calls: nat

    constructor (reg: Registry, handle: Handle, calls: nat)
      ensures this.reg == reg && this.handle == handle && this.calls == calls
    {
      this.reg, this.handle, this.calls := reg, handle, calls;
    }

    method Call(off: int, len: int) returns (r: Response)
      modifies this
      ensures calls == if old(calls) == 0 then 0 else old(calls) - 1
      ensures old(calls) == 0 ==> r == Error
      ensures old(calls) > 0 ==> r == if handle in reg.files then Answer(reg.files[handle], off, len) else Error
    {
      if calls == 0 { return Error; }
      calls := calls - 1;
      r := reg.ReadAt(handle, off, len);
    }

    /** The first `read` bytes of a buffer are the file's, from off. */
    ghost predicate Holds(buf: Bytes, off: nat, read: nat)
      reads reg
    {
      read <= |buf| && (read > 0 ==> handle in reg.files && IsFiles(reg.files[handle], buf, off, read))
    }

    /** The file is there and readable from off, and the connection lasts. */
    ghost predicate Healthy(off: nat, most: nat)
      reads this, reg
    {
      handle in reg.files && !reg.files[handle].broken && calls > most && off <= Limit(reg.files[handle])
    }

    /** One request, for no more than a chunk. */
    method Ask(at: nat, room: nat) returns (r: Response)
      requires room > 0
      modifies this
      ensures calls == if old(calls) == 0 then 0 else old(calls) - 1
      ensures r.Data? ==> handle in reg.files && IsAnswer(reg.files[handle], at, room, r.data, r.eof)
      ensures old(Healthy(at, 0)) ==> r.Data?
    {
      r := Call(at, if room > CHUNK_SIZE then CHUNK_SIZE else room);
      if r.Data? { AnswerBounds(reg.files[handle], at, if room > CHUNK_SIZE then CHUNK_SIZE else room); }
    }

    /** One request of the loop; None means there is more to ask for. */
    method Request(p: array<bv8>, off: nat, had: nat) returns (read: nat, end: Option<ReadEnd>)
      requires had < p.Length && Holds(p[..], off, had)
      modifies this, p
      ensures had <= read <= p.Length && Holds(p[..], off, read)
      ensures end == None ==> read > had
      ensures end == None || end == Some(AtEof) || end == Some(Failed)
      ensures end == Some(AtEof) ==> handle in reg.files && off + read >= Limit(reg.files[handle])
      ensures old(Healthy(off, p.Length - had)) ==> end != Some(Failed) && (end == None ==> Healthy(off, p.Length - read))
    {
      var r := Ask(off + had, p.Length - had);
      if r.Error? { return had, Some(Failed); }
      read := Take(p, off, had, r.data, reg.files[handle]);
      end := if r.eof then Some(AtEof) else if |r.data| == 0 then Some(Unexpected) else None;
    }

    /** The answer put in its place. */
    method Take(p: array<bv8>, off: nat, had: nat, data: Bytes, ghost f: Sized) returns (read: nat)
      requires handle in reg.files && f == reg.files[handle] && had + |data| <= p.Length && Holds(p[..], off, had)
      requires data != [] ==> off + had + |data| <= Limit(f) && data == f.data[off + had..off + had + |data|]
      modifies p
      ensures read == had + |data| && Holds(p[..], off, read)
    {
      read := had + |data|;
      if |data| > 0 { Put(p, off, had, data, f); }
    }

    /** Fills p from off, a chunk at a time; whatever it read is the file's, and a short read is an error. */
    method ReadAt(p: array<bv8>, off: nat) returns (read: nat, end: ReadEnd)
      modifies this, p
      ensures Holds(p[..], off, read) && (end == Full ==> read == p.Length) && end != Unexpected
      ensures end == AtEof ==> handle in reg.files && off + read >= Limit(reg.files[handle])
      ensures old(Healthy(off, p.Length)) ==> read == Min(p.Length, Limit(reg.files[handle]) - off) && end != Failed
    {
      read := 0;
      while read < p.Length
        invariant Holds(p[..], off, read)
        invariant old(Healthy(off, p.Length)) ==> Healthy(off, p.Length - read)
      {
        var stop;
        read, stop := Request(p, off, read);
        if stop.Some? { return read, stop.value; }
      }
      end := Full;
    }
  }

  /** The buffer starts with the file's bytes from off. */
  ghost predicate IsFiles(f: Sized, buf: Bytes, off: nat, read: nat) {
    read <= |buf| && off + read <= Limit(f) && buf[..read] == f.data[off..off + read]
  }

  /** An answer put after what was there already carries the file on. */
  lemma Appended(f: Sized, was: Bytes, now: Bytes, off: nat, had: nat, data: Bytes)
    requires had + |data| <= |was| && (had > 0 ==> IsFiles(f, was, off, had))
    requires off + had + |data| <= Limit(f) && data == f.data[off + had..off + had + |data|]
    requires now == was[..had] + data + was[had + |data|..]
    ensures IsFiles(f, now, off, had + |data|)
  {
    assert now[..had + |data|] == was[..had] + data;
    assert f.data[off..off + had] + data == f.data[off..off + had + |data|];
  }

  method Put(p: array<bv8>, off: nat, had: nat, data: Bytes, ghost f: Sized)
    requires had + |data| <= p.Length && (had > 0 ==> IsFiles(f, p[..], off, had))
    requires off + had + |data| <= Limit(f) && data == f.data[off + had..off + had + |data|]
    modifies p
    ensures IsFiles(f, p[..], off, had + |data|)
  {
    ghost var was := p[..];
    Copy(p, had, data);
    Appended(f, was, p[..], off, had, data);
  }

  /** Whatever a live handle answers is the file's own, no longer than asked, and not empty unless it is the end. */
  ghost predicate IsAnswer(f: Sized, off: nat, len: int, data: Bytes, eof: bool) {
    && |data| <= len && (data == [] ==> eof) && (eof ==> off + |data| >= Limit(f))
    && (data != [] ==> off + |data| <= Limit(f) && data == f.data[off..off + |data|])
  }

  lemma AnswerBounds(f: Sized, off: nat, len: int)
    requires Answer(f, off, len).Data? && 0 < len
    ensures IsAnswer(f, off, len, Answer(f, off, len).data, Answer(f, off, len).eof)
  {
  }

  /** copy: all of data put into p at at. */
  method Copy(p: array<bv8>, at: nat, data: Bytes)
    requires at + |data| <= p.Length
    modifies p
    ensures p[..] == old(p[..])[..at] + data + old(p[..])[at + |data|..]
  {
    for i := 0 to |data|
      invariant p[..] == old(p[..])[..at] + data[..i] + old(p[..])[at + i..]
    {
      p[at + i] := data[i];
    }
    assert data[..|data|] == data;
  }
}
