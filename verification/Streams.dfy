/**
 Content on the wire: split into messages by one side, reassembled by the other.
 However the local file hands out its bytes and however the backend asks for
 them, nothing is lost, added or reordered, and only a local end of file can look
 like one to the backend.
 */
module Streams {
  import opened Options

  type Bytes = seq<bv8>

  const CHUNK_SIZE := 0x4_0000

  /** A message names the path or carries content. */
  datatype Msg = Named(path: Bytes) | Data(data: Bytes)

  /** GetData. */
  function DataOf(m: Msg): Bytes { if m.Data? then m.data else [] }

  function Join(msgs: seq<Msg>): Bytes {
    if msgs == [] then [] else DataOf(msgs[0]) + Join(msgs[1..])
  }

  lemma {:induction false} JoinSnoc(msgs: seq<Msg>, m: Msg)
    ensures Join(msgs + [m]) == Join(msgs) + DataOf(m)
    decreases |msgs|
  {
    if msgs == [] {
      assert Join([m]) == DataOf(m) + Join([]);
    } else {
      assert (msgs + [m])[1..] == msgs[1..] + [m];
      JoinSnoc(msgs[1..], m);
    }
  }

  datatype End = Eof | Failed(code: nat)

  const CANCELLED := 1

  // ------------------------------------------------------------ the wire

  /** A stream of messages one way, and how it ended once it has. */
  class Wire {
    var queue: seq<Msg>
    var end: Option<End>
    /** Messages still accepted before the other side gives up, and what it says when it does. */
    var patience: nat
    const reason: nat

    constructor (patience: nat, reason: nat)
      ensures queue == [] && end == None && this.patience == patience && this.reason == reason
    {
      queue, end, this.patience, this.reason := [], None, patience, reason;
    }

    method Send(m: Msg) returns (ok: bool)
      modifies this
      ensures ok <==> old(end) == None && old(patience) > 0
      ensures queue == if ok then old(queue) + [m] else old(queue)
      ensures end == if ok then None else if old(end) == None then Some(Failed(reason)) else old(end)
      ensures patience == if ok then old(patience) - 1 else old(patience)
    {
      ok := end == None && patience > 0;
      if ok {
        queue, patience := queue + [m], patience - 1;
      } else if end == None {
        end := Some(Failed(reason));
      }
    }

    /** A clean close: the other side will see the end of the content. */
    method CloseSend()
      modifies this
      ensures queue == old(queue) && end == if old(end) == None then Some(Eof) else old(end)
    {
      if end == None { end := Some(Eof); }
    }

    method Cancel()
      modifies this
      ensures queue == old(queue) && end == if old(end) == None then Some(Failed(CANCELLED)) else old(end)
    {
      if end == None { end := Some(Failed(CANCELLED)); }
    }

    /** The next message, or how the stream ended. */
    method Recv() returns (m: Msg, stop: Option<End>)
      requires end.Some?
      modifies this
      ensures end == old(end)
      ensures old(queue) != [] ==> stop == None && m == old(queue)[0] && queue == old(queue)[1..]
      ensures old(queue) == [] ==> stop == end && queue == []
    {
      if queue == [] { return Data([]), end; }
      m, stop := queue[0], None;
      queue := queue[1..];
    }
  }

  // ------------------------------------------------------------ chunkReader

  class ChunkReader {
    const wire: Wire
    var rest: Bytes
    var err: Option<End>

    /** A sticky end is the wire's own, and comes only when nothing is left. */
    ghost predicate Valid()
      reads this, wire
    {
      wire.end.Some? && (err.Some? ==> err == wire.end && rest == [] && wire.queue == [])
    }

    /** What is still to be read. */
    ghost function Left(): Bytes
      reads this, wire
    {
      rest + Join(wire.queue)
    }

    constructor (wire: Wire)
      requires wire.end.Some?
      ensures Valid() && this.wire == wire && Left() == Join(wire.queue)
    {
      this.wire, rest, err := wire, [], None;
    }

    /** The next bytes of what is left, as many as fit of one message; an end only when nothing is left. */
    method Read(p: array<bv8>) returns (n: nat, stop: Option<End>)
      requires Valid()
      modifies this, wire, p
      ensures Valid() && wire.end == old(wire.end) && n <= p.Length && n <= |old(Left())|
      ensures p[..n] == old(Left())[..n] && Left() == old(Left())[n..]
      ensures stop == None ==> n > 0 || p.Length == 0
      ensures stop.Some? ==> n == 0 && stop == wire.end && old(Left()) == []
    {
      while |rest| == 0
        invariant Valid() && wire.end == old(wire.end) && Left() == old(Left())
        decreases |wire.queue|, |rest| == 0
      {
        if err.Some? { return 0, err; }
        assert Left() == Join(wire.queue);
        var msg, ended := wire.Recv();
        if ended.Some? {
          err := ended;
          return 0, err;
        }
        rest := DataOf(msg);
      }
      n := if p.Length < |rest| then p.Length else |rest|;
      ghost var was := rest;
      for i := 0 to n
        invariant rest == was && err == None && Left() == old(Left()) && wire.end == old(wire.end)
        invariant p[..i] == was[..i]
      {
        p[i] := rest[i];
      }
      rest := rest[n..];
      stop := None;
      assert was == was[..n] + rest;
      assert old(Left()) == was[..n] + Left();
    }

    /** Whatever is left is taken off the stream; afterwards it has ended. */
    method Drain()
      requires Valid()
      modifies this, wire
      ensures Valid() && err == wire.end == old(wire.end) && Left() == [] && wire.queue == []
    {
      rest := [];
      while err == None
        invariant Valid() && wire.end == old(wire.end) && rest == []
        decreases |wire.queue|, err == None
      {
        var m, ended := wire.Recv();
        if ended.Some? { err := ended; }
      }
    }
  }

  // ------------------------------------------------------------ the local reader

  datatype ReadEnd = More | AtEof | Broke

  /**
   An io.Reader: what it still holds, how many bytes it cares to give each time it
   is asked, whether its last bytes come together with the end of file, and
   whether it ends in an error instead.
   */
  class Source {
    var data: Bytes
    var pace: seq<nat>
    const together: bool
    const broken: bool

    constructor (data: Bytes, pace: seq<nat>, together: bool, broken: bool)
      ensures this.data == data && this.pace == pace && this.together == together && this.broken == broken
    {
      this.data, this.pace, this.together, this.broken := data, pace, together, broken;
    }

    method Read(buf: array<bv8>) returns (n: nat, e: ReadEnd)
      requires buf.Length > 0
      modifies this, buf
      ensures n <= buf.Length && n <= |old(data)| && buf[..n] == old(data)[..n] && data == old(data)[n..]
      ensures e != More ==> data == [] && (e == Broke <==> broken)
      ensures e == More ==> |data| < |old(data)| || |pace| < |old(pace)|
      ensures |pace| <= |old(pace)|
    {
      var want := buf.Length;
      if pace != [] {
        want := if pace[0] < want then pace[0] else want;
        pace := pace[1..];
      }
      n := if want < |data| then want else |data|;
      for i := 0 to n
        invariant data == old(data) && buf[..i] == old(data)[..i] && |pace| <= |old(pace)|
        invariant n > 0 || |pace| < |old(pace)| || data == []
      {
        buf[i] := data[i];
      }
      data := data[n..];
      e := if data != [] || (n > 0 && !together) then More else if broken then Broke else AtEof;
    }
  }

  // ------------------------------------------------------------ chunked

  datatype SendResult = Sent | WireFailed | ReadFailed

  ghost predicate Sized(msgs: seq<Msg>) { forall i :: 0 <= i < |msgs| ==> msgs[i].Data? && 0 < |msgs[i].data| <= CHUNK_SIZE }

  /** Read once, and send what came; ok is false when the wire would not take it. */
  method Pass(r: Source, w: Wire, buf: array<bv8>) returns (piece: Bytes, e: ReadEnd, ok: bool)
    requires w.end == None && buf.Length == CHUNK_SIZE
    modifies r, w, buf
    ensures |piece| <= CHUNK_SIZE && old(r.data) == piece + r.data
    ensures e != More ==> r.data == [] && (e == Broke <==> r.broken)
    ensures e == More ==> |r.data| < |old(r.data)| || |r.pace| < |old(r.pace)|
    ensures |r.pace| <= |old(r.pace)|
    ensures ok ==> w.end == None && w.queue == old(w.queue) + (if piece == [] then [] else [Data(piece)])
    ensures !ok ==> w.end == Some(Failed(w.reason)) && w.queue == old(w.queue) && w.patience == 0
    ensures w.patience + |w.queue| == old(w.patience) + |old(w.queue)|
  {
    var n;
    n, e := r.Read(buf);
    piece, ok := buf[..n], true;
    if n > 0 { ok := w.Send(Data(piece)); }
  }

  /** The messages sent so far join to what the reader has given. */
  ghost predicate SentSoFar(sent: seq<Msg>, rest: Bytes, data: Bytes) { Sized(sent) && Join(sent) + rest == data }

  /** A message carries a byte at least. */
  lemma {:induction false} SizedCount(msgs: seq<Msg>)
    requires Sized(msgs)
    ensures |msgs| <= |Join(msgs)|
    decreases |msgs|
  {
    if msgs != [] {
      assert Sized(msgs[1..]) by { forall i | 0 <= i < |msgs[1..]| ensures msgs[1..][i] == msgs[i + 1] { } }
      assert msgs[0].Data? && |msgs[0].data| > 0;
      SizedCount(msgs[1..]);
    }
  }

  lemma PieceSent(sent: seq<Msg>, piece: Bytes, rest: Bytes, data: Bytes)
    requires SentSoFar(sent, piece + rest, data) && |piece| <= CHUNK_SIZE
    ensures SentSoFar(sent + (if piece == [] then [] else [Data(piece)]), rest, data)
  {
    if piece == [] {
      assert sent + [] == sent && piece + rest == rest;
    } else {
      JoinSnoc(sent, Data(piece));
      assert Join(sent) + (piece + rest) == Join(sent) + piece + rest;
    }
  }

  /** Everything the reader gave is on the wire, in messages no longer than a chunk. */
  method Chunked(r: Source, w: Wire) returns (result: SendResult)
    requires w.end == None
    modifies r, w
    ensures old(w.queue) <= w.queue && Sized(w.queue[|old(w.queue)|..])
    ensures Join(w.queue[|old(w.queue)|..]) <= old(r.data)
    ensures result != WireFailed ==> Join(w.queue[|old(w.queue)|..]) == old(r.data) && w.end == None
    ensures result != WireFailed ==> (result == ReadFailed <==> r.broken)
    ensures result == WireFailed ==> w.end == Some(Failed(w.reason)) && old(w.patience) <= |old(r.data)|
  {
    var buf := new bv8[CHUNK_SIZE](_ => 0);
    ghost var data, before := r.data, w.queue;
    ghost var sent: seq<Msg> := [];
    while true
      invariant w.end == None && w.queue == before + sent && SentSoFar(sent, r.data, data)
      invariant w.patience + |sent| == old(w.patience)
      decreases |r.data| + |r.pace|
    {
      JoinPrefix(sent, r.data, data);
      assert w.queue[|before|..] == sent;
      var piece, e, ok := Pass(r, w, buf);
      SizedCount(sent);
      if !ok { return WireFailed; }
      PieceSent(sent, piece, r.data, data);
      sent := sent + (if piece == [] then [] else [Data(piece)]);
      JoinPrefix(sent, r.data, data);
      assert w.queue[|before|..] == sent;
      if e == AtEof { return Sent; }
      if e == Broke { return ReadFailed; }
    }
  }

  lemma JoinPrefix(sent: seq<Msg>, rest: Bytes, data: Bytes)
    requires Join(sent) + rest == data
    ensures Join(sent) <= data && (rest == [] ==> Join(sent) == data)
  {
    if rest == [] { assert Join(sent) + [] == Join(sent); }
  }

  // ------------------------------------------------------------ the upload

  datatype UploadResult = Uploaded | NotRead | NotSent

  /**
   upload: the path first and alone, then the content, then a clean close; but a
   file that could not be read to its end is cancelled, never closed.
   */
  method Upload(path: Bytes, r: Source, w: Wire) returns (result: UploadResult)
    requires w.end == None && w.queue == []
    modifies r, w
    ensures w.end.Some?
    ensures result == Uploaded ==> w.end == Some(Eof) && !r.broken
    ensures result == NotRead ==> w.end == Some(Failed(CANCELLED)) && r.broken
    ensures result == NotSent ==> w.end == Some(Failed(w.reason))
    ensures old(w.patience) > |old(r.data)| + 1 ==> result == if r.broken then NotRead else Uploaded
    ensures old(w.patience) > 0 ==> w.queue != []
    ensures w.queue == [] ==> result == NotSent
    ensures w.queue != [] ==> w.queue[0] == Named(path) && Sized(w.queue[1..]) && Join(w.queue[1..]) <= old(r.data)
    ensures w.end == Some(Eof) ==> w.queue != [] && Join(w.queue[1..]) == old(r.data)
  {
    var ok := w.Send(Named(path));
    if !ok { return NotSent; }
    var sent := Chunked(r, w);
    match sent
    case ReadFailed =>
      w.Cancel();
      result := NotRead;
    case WireFailed =>
      result := NotSent;
    case Sent =>
      w.CloseSend();
      result := Uploaded;
  }

  // ------------------------------------------------------------ the backend

  datatype Verdict = Stored | Refused

  method ReadOnce(r: ChunkReader, size: nat) returns (chunk: Bytes, stop: Option<End>)
    requires r.Valid()
    modifies r, r.wire
    ensures r.Valid() && r.wire.end == old(r.wire.end) && chunk + r.Left() == old(r.Left())
    ensures stop.Some? ==> stop == r.wire.end && r.Left() == []
    ensures stop == None ==> size == 0 || chunk != []
  {
    var p := new bv8[size](_ => 0);
    ghost var left := r.Left();
    var n;
    n, stop := r.Read(p);
    chunk := p[..n];
    assert left == left[..n] + left[n..];
  }

  /** How many of the reads have room for a byte. */
  function Reads(sizes: seq<nat>): nat {
    if sizes == [] then 0 else Reads(sizes[..|sizes| - 1]) + if sizes[|sizes| - 1] > 0 then 1 else 0
  }

  /** How a backend reads: buffer sizes in turn, and whether it stops before the end on purpose. */
  method ReadAll(r: ChunkReader, sizes: seq<nat>) returns (got: Bytes, stop: Option<End>)
    requires r.Valid()
    modifies r, r.wire
    ensures r.Valid() && r.wire.end == old(r.wire.end) && got + r.Left() == old(r.Left())
    ensures stop.Some? ==> stop == r.wire.end && r.Left() == []
    ensures stop == None ==> Reads(sizes) <= |got|
  {
    got, stop := [], None;
    assert got + r.Left() == r.Left();
    for i := 0 to |sizes|
      invariant r.Valid() && r.wire.end == old(r.wire.end) && got + r.Left() == old(r.Left())
      invariant Reads(sizes[..i]) <= |got|
    {
      assert sizes[..i + 1][..i] == sizes[..i];
      var chunk;
      chunk, stop := ReadOnce(r, sizes[i]);
      assert got + (chunk + r.Left()) == got + chunk + r.Left();
      got := got + chunk;
      if stop.Some? { return; }
    }
    assert sizes[..|sizes|] == sizes;
    stop := None;
  }

  lemma PrefixOf(got: Bytes, left: Bytes, all: Bytes)
    requires got + left == all
    ensures got <= all && (left == [] ==> got == all)
  {
    if left == [] { assert got + [] == got; }
  }

  /**
   receiveStream: the first message names the path, or the call is refused; the
   rest is handed to the backend as a reader, and whatever the backend left is
   drained before the reply.
   */
  method ReceiveStream(w: Wire, sizes: seq<nat>, accepts: bool)
    returns (verdict: Verdict, path: Bytes, got: Bytes, stop: Option<End>)
    requires w.end.Some?
    modifies w
    ensures w.end == old(w.end)
    ensures old(w.queue) == [] || old(w.queue)[0].Data? ==> verdict == Refused && got == [] && stop == None
    ensures old(w.queue) != [] && old(w.queue)[0].Named? ==> path == old(w.queue)[0].path && got <= Join(old(w.queue)[1..])
    ensures stop.Some? ==> stop == w.end && got == Join(old(w.queue)[1..])
    ensures verdict == Stored <==> accepts && old(w.queue) != [] && old(w.queue)[0].Named?
    ensures verdict == Stored ==> w.queue == []
    ensures old(w.queue) != [] && old(w.queue)[0].Named? && stop == None ==> Reads(sizes) <= |got|
  {
    got, stop, path := [], None, [];
    var first, ended := w.Recv();
    if ended.Some? || first.Data? { return Refused, path, got, stop; }
    path := first.path;
    var r := new ChunkReader(w);
    ghost var left := Join(w.queue);
    got, stop := ReadAll(r, sizes);
    PrefixOf(got, r.Left(), left);
    verdict := Refused;
    if accepts {
      r.Drain();
      verdict := Stored;
    }
  }

  /**
   One upload, end to end: the backend reads a prefix of the local file under the
   right path, and is told the content ended only if the local reader reached its
   end and every byte of it arrived.
   */
  method Transfer(path: Bytes, r: Source, patience: nat, reason: nat, sizes: seq<nat>, accepts: bool)
    returns (sent: UploadResult, verdict: Verdict, seen: Bytes, got: Bytes, stop: Option<End>)
    modifies r
    ensures got <= old(r.data)
    ensures got != [] ==> seen == path
    ensures stop == Some(Eof) ==> seen == path && got == old(r.data) && !r.broken && sent == Uploaded
    ensures r.broken ==> stop != Some(Eof) && sent != Uploaded
    ensures accepts && patience > 0 ==> verdict == Stored
    ensures patience > |old(r.data)| + 1 && !r.broken ==> sent == Uploaded && (Reads(sizes) > |old(r.data)| ==> stop == Some(Eof))
  {
    var w := new Wire(patience, reason);
    sent := Upload(path, r, w);
    ghost var wired := w.queue;
    verdict, seen, got, stop := ReceiveStream(w, sizes, accepts);
    if wired != [] { assert Join(wired[1..]) <= old(r.data); }
  }

  /** sendChunks, the way down: the stream ends cleanly exactly when the backend's reader did. */
  method SendChunks(rc: Source, w: Wire)
    requires w.end == None && w.queue == []
    modifies rc, w
    ensures w.end.Some? && Join(w.queue) <= old(rc.data)
    ensures w.end == Some(Eof) ==> Join(w.queue) == old(rc.data) && !rc.broken
    ensures old(w.patience) > |old(rc.data)| && !rc.broken ==> w.end == Some(Eof)
  {
    var sent := Chunked(rc, w);
    assert w.queue[0..] == w.queue;
    if sent == Sent { w.CloseSend(); } else { w.Cancel(); }
  }

  /** One download, end to end: a clean end is never seen short of the whole content. */
  method Fetch(rc: Source, patience: nat, reason: nat, sizes: seq<nat>) returns (got: Bytes, stop: Option<End>)
    modifies rc
    ensures got <= old(rc.data)
    ensures stop == Some(Eof) ==> got == old(rc.data) && !rc.broken
    ensures patience > |old(rc.data)| && !rc.broken && Reads(sizes) > |old(rc.data)| ==> stop == Some(Eof)
  {
    var w := new Wire(patience, reason);
    SendChunks(rc, w);
    var r := new ChunkReader(w);
    ghost var all := Join(w.queue);
    got, stop := ReadAll(r, sizes);
    PrefixOf(got, r.Left(), all);
  }

  // ------------------------------------------------------------ both sides at once

  /** A transfer with its two ends running at once; told is what the backend's reader has reported. */
  datatype Flow = Flow(local: Bytes, broken: bool, sent: nat, queue: seq<Msg>, end: Option<End>, got: Bytes, told: Option<End>)

  datatype Move =
    | Put(n: nat)
    | Finish
    | Break(kept: nat, code: nat)
    | Take
    | Tell

  ghost predicate CanMove(f: Flow, m: Move) {
    match m
    case Put(n) => f.end == None && 0 < n <= CHUNK_SIZE && f.sent + n <= |f.local|
    case Finish => f.end == None && f.sent == |f.local| && !f.broken
    case Break(kept, code) => kept <= |f.queue|
    case Take => f.queue != [] && f.told == None
    case Tell => f.queue == [] && f.end.Some? && f.told == None
  }

  /** A cancel, a failed send or a lost connection may take undelivered messages with it. */
  ghost function Moved(f: Flow, m: Move): Flow
    requires CanMove(f, m)
  {
    match m
    case Put(n) => f.(sent := f.sent + n, queue := f.queue + [Data(f.local[f.sent..f.sent + n])])
    case Finish => f.(end := Some(Eof))
    case Break(kept, code) => f.(queue := f.queue[..kept], end := Some(Failed(code)))
    case Take => f.(got := f.got + DataOf(f.queue[0]), queue := f.queue[1..])
    case Tell => f.(told := f.end)
  }

  ghost predicate FlowOk(f: Flow) {
    && f.sent <= |f.local| && f.got + Join(f.queue) <= f.local
    && (f.end.None? || f.end == Some(Eof) ==> f.got + Join(f.queue) == f.local[..f.sent])
    && (f.end == Some(Eof) ==> f.sent == |f.local| && !f.broken)
    && (f.told == Some(Eof) ==> f.got == f.local && !f.broken)
  }

  lemma {:induction false} JoinTake(msgs: seq<Msg>, n: nat)
    requires n <= |msgs|
    ensures Join(msgs[..n]) <= Join(msgs)
    decreases n
  {
    if n > 0 {
      assert msgs[..n][1..] == msgs[1..][..n - 1];
      JoinTake(msgs[1..], n - 1);
    }
  }

  lemma SliceOn(all: Bytes, at: nat, n: nat)
    requires at + n <= |all|
    ensures all[..at + n] == all[..at] + all[at..at + n]
  {
  }

  lemma LongerPrefix(got: Bytes, short: Bytes, long: Bytes, all: Bytes)
    requires short <= long && got + long <= all
    ensures got + short <= all
  {
    assert (got + long)[..|got| + |short|] == got + short;
  }

  lemma MoveKeepsFlow(f: Flow, m: Move)
    requires FlowOk(f) && CanMove(f, m)
    ensures FlowOk(Moved(f, m))
  {
    match m
    case Put(n) =>
      var piece := f.local[f.sent..f.sent + n];
      JoinSnoc(f.queue, Data(piece));
      assert f.got + (Join(f.queue) + piece) == f.got + Join(f.queue) + piece;
      SliceOn(f.local, f.sent, n);
    case Finish =>
    case Break(kept, code) =>
      JoinTake(f.queue, kept);
      LongerPrefix(f.got, Join(f.queue[..kept]), Join(f.queue), f.local);
    case Take =>
      assert f.got + (DataOf(f.queue[0]) + Join(f.queue[1..])) == f.got + DataOf(f.queue[0]) + Join(f.queue[1..]);
    case Tell =>
      assert f.got + [] == f.got;
      assert f.local[..|f.local|] == f.local;
  }

  ghost predicate FlowRun(fs: seq<Flow>, ms: seq<Move>, local: Bytes, broken: bool) {
    && |fs| == |ms| + 1 && fs[0] == Flow(local, broken, 0, [], None, [], None)
    && forall k :: 0 <= k < |ms| ==> CanMove(fs[k], ms[k]) && fs[k + 1] == Moved(fs[k], ms[k])
  }

  /** At every moment of every transfer the backend holds a prefix of the file, and all of it once told it ended. */
  lemma {:induction false} NeverShortened(fs: seq<Flow>, ms: seq<Move>, local: Bytes, broken: bool, k: nat)
    requires FlowRun(fs, ms, local, broken) && k < |fs|
    ensures FlowOk(fs[k]) && fs[k].local == local && fs[k].broken == broken
    ensures fs[k].got <= local && (fs[k].told == Some(Eof) ==> fs[k].got == local && !broken)
    decreases k
  {
    if k > 0 {
      NeverShortened(fs, ms, local, broken, k - 1);
      MoveKeepsFlow(fs[k - 1], ms[k - 1]);
    }
    assert fs[k].got <= fs[k].got + Join(fs[k].queue);
  }
}
