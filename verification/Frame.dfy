/** Frames (packages/api/agentlink/frame.go): a big-endian 32-bit length and that many bytes of
JSON, over a stream that hands out its bytes in arbitrary chunks. */
module Frame {
  import opened Wrappers
  import opened Decimal
  import opened Protocol
  import opened Wire
  import opened WireDecode
  import opened WireLaw

  const MAX_FRAME: nat := 1024 * 1024

  datatype IoError = Eof | UnexpectedEof | Fault(error: string)

  datatype FrameError =
    | LinkError(io: IoError)
    | TooLargeError(len: nat, max: nat)
    | MalformedError(decode: DecodeError)

  /** What one ReadFrame gives: a message, a close between frames, or an error. */
  datatype Outcome = Received(m: Message) | Closed | Failed(error: FrameError)

  // ---------- The stream ----------

  function Flatten(chunks: seq<string>): string {
    if chunks == [] then "" else chunks[0] + Flatten(chunks[1..])
  }

  /** How a stream ends after its last byte: the peer closed it, or it broke. */
  datatype End = PeerClosed | Broken(error: string) {
    function Error(): IoError {
      if PeerClosed? then Eof else Fault(error)
    }

    /** The error of an end inside a frame. */
    function Inside(): IoError {
      if PeerClosed? then UnexpectedEof else Fault(error)
    }
  }

  /** An io.Reader: the bytes still to come, cut into the chunks the next reads hand out. Empty
  chunks are reads that return nothing; an eager reader returns its end with its last bytes. */
  class Stream {
    var chunks: seq<string>
    const end: End
    const eager: bool

    constructor (chunks: seq<string>, end: End, eager: bool)
      ensures this.chunks == chunks && this.end == end && this.eager == eager
    {
      this.chunks, this.end, this.eager := chunks, end, eager;
    }

    function Contents(): string
      reads this
    {
      Flatten(chunks)
    }

    method Read(max: nat) returns (got: string, err: Option<IoError>)
      modifies this
      ensures old(Contents()) == got + Contents() && |got| <= max
      ensures err.Some? ==> Contents() == "" && err.value == end.Error()
      ensures err.None? && max > 0 ==> |Contents()| + |chunks| < |old(Contents())| + |old(chunks)|
    {
      if chunks == [] {
        return "", Some(end.Error());
      }
      var first, rest := chunks[0], chunks[1..];
      if |first| <= max {
        chunks := rest;
        return first, if eager && rest == [] then Some(end.Error()) else None;
      }
      chunks := [first[max..]] + rest;
      assert chunks[1..] == rest;
      assert first + Flatten(rest) == first[..max] + (first[max..] + Flatten(rest));
      return first[..max], None;
    }
  }

  /** The error of io.ReadFull after n of the wanted bytes. */
  function FullError(n: nat, want: nat, end: End): Option<IoError> {
    if n >= want then None
    else if n > 0 then Some(end.Inside())
    else Some(end.Error())
  }

  /** Puts the bytes of got at buf[at..]. */
  method CopyInto(buf: array<char>, at: nat, got: string)
    requires at + |got| <= buf.Length
    modifies buf
    ensures buf[..] == old(buf[..at]) + got + old(buf[at + |got|..])
  {
    forall i | 0 <= i < |got| {
      buf[at + i] := got[i];
    }
  }

  /** A buffer that holds the first n bytes read: first is what it held before. */
  function Holding(first: string, lo: nat, data: string, n: nat): string
    requires lo + n <= |first| && n <= |data|
  {
    first[..lo] + data[..n] + first[lo + n..]
  }

  lemma HoldingNone(first: string, lo: nat, data: string)
    requires lo <= |first|
    ensures Holding(first, lo, data, 0) == first
  {
  }

  lemma HoldingAll(first: string, data: string)
    requires |first| <= |data|
    ensures Holding(first, 0, data, |first|) == data[..|first|]
  {
  }

  /** One turn of ReadFull: the bytes just read follow those read before. */
  lemma HoldingMore(first: string, lo: nat, data: string, n: nat, got: string)
    requires lo + n + |got| <= |first| && n + |got| <= |data| && got == data[n..n + |got|]
    ensures var was := Holding(first, lo, data, n);
      was[..lo + n] + got + was[lo + n + |got|..] == Holding(first, lo, data, n + |got|)
  {
    var was := Holding(first, lo, data, n);
    assert was[..lo + n] == first[..lo] + data[..n];
    assert was[lo + n + |got|..] == first[lo + n + |got|..];
    assert data[..n] + got == data[..n + |got|];
  }

  /** io.ReadFull of buf[lo..hi] */
  method ReadFull(r: Stream, buf: array<char>, lo: nat, hi: nat) returns (n: nat, err: Option<IoError>)
    requires lo <= hi <= buf.Length
    modifies r, buf
    ensures n == Min(hi - lo, |old(r.Contents())|)
    ensures buf[..] == Holding(old(buf[..]), lo, old(r.Contents()), n)
    ensures r.Contents() == old(r.Contents())[n..]
    ensures err == FullError(n, hi - lo, r.end)
  {
    hide Flatten, Holding;
    n := 0;
    err := None;
    ghost var data := r.Contents();
    ghost var first := buf[..];
    HoldingNone(first, lo, data);
    while lo + n < hi && err.None?
      invariant lo + n <= hi && n <= |data|
      invariant buf[..] == Holding(first, lo, data, n)
      invariant r.Contents() == data[n..]
      invariant err.Some? ==> n == |data| && err.value == r.end.Error()
      decreases err.None?, |r.Contents()| + |r.chunks|
    {
      var got;
      got, err := r.Read(hi - lo - n);
      assert got == data[n..n + |got|] && r.Contents() == data[n + |got|..];
      HoldingMore(first, lo, data, n, got);
      CopyInto(buf, lo + n, got);
      n := n + |got|;
    }
    if lo + n >= hi {
      err := None;
    } else if n > 0 && err == Some(Eof) {
      err := Some(UnexpectedEof);
    }
  }

  // ---------- Lengths ----------

  function PutUint32(n: nat): (h: string)
    requires n < TWO_TO_THE_32
    ensures |h| == 4
  {
    [(n / 0x100_0000) as char, (n / 0x1_0000 % 0x100) as char, (n / 0x100 % 0x100) as char, (n % 0x100) as char]
  }

  function Uint32(h: string): nat
    requires |h| >= 4
  {
    BigEndian(h[0] as int, h[1] as int, h[2] as int, h[3] as int)
  }

  function BigEndian(a: nat, b: nat, c: nat, d: nat): nat {
    a * 0x100_0000 + b * 0x1_0000 + c * 0x100 + d
  }

  lemma Digits256(n: nat)
    ensures BigEndian(n / 0x100_0000, n / 0x1_0000 % 0x100, n / 0x100 % 0x100, n % 0x100) == n
  {
    var q := n / 0x100;
    assert q / 0x100 == n / 0x1_0000 && q / 0x100 / 0x100 == n / 0x100_0000;
    assert n == 0x100 * q + n % 0x100;
    assert q == 0x100 * (q / 0x100) + q % 0x100;
  }

  lemma Uint32OfPut(n: nat, rest: string)
    requires n < TWO_TO_THE_32
    ensures Uint32(PutUint32(n) + rest) == n
  {
    hide BigEndian;
    Digits256(n);
  }

  /** The most significant byte comes first. */
  lemma HeaderIsBigEndian(n: nat)
    requires n < TWO_TO_THE_32
    ensures var h := PutUint32(n);
      && (forall i :: 0 <= i < 4 ==> h[i] as int < 256)
      && n == h[0] as int * 0x100_0000 + h[1] as int * 0x1_0000 + h[2] as int * 0x100 + h[3] as int
  {
    Digits256(n);
  }

  // ---------- Reading and writing a frame ----------

  /** unexpected: a clean end inside a frame is an unexpected one. */
  function Unexpected(e: IoError): IoError {
    if e.Eof? then UnexpectedEof else e
  }

  function Delivered(body: string): Outcome {
    match Decode(body)
    case Ok(m) => Received(m)
    case Err(e) => Failed(MalformedError(e))
  }

  function FrameOf(body: string): string
    requires |body| <= MAX_FRAME
  {
    PutUint32(|body|) + body
  }

  /** What a body is answered with: its message, or what is wrong with it. */
  predicate Answers(body: string, o: Outcome) {
    || (o.Received? && Decode(body) == Ok(o.m))
    || (o.Failed? && o.error.MalformedError? && Decode(body) == Err(o.error.decode))
  }

  /** What ReadFrame gives on the bytes to come and how they end, and the bytes it leaves. */
  function NextFrame(data: string, end: End): (r: (Outcome, string))
    ensures |r.1| <= |data|
    ensures |data| > 0 ==> |r.1| < |data|
  {
    if data == "" then (if end.PeerClosed? then Closed else Failed(LinkError(end.Error())), "")
    else if |data| < 4 then (Failed(LinkError(end.Inside())), "")
    else
      var n := Uint32(data);
      if n > MAX_FRAME then (Failed(TooLargeError(n, MAX_FRAME)), data[4..])
      else if |data| < 4 + n then (Failed(LinkError(end.Inside())), "")
      else (Delivered(data[4..4 + n]), data[4 + n..])
  }

  /** The header of ReadFrame: its first byte alone, so that a close before it is told from an
  end inside it, then the other three. */
  method ReadHeader(r: Stream) returns (early: Option<Outcome>, len: nat)
    modifies r
    ensures var data := old(r.Contents());
      if data == "" then
        early == Some(if r.end.PeerClosed? then Closed else Failed(LinkError(r.end.Error()))) && r.Contents() == ""
      else if |data| < 4 then
        early == Some(Failed(LinkError(r.end.Inside()))) && r.Contents() == ""
      else
        early == None && len == Uint32(data) && r.Contents() == data[4..]
  {
    ghost var data := r.Contents();
    len := 0;
    var header := new char[4];
    var n, err := ReadFull(r, header, 0, 1);
    if n == 0 {
      if err == Some(Eof) {
        return Some(Closed), 0;
      }
      return Some(Failed(LinkError(err.value))), 0;
    }
    assert header[..1] == data[..1];
    n, err := ReadFull(r, header, 1, 4);
    assert data[1..][n..] == data[1 + n..];
    if err.Some? {
      return Some(Failed(LinkError(Unexpected(err.value)))), 0;
    }
    assert header[..] == data[..1] + data[1..][..3];
    return None, Uint32(header[..]);
  }

  /** ReadFrame, whatever chunks the stream hands out. */
  method ReadFrame(r: Stream) returns (o: Outcome)
    modifies r
    ensures (o, r.Contents()) == NextFrame(old(r.Contents()), r.end)
    ensures forall body, rest | |body| <= MAX_FRAME && old(r.Contents()) == FrameOf(body) + rest ::
      Answers(body, o) && r.Contents() == rest
  {
    hide Decode, Uint32, Holding, Answers, FrameOf;
    ghost var data := r.Contents();
    WholeFrameAnswered(data, r.end);
    var early, len := ReadHeader(r);
    if early.Some? {
      return early.value;
    }
    if len > MAX_FRAME {
      return Failed(TooLargeError(len, MAX_FRAME));
    }
    var body := new char[len];
    ghost var blank := body[..];
    var n, err := ReadFull(r, body, 0, len);
    if err.Some? {
      return Failed(LinkError(Unexpected(err.value)));
    }
    HoldingAll(blank, data[4..]);
    Slices(data, len);
    assert body[..] == data[4..4 + len];
    match Decode(body[..])
    case Err(e) => return Failed(MalformedError(e));
    case Ok(m) => return Received(m);
  }

  /** If the bytes begin with a whole frame, its body is answered. */
  lemma WholeFrameAnswered(data: string, end: End)
    ensures forall body, rest | |body| <= MAX_FRAME && data == FrameOf(body) + rest ::
      Answers(body, NextFrame(data, end).0) && NextFrame(data, end).1 == rest
  {
    hide NextFrame, Delivered, Answers;
    forall body, rest | |body| <= MAX_FRAME && data == FrameOf(body) + rest
      ensures Answers(body, NextFrame(data, end).0) && NextFrame(data, end).1 == rest
    {
      FrameIsRead(body, rest, end);
    }
  }

  lemma Slices(data: string, len: nat)
    requires 4 + len <= |data|
    ensures data[4..][..len] == data[4..4 + len]
    ensures data[4..][len..] == data[4 + len..]
  {
  }

  /** An io.Writer: what it took, and how many bytes it still takes before it breaks. */
  class Sink {
    var written: string
    var room: Option<nat>

    constructor (room: Option<nat>)
      ensures written == "" && this.room == room
    {
      written := "";
      this.room := room;
    }

    method Write(p: string) returns (ok: bool)
      modifies this
      ensures ok == (old(room).None? || |p| <= old(room).value)
      ensures ok ==> written == old(written) + p
      ensures !ok ==> written == old(written) + p[..old(room).value] && room == Some(0)
      ensures ok ==> room == if old(room).None? then None else Some(old(room).value - |p|)
    {
      if room.None? {
        written := written + p;
        return true;
      }
      if |p| <= room.value {
        written := written + p;
        room := Some(room.value - |p|);
        return true;
      }
      written := written + p[..room.value];
      room := Some(0);
      return false;
    }
  }

  /** WriteFrame: a message over the limit is refused and nothing is written. */
  method WriteFrame(w: Sink, m: Message) returns (r: Result<(), FrameError>)
    modifies w
    ensures r == Err(TooLargeError(|Encoded(m)|, MAX_FRAME)) <==> |Encoded(m)| > MAX_FRAME
    ensures r.Ok? ==> |Encoded(m)| <= MAX_FRAME && w.written == old(w.written) + FrameOf(Encoded(m))
    ensures |Encoded(m)| > MAX_FRAME ==> w.written == old(w.written)
    ensures |Encoded(m)| <= MAX_FRAME ==> (r.Ok? <==> old(w.room).None? || 4 + |Encoded(m)| <= old(w.room).value)
    ensures r.Ok? ==> w.room == if old(w.room).None? then None else Some(old(w.room).value - 4 - |Encoded(m)|)
    ensures |Encoded(m)| <= MAX_FRAME && r.Err? ==>
      r.error.LinkError? && w.written == old(w.written) + FrameOf(Encoded(m))[..old(w.room).value]
  {
    var body := Encode(m);
    if |body| > MAX_FRAME {
      return Err(TooLargeError(|body|, MAX_FRAME));
    }
    var frame := PutUint32(|body|);
    frame := frame + body;
    var ok := w.Write(frame);
    if !ok {
      return Err(LinkError(Fault("write")));
    }
    return Ok(());
  }

  // ---------- Whole sessions ----------

  predicate Continues(o: Outcome) {
    o.Received? || (o.Failed? && o.error.MalformedError?)
  }

  /** What ReadFrame gives when it is called again after every message and every malformed
  body, until the stream ends or a frame is too large. */
  function Session(data: string, end: End): seq<Outcome>
    decreases |data|
  {
    var (o, rest) := NextFrame(data, end);
    if Continues(o) && data != "" then [o] + Session(rest, end) else [o]
  }

  /** Repeated ReadFrame gives the session of the stream's bytes, whatever its chunks. */
  method ReadAll(r: Stream) returns (os: seq<Outcome>)
    modifies r
    ensures os == Session(old(r.Contents()), r.end)
  {
    hide NextFrame;
    os := [];
    var more := true;
    while more
      invariant Session(old(r.Contents()), r.end) == if more then os + Session(r.Contents(), r.end) else os
      decreases |r.Contents()|, more
    {
      ghost var data := r.Contents();
      var o := ReadFrame(r);
      more := Continues(o);
      if more {
        ContinuesOnBytes(data, r.end);
      }
      os := os + [o];
    }
  }

  /** A session that goes on has read at least one byte. */
  lemma ContinuesOnBytes(data: string, end: End)
    requires Continues(NextFrame(data, end).0)
    ensures data != ""
  {
    hide Decode;
  }

  predicate Fit(bodies: seq<string>) {
    forall i :: 0 <= i < |bodies| ==> |bodies[i]| <= MAX_FRAME
  }

  function Frames(bodies: seq<string>): string
    requires Fit(bodies)
  {
    if bodies == [] then "" else FrameOf(bodies[0]) + Frames(bodies[1..])
  }

  /** How many of the frames are whole in the first k bytes. */
  function Whole(bodies: seq<string>, k: nat): (n: nat)
    requires Fit(bodies)
    ensures n <= |bodies|
  {
    if bodies == [] || k < |FrameOf(bodies[0])| then 0
    else 1 + Whole(bodies[1..], k - |FrameOf(bodies[0])|)
  }

  /** Whole counts the frames that end at or before k, so k is on a frame boundary exactly when
  it is where the counted frames end. */
  lemma {:induction false} WholeCounts(bodies: seq<string>, k: nat, j: nat)
    requires Fit(bodies) && j <= |bodies|
    ensures |Frames(bodies[..j])| <= k <==> j <= Whole(bodies, k)
  {
    if j > 0 {
      var len := |FrameOf(bodies[0])|;
      assert bodies[..j][1..] == bodies[1..][..j - 1];
      if k >= len {
        WholeCounts(bodies[1..], k - len, j - 1);
      }
    }
  }

  /** What the session gives on bodies, in order. */
  function Deliveries(bodies: seq<string>): (os: seq<Outcome>)
    ensures |os| == |bodies| && forall i :: 0 <= i < |os| ==> os[i] == Delivered(bodies[i])
  {
    seq(|bodies|, i requires 0 <= i < |bodies| => Delivered(bodies[i]))
  }

  /** A frame is read as a whole and leaves exactly the bytes after it, whatever its body is. */
  lemma FrameIsRead(body: string, rest: string, end: End)
    requires |body| <= MAX_FRAME
    ensures NextFrame(FrameOf(body) + rest, end) == (Delivered(body), rest)
    ensures Answers(body, NextFrame(FrameOf(body) + rest, end).0)
  {
    hide Decode, Uint32;
    var data := FrameOf(body) + rest;
    assert data == PutUint32(|body|) + (body + rest);
    Uint32OfPut(|body|, body + rest);
    assert data[4..4 + |body|] == body;
    assert data[4 + |body|..] == rest;
  }

  /** An over-limit length is refused after exactly its 4 bytes. */
  lemma OverLimitIsRefused(n: nat, rest: string, end: End)
    requires MAX_FRAME < n < TWO_TO_THE_32
    ensures NextFrame(PutUint32(n) + rest, end) == (Failed(TooLargeError(n, MAX_FRAME)), rest)
  {
    Uint32OfPut(n, rest);
    assert (PutUint32(n) + rest)[4..] == rest;
  }

  /** What the end of the stream gives: a close between frames, or an error inside one. */
  function Last(onBoundary: bool, end: End): Outcome {
    if !onBoundary then Failed(LinkError(end.Inside()))
    else if end.PeerClosed? then Closed
    else Failed(LinkError(end.Error()))
  }

  /** A frame that is cut short is a link error. */
  lemma CutFrame(body: string, k: nat, end: End)
    requires |body| <= MAX_FRAME && 0 < k < |FrameOf(body)|
    ensures Session(FrameOf(body)[..k], end) == [Last(false, end)]
  {
    hide Decode, Uint32;
    var data := FrameOf(body)[..k];
    if k >= 4 {
      assert data == PutUint32(|body|) + body[..k - 4];
      Uint32OfPut(|body|, body[..k - 4]);
    }
  }

  lemma SessionStep(body: string, rest: string, end: End)
    requires |body| <= MAX_FRAME
    ensures Session(FrameOf(body) + rest, end) == [Delivered(body)] + Session(rest, end)
  {
    hide Decode, NextFrame;
    FrameIsRead(body, rest, end);
  }

  /** For any bodies, any cut and any end: the session gives the bodies of the frames that are
  whole, in order, and then a clean close exactly when the cut is on a frame boundary. */
  lemma {:induction false} SessionOfFrames(bodies: seq<string>, k: nat, end: End)
    requires Fit(bodies) && k <= |Frames(bodies)|
    ensures var n := Whole(bodies, k);
      && |Frames(bodies[..n])| <= k
      && Session(Frames(bodies)[..k], end) == Deliveries(bodies[..n]) + [Last(k == |Frames(bodies[..n])|, end)]
  {
    hide Delivered, FrameOf, Session, Deliveries, Last, Frames;
    if bodies == [] || k < |FrameOf(bodies[0])| {
      NoWholeFrame(bodies, k, end);
      NoDeliveries(bodies, end, k == 0);
    } else {
      var len := |FrameOf(bodies[0])|;
      var n := Whole(bodies[1..], k - len);
      FramesOf(bodies);
      SessionOfFrames(bodies[1..], k - len, end);
      var rest := Frames(bodies[1..])[..k - len];
      assert Frames(bodies)[..k] == FrameOf(bodies[0]) + rest;
      SessionStep(bodies[0], rest, end);
      FirstFrames(bodies, n);
    }
  }

  lemma FramesOf(bodies: seq<string>)
    requires Fit(bodies) && bodies != []
    ensures Frames(bodies) == FrameOf(bodies[0]) + Frames(bodies[1..])
  {
  }

  lemma NoDeliveries(bodies: seq<string>, end: End, onBoundary: bool)
    ensures bodies[..0] == [] && Deliveries([]) + [Last(onBoundary, end)] == [Last(onBoundary, end)] && |Frames([])| == 0
  {
    assert Deliveries([]) == [];
  }

  lemma NoWholeFrame(bodies: seq<string>, k: nat, end: End)
    requires Fit(bodies) && k <= |Frames(bodies)|
    requires bodies == [] || k < |FrameOf(bodies[0])|
    ensures Session(Frames(bodies)[..k], end) == [Last(k == 0, end)]
  {
    hide Decode;
    if k > 0 {
      assert Frames(bodies)[..k] == FrameOf(bodies[0])[..k];
      CutFrame(bodies[0], k, end);
    }
  }

  lemma FirstFrames(bodies: seq<string>, n: nat)
    requires Fit(bodies) && n < |bodies|
    ensures Frames(bodies[..n + 1]) == FrameOf(bodies[0]) + Frames(bodies[1..][..n])
    ensures Deliveries(bodies[..n + 1]) == [Delivered(bodies[0])] + Deliveries(bodies[1..][..n])
  {
    hide Delivered;
    assert bodies[..n + 1][1..] == bodies[1..][..n];
  }

  // ---------- Sessions of messages ----------

  function Bodies(ms: seq<Message>): (bodies: seq<string>)
    ensures |bodies| == |ms| && forall i :: 0 <= i < |ms| ==> bodies[i] == Encoded(ms[i])
  {
    seq(|ms|, i requires 0 <= i < |ms| => Encoded(ms[i]))
  }

  function Canons(ms: seq<Message>): (os: seq<Outcome>)
    ensures |os| == |ms| && forall i :: 0 <= i < |ms| ==> os[i] == Received(Canon(ms[i]))
  {
    seq(|ms|, i requires 0 <= i < |ms| => Received(Canon(ms[i])))
  }

  /** For any messages that fit, any cut of the written bytes and any end of the stream, the
  reader gets exactly the messages of the whole frames, in order and in canonical form, and
  then a clean close if and only if the peer closed on a frame boundary. */
  lemma SessionOfMessages(ms: seq<Message>, k: nat, end: End)
    requires Fit(Bodies(ms)) && k <= |Frames(Bodies(ms))|
    requires forall i :: 0 <= i < |ms| ==> MessageUtf8(ms[i])
    ensures var n := Whole(Bodies(ms), k); var boundary := k == |Frames(Bodies(ms)[..n])|;
      && n <= |ms|
      && Session(Frames(Bodies(ms))[..k], end) == Canons(ms[..n]) + [Last(boundary, end)]
      && (Last(boundary, end) == Closed <==> boundary && end.PeerClosed?)
  {
    hide Decode, Encoded, Session, Frames, Canon, MessageUtf8;
    var bodies := Bodies(ms);
    var n := Whole(bodies, k);
    SessionOfFrames(bodies, k, end);
    forall i | 0 <= i < n ensures Deliveries(bodies[..n])[i] == Canons(ms[..n])[i] {
      DecodeOfEncode(ms[i]);
    }
    assert Deliveries(bodies[..n]) == Canons(ms[..n]);
  }

  // ---------- Writing a session ----------

  lemma {:induction false} FramesSnoc(bodies: seq<string>, i: nat)
    requires Fit(bodies) && i < |bodies|
    ensures Frames(bodies[..i + 1]) == Frames(bodies[..i]) + FrameOf(bodies[i])
  {
    hide FrameOf;
    if i > 0 {
      assert bodies[..i + 1][1..] == bodies[1..][..i] && bodies[..i][1..] == bodies[1..][..i - 1];
      FramesSnoc(bodies[1..], i - 1);
    } else {
      assert bodies[..1] == [bodies[0]] && bodies[..0] == [] && [bodies[0]][1..] == [];
    }
  }

  lemma {:induction false} FramesSplit(bodies: seq<string>, i: nat)
    requires Fit(bodies) && i <= |bodies|
    ensures Frames(bodies) == Frames(bodies[..i]) + Frames(bodies[i..])
  {
    hide FrameOf;
    if i == 0 {
      assert bodies[..0] == [] && bodies[0..] == bodies;
    } else {
      FramesSplit(bodies[1..], i - 1);
      assert bodies[..i][1..] == bodies[1..][..i - 1] && bodies[1..][i - 1..] == bodies[i..];
      Regroup(FrameOf(bodies[0]), Frames(bodies[1..][..i - 1]), Frames(bodies[i..]));
    }
  }

  lemma Regroup(a: string, b: string, c: string)
    ensures a + (b + c) == a + b + c
  {
  }

  /** The bytes a writer with this room takes of some data. */
  function Taken(room: Option<nat>, data: string): string {
    if room.None? then data else data[..Min(room.value, |data|)]
  }

  /** A writer that breaks in the frame after those written has taken all it takes of the session. */
  lemma BrokenIn(bodies: seq<string>, i: nat, room: nat, before: string)
    requires Fit(bodies) && i < |bodies|
    requires |Frames(bodies[..i])| <= room < |Frames(bodies[..i])| + |FrameOf(bodies[i])|
    ensures room < |Frames(bodies)|
    ensures before + Frames(bodies[..i]) + FrameOf(bodies[i])[..room - |Frames(bodies[..i])|] == before + Taken(Some(room), Frames(bodies))
  {
    hide FrameOf, Frames;
    FramesSnoc(bodies, i);
    FramesSplit(bodies, i + 1);
    var a, b, rest := Frames(bodies[..i]), FrameOf(bodies[i]), Frames(bodies[i + 1..]);
    assert (a + b + rest)[..room] == a + b[..room - |a|];
    Regroup(before, a, b[..room - |a|]);
  }

  /** WriteFrame of one message after the other, up to the first error: the bytes are the frames of
  the session, cut where the writer breaks. */
  method WriteAll(w: Sink, ms: seq<Message>) returns (r: Result<(), FrameError>)
    requires Fit(Bodies(ms))
    modifies w
    ensures w.written == old(w.written) + Taken(old(w.room), Frames(Bodies(ms)))
    ensures r.Ok? <==> Taken(old(w.room), Frames(Bodies(ms))) == Frames(Bodies(ms))
  {
    hide Encoded, FrameOf, Frames;
    ghost var bodies := Bodies(ms);
    ghost var before, room := w.written, w.room;
    NoFrames(bodies, before);
    for i := 0 to |ms|
      invariant w.written == before + Frames(bodies[..i])
      invariant room.None? ==> w.room.None?
      invariant room.Some? ==> w.room.Some? && room.value == w.room.value + |Frames(bodies[..i])|
    {
      FramesSnoc(bodies, i);
      FrameLength(bodies[i]);
      Regroup(before, Frames(bodies[..i]), FrameOf(bodies[i]));
      var sent := WriteFrame(w, ms[i]);
      if sent.Err? {
        BrokenIn(bodies, i, room.value, before);
        return sent;
      }
    }
    assert bodies[..|ms|] == bodies;
    return Ok(());
  }

  lemma NoFrames(bodies: seq<string>, before: string)
    ensures bodies[..0] == [] && before + Frames([]) == before && |Frames([])| == 0
  {
  }

  lemma FrameLength(body: string)
    requires |body| <= MAX_FRAME
    ensures |FrameOf(body)| == 4 + |body|
  {
  }
}
