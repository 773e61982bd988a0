/** What the frame reader of packages/api/agentlink/frame.go gives, said of the bytes alone: of one
call for any bytes, and of a whole session. */
module FrameLaw {
  import opened Wrappers
  import opened Decimal
  import opened Protocol
  import opened WireDecode
  import opened Frame

  // ---------- One frame ----------

  predicate Bytes(data: string) {
    forall i :: 0 <= i < |data| ==> data[i] as int < 0x100
  }

  /** The data begin with a whole frame of this body. */
  predicate Starts(data: string, body: string) {
    |body| <= MAX_FRAME && FrameOf(body) <= data
  }

  /** The data begin with this length. */
  predicate StartsLength(data: string, n: nat) {
    n < TWO_TO_THE_32 && PutUint32(n) <= data
  }

  /** The data end inside a frame: inside its length, or before as many bytes as that says. */
  ghost predicate Cut(data: string) {
    data != "" && (|data| < 4 || exists n: nat :: StartsLength(data, n) && n <= MAX_FRAME && |data| < 4 + n)
  }

  /** The outcome o, and the bytes that are left. */
  ghost predicate Gives(data: string, end: End, o: Outcome, rest: string) {
    match o
    case Closed => data == "" && rest == "" && end.PeerClosed?
    case Received(m) => exists body :: Starts(data, body) && data == FrameOf(body) + rest && Decode(body) == Ok(m)
    case Failed(MalformedError(e)) =>
      exists body :: Starts(data, body) && data == FrameOf(body) + rest && Decode(body) == Err(e)
    case Failed(TooLargeError(n, max)) =>
      max == 1024 * 1024 && n > max && StartsLength(data, n) && data == PutUint32(n) + rest
    case Failed(LinkError(e)) =>
      rest == "" && if data == "" then end.Broken? && e == Fault(end.error) else Cut(data) && e == LostInside(end)
  }

  /** The error of a stream that ends inside a frame. */
  function LostInside(end: End): IoError {
    match end
    case PeerClosed => UnexpectedEof
    case Broken(error) => Fault(error)
  }

  lemma LengthIsPut(data: string)
    requires Bytes(data) && |data| >= 4
    ensures StartsLength(data, Uint32(data))
  {
    var a, b, c, d := data[0] as int, data[1] as int, data[2] as int, data[3] as int;
    var n := Uint32(data);
    assert n == a * 0x100_0000 + b * 0x1_0000 + c * 0x100 + d;
    assert n / 0x100 == a * 0x1_0000 + b * 0x100 + c && n % 0x100 == d;
    assert n / 0x1_0000 == a * 0x100 + b && n / 0x100 % 0x100 == c;
    assert n / 0x100_0000 == a && n / 0x1_0000 % 0x100 == b;
    assert PutUint32(n) == data[..4];
  }

  lemma OneLength(data: string, n: nat)
    requires StartsLength(data, n)
    ensures |data| >= 4 && n == Uint32(data)
  {
    assert data == PutUint32(n) + data[4..];
    Uint32OfPut(n, data[4..]);
  }

  lemma CutIsShort(data: string)
    requires Bytes(data) && data != ""
    ensures Cut(data) <==> |data| < 4 || (Uint32(data) <= MAX_FRAME && |data| < 4 + Uint32(data))
  {
    hide Uint32, PutUint32;
    if |data| >= 4 {
      LengthIsPut(data);
      forall n: nat | StartsLength(data, n) ensures n == Uint32(data) {
        OneLength(data, n);
      }
    }
  }

  /** One outcome fits the data at most. */
  lemma GivesAtMostOne(data: string, end: End, o: Outcome, rest: string)
    requires Bytes(data) && Gives(data, end, o, rest)
    ensures (o, rest) == NextFrame(data, end)
  {
    hide Uint32, PutUint32, Decode, NextFrame, Delivered;
    match o
    case Closed => NoData(end);
    case Received(m) =>
      var body :| Starts(data, body) && data == FrameOf(body) + rest && Decode(body) == Ok(m);
      FrameIsRead(body, rest, end);
    case Failed(MalformedError(e)) =>
      var body :| Starts(data, body) && data == FrameOf(body) + rest && Decode(body) == Err(e);
      FrameIsRead(body, rest, end);
    case Failed(TooLargeError(n, max)) => OverLimitIsRefused(n, rest, end);
    case Failed(LinkError(e)) =>
      if data == "" {
        NoData(end);
      } else {
        CutIsShort(data);
        CutIsLost(data, end);
      }
  }

  lemma NoData(end: End)
    ensures NextFrame("", end) == (if end.PeerClosed? then Closed else Failed(LinkError(end.Error())), "")
  {
  }

  lemma CutIsLost(data: string, end: End)
    requires data != "" && (|data| < 4 || (Uint32(data) <= MAX_FRAME && |data| < 4 + Uint32(data)))
    ensures NextFrame(data, end) == (Failed(LinkError(LostInside(end))), "")
  {
    hide Uint32, Delivered;
  }

  /** One outcome fits any data. */
  lemma GivesOne(data: string, end: End) returns (o: Outcome, rest: string)
    requires Bytes(data)
    ensures Gives(data, end, o, rest)
  {
    hide Uint32, PutUint32, Decode;
    if data == "" {
      o, rest := if end.PeerClosed? then Closed else Failed(LinkError(end.Error())), "";
      return;
    }
    CutIsShort(data);
    if Cut(data) {
      return Failed(LinkError(LostInside(end))), "";
    }
    LengthIsPut(data);
    var n := Uint32(data);
    if n > MAX_FRAME {
      assert data == PutUint32(n) + data[4..];
      return Failed(TooLargeError(n, MAX_FRAME)), data[4..];
    }
    var body := data[4..4 + n];
    rest := data[4 + n..];
    assert data == PutUint32(n) + body + rest;
    assert Starts(data, body);
    o := match Decode(body) case Ok(m) => Received(m) case Err(e) => Failed(MalformedError(e));
  }

  /** For any bytes and any end: what one call gives and leaves. */
  lemma NextFrameIs(data: string, end: End, o: Outcome, rest: string)
    requires Bytes(data)
    ensures NextFrame(data, end) == (o, rest) <==> Gives(data, end, o, rest)
  {
    hide NextFrame, Gives;
    var p, left := GivesOne(data, end);
    GivesAtMostOne(data, end, p, left);
    if Gives(data, end, o, rest) {
      GivesAtMostOne(data, end, o, rest);
    }
  }

  // ---------- A whole session ----------

  /** For any bodies, any cut and any end: the answers to the bodies of the whole frames, in order, and
  then the end, which is a clean close exactly if the peer closed on a frame boundary. */
  lemma SessionAnswers(bodies: seq<string>, k: nat, end: End)
    requires Fit(bodies) && k <= |Frames(bodies)|
    ensures var n, s := Whole(bodies, k), Session(Frames(bodies)[..k], end);
      && |s| == n + 1
      && (forall i :: 0 <= i < n ==> Answers(bodies[i], s[i]))
      && (k == |Frames(bodies[..n])| ==> s[n] == if end.PeerClosed? then Closed else Failed(LinkError(Fault(end.error))))
      && (k > |Frames(bodies[..n])| ==> s[n] == Failed(LinkError(LostInside(end))))
  {
    hide Session, Frames, Answers, Delivered, Whole;
    var n := Whole(bodies, k);
    SessionOfFrames(bodies, k, end);
    forall i | 0 <= i < n ensures Answers(bodies[i], Delivered(bodies[i])) {
      BodyIsAnswered(bodies[i]);
    }
  }

  lemma BodyIsAnswered(body: string)
    ensures Answers(body, Delivered(body))
  {
    hide Decode;
  }
}
