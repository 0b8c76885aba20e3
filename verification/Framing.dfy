// Length-prefixed JSON frames over a byte stream whose `recv` may return any
// non-empty piece of what it was asked for.

module Framing {
  import opened Json
  import opened JsonDecoder
  import opened Lists
  import opened Wrappers

  type Byte = n: nat | n < 256

  const MAX_FRAME: nat := 4 * 1024 * 1024

  datatype FrameError = ClosedEarly | InvalidSize(size: nat) | InvalidUtf8 | InvalidJson | NotAnObject | TooLongToPack

  datatype Result<+T> = Ok(value: T) | Err(error: FrameError)

  // UTF-8 itself is not modelled: decoding undoes encoding, and no text shrinks.
  datatype Codec = Codec(encode: string -> seq<Byte>, decode: seq<Byte> -> Option<string>)

  ghost predicate Faithful(c: Codec) {
    forall s :: c.decode(c.encode(s)) == Some(s) && |c.encode(s)| >= |s|
  }

  // ---- struct.pack("<I", n) and struct.unpack ----

  function Pack(n: nat): (h: seq<Byte>)
    requires n < 0x1_0000_0000
    ensures |h| == 4
  {
    [n % 256, n / 0x100 % 256, n / 0x1_0000 % 256, n / 0x100_0000]
  }

  function Unpack(h: seq<Byte>): (n: nat)
    requires |h| == 4
    ensures n < 0x1_0000_0000
  {
    var (a: nat, b: nat, c: nat, d: nat) := (h[0], h[1], h[2], h[3]);
    a + b * 0x100 + c * 0x1_0000 + d * 0x100_0000
  }

  lemma UnpackPack(n: nat)
    requires n < 0x1_0000_0000
    ensures Unpack(Pack(n)) == n
  {
    assert n / 0x100 / 0x100 == n / 0x1_0000 && n / 0x1_0000 / 0x100 == n / 0x100_0000;
  }

  lemma PackUnpack(h: seq<Byte>)
    requires |h| == 4
    ensures Pack(Unpack(h)) == h
  {
    var n := Unpack(h);
    var b: nat, c: nat, d: nat := h[1], h[2], h[3];
    assert n / 0x100 == b + c * 0x100 + d * 0x1_0000;
    assert n / 0x1_0000 == c + d * 0x100;
    assert n / 0x100_0000 == d;
  }

  function Power256(i: nat): (p: nat)
    ensures p > 0
  {
    if i == 0 then 1 else 256 * Power256(i - 1)
  }

  /** The number a little-endian header spells: its i-th byte counts for 256 to the power i. */
  function LittleEndian(h: seq<Byte>): nat {
    if h == [] then 0 else LittleEndian(h[..|h| - 1]) + h[|h| - 1] * Power256(|h| - 1)
  }

  lemma Powers()
    ensures Power256(0) == 1 && Power256(1) == 0x100 && Power256(2) == 0x1_0000 && Power256(3) == 0x100_0000
  {}

  /** A header is read with its least significant byte first. */
  lemma UnpackIsLittleEndian(h: seq<Byte>)
    requires |h| == 4
    ensures Unpack(h) == LittleEndian(h)
  {
    Powers();
    assert h[..3][..2] == h[..2] && h[..2][..1] == h[..1] && h[..1][..0] == [];
    var (a: nat, b: nat, d: nat) := (h[0], h[1], h[2]);
    assert LittleEndian(h[..1]) == a && LittleEndian(h[..2]) == a + b * 0x100;
    assert LittleEndian(h[..3]) == a + b * 0x100 + d * 0x1_0000;
  }

  /** A header is written with its least significant byte first. */
  lemma PackDigit(n: nat, i: nat)
    requires n < 0x1_0000_0000 && i < 4
    ensures Pack(n)[i] == n / Power256(i) % 256
  {
    Powers();
  }

  // ---- The socket ----

  class Socket {
    var incoming: seq<Byte>  // what the peer still delivers before it closes
    var sent: seq<Byte>      // what has been handed to the peer

    constructor (stream: seq<Byte>)
      ensures incoming == stream && sent == []
    {
      incoming, sent := stream, [];
    }

    /** Some non-empty piece of at most n bytes; nothing once the peer has closed. */
    method Recv(n: nat) returns (chunk: seq<Byte>)
      requires n > 0
      modifies this`incoming
      ensures |chunk| <= n && old(incoming) == chunk + incoming
      ensures chunk == [] <==> old(incoming) == []
    {
      if incoming == [] {
        chunk := [];
      } else {
        var k: nat :| 1 <= k <= n && k <= |incoming|;
        chunk := incoming[..k];
        incoming := incoming[k..];
      }
    }

    method SendAll(data: seq<Byte>)
      modifies this`sent
      ensures sent == old(sent) + data
    {
      sent := sent + data;
    }
  }

  method ReadExact(sock: Socket, size: nat) returns (r: Result<seq<Byte>>)
    modifies sock`incoming
    ensures size <= |old(sock.incoming)| ==>
      r == Ok(old(sock.incoming)[..size]) && sock.incoming == old(sock.incoming)[size..]
    ensures size > |old(sock.incoming)| ==> r == Err(ClosedEarly) && sock.incoming == []
  {
    var chunks: seq<seq<Byte>> := [];
    var remaining := size;
    while remaining > 0
      invariant 0 <= remaining <= size
      invariant |Concat(chunks)| == size - remaining
      invariant old(sock.incoming) == Concat(chunks) + sock.incoming
    {
      var chunk := sock.Recv(remaining);
      if chunk == [] {
        return Err(ClosedEarly);
      }
      ConcatNext(chunks, chunk);
      chunks := chunks + [chunk];
      remaining := remaining - |chunk|;
    }
    r := Ok(Concat(chunks));
  }

  // ---- Frames ----

  /** The text's length fits the four-byte prefix. */
  predicate Packable(c: Codec, payload: Json) {
    |c.encode(CanonicalJson(payload))| < 0x1_0000_0000
  }

  /** The bytes of one frame: length, then the compact key-sorted text. */
  function Frame(c: Codec, payload: Json): seq<Byte>
    requires Packable(c, payload)
  {
    var raw := c.encode(CanonicalJson(payload));
    Pack(|raw|) + raw
  }

  method WriteFrame(c: Codec, sock: Socket, payload: Json) returns (r: Result<()>)
    modifies sock`sent
    ensures Packable(c, payload) ==>
      r == Ok(()) && sock.sent == old(sock.sent) + Frame(c, payload)
    ensures !Packable(c, payload) ==>
      r == Err(TooLongToPack) && sock.sent == old(sock.sent)
  {
    var raw := c.encode(CanonicalJson(payload));
    if |raw| >= 0x1_0000_0000 {
      return Err(TooLongToPack);
    }
    sock.SendAll(Pack(|raw|));
    sock.SendAll(raw);
    r := Ok(());
  }

  /** The body of a frame as the reader interprets it. */
  function DecodeBody(c: Codec, raw: seq<Byte>): Result<Json> {
    match c.decode(raw)
    case None => Err(InvalidUtf8)
    case Some(text) =>
      match Loads(text)
      case None => Err(InvalidJson)
      case Some(v) => if v.Obj? then Ok(v) else Err(NotAnObject)
  }

  /** What reading one frame from a stream yields, and the bytes left, whatever the chunking. */
  function ReadSpec(c: Codec, stream: seq<Byte>): (r: (Result<Json>, seq<Byte>))
    ensures r.0.Ok? ==> |r.1| < |stream|
  {
    if |stream| < 4 then (Err(ClosedEarly), [])
    else
      var size := Unpack(stream[..4]);
      var rest := stream[4..];
      if !(0 < size <= MAX_FRAME) then (Err(InvalidSize(size)), rest)
      else if |rest| < size then (Err(ClosedEarly), [])
      else (DecodeBody(c, rest[..size]), rest[size..])
  }

  method ReadFrame(c: Codec, sock: Socket) returns (r: Result<Json>)
    modifies sock`incoming
    ensures (r, sock.incoming) == ReadSpec(c, old(sock.incoming))
  {
    var header := ReadExact(sock, 4);
    if header.Err? {
      return Err(header.error);
    }
    var size := Unpack(header.value);
    if !(0 < size <= MAX_FRAME) {
      return Err(InvalidSize(size));
    }
    var raw := ReadExact(sock, size);
    if raw.Err? {
      return Err(raw.error);
    }
    r := DecodeBody(c, raw.value);
  }

  /** The bytes of a frame whose text is shorter than 256 bytes. */
  lemma ShortFrame(c: Codec, payload: Json)
    requires |c.encode(CanonicalJson(payload))| < 256
    ensures Packable(c, payload)
    ensures Frame(c, payload) == [|c.encode(CanonicalJson(payload))|, 0, 0, 0] + c.encode(CanonicalJson(payload))
  {}

  /** The frame of an empty object, byte by byte. */
  lemma EmptyObjectFrame(c: Codec)
    requires c.encode("{}") == [0x7b, 0x7d]
    ensures Packable(c, Obj([])) && Frame(c, Obj([])) == [2, 0, 0, 0, 0x7b, 0x7d]
  {
    assert CanonicalJson(Obj([])) == "{}";
  }

  /** The stream starts with this frame body, behind a header that gives its size. */
  ghost predicate StartsWithBody(stream: seq<Byte>, raw: seq<Byte>, rest: seq<Byte>) {
    && |stream| >= 4 && LittleEndian(stream[..4]) == |raw| && 1 <= |raw| <= 4_194_304
    && stream[4..] == raw + rest
  }

  /** A frame is read exactly when a whole body of a legal size stands there and holds an object. */
  lemma ReadOkIff(c: Codec, stream: seq<Byte>, v: Json, rest: seq<Byte>)
    ensures ReadSpec(c, stream) == (Ok(v), rest) <==>
      exists raw :: StartsWithBody(stream, raw, rest) && c.decode(raw).Some? && Loads(c.decode(raw).value) == Some(v)
                    && v.Obj?
  {
    if |stream| >= 4 {
      UnpackIsLittleEndian(stream[..4]);
    }
    if ReadSpec(c, stream) == (Ok(v), rest) {
      var size, tail := Unpack(stream[..4]), stream[4..];
      assert tail == tail[..size] + rest;
      assert StartsWithBody(stream, tail[..size], rest);
    }
    forall raw | StartsWithBody(stream, raw, rest)
      ensures ReadSpec(c, stream) == (DecodeBody(c, raw), rest) {
      assert (raw + rest)[..|raw|] == raw && (raw + rest)[|raw|..] == rest;
    }
  }

  /** Which error each failing read gives. */
  lemma ReadFailsIff(c: Codec, stream: seq<Byte>, size: nat)
    requires |stream| >= 4 ==> size == LittleEndian(stream[..4])
    ensures var r := ReadSpec(c, stream).0; var legal := 1 <= size <= 4_194_304;
      && (r == Err(ClosedEarly) <==> |stream| < 4 || (legal && |stream| - 4 < size))
      && (r.Err? && r.error.InvalidSize? <==> |stream| >= 4 && !legal)
      && (r == Err(InvalidUtf8) <==> |stream| >= 4 && legal && |stream| - 4 >= size
                                     && c.decode(stream[4..][..size]).None?)
      && (r == Err(InvalidJson) <==> |stream| >= 4 && legal && |stream| - 4 >= size
                                     && c.decode(stream[4..][..size]).Some?
                                     && Loads(c.decode(stream[4..][..size]).value).None?)
  {
    if |stream| >= 4 {
      UnpackIsLittleEndian(stream[..4]);
    }
  }

  // ---- Round trips ----

  /** A payload write_frame accepts and whose frame the reader's size limit admits. */
  ghost predicate Fits(c: Codec, payload: Json) {
    && payload.Obj? && Held(payload) && PairFreeTexts(payload)
    && Packable(c, payload) && |c.encode(CanonicalJson(payload))| <= 4_194_304
  }

  ghost predicate AllFit(c: Codec, payloads: seq<Json>) {
    forall i | 0 <= i < |payloads| :: Packable(c, payloads[i]) && Fits(c, payloads[i])
  }

  /** A frame reads back exactly when it is within the limit, and then only its own bytes are consumed. */
  lemma FrameReadsBackIff(c: Codec, payload: Json, rest: seq<Byte>)
    requires Faithful(c) && payload.Obj? && Held(payload) && PairFreeTexts(payload)
    requires Packable(c, payload)
    ensures ReadSpec(c, Frame(c, payload) + rest) == (Ok(SortKeys(payload)), rest)
       <==> |c.encode(CanonicalJson(payload))| <= 4_194_304
    ensures Same(payload, SortKeys(payload))
  {
    var raw := c.encode(CanonicalJson(payload));
    CanonicalJsonLoadsIff(payload);
    assert CanonicalJson(payload) != "";
    ReadOfFrame(c, raw, rest);
    SortKeysOfRebuilt(payload, Keep);
    RebuildKeepsDicts(payload, Keep);
    SortKeysIsCanonical(payload, SortKeys(payload));
  }

  lemma ReadOfFrame(c: Codec, raw: seq<Byte>, rest: seq<Byte>)
    requires 0 < |raw| < 0x1_0000_0000
    ensures ReadSpec(c, Pack(|raw|) + raw + rest)
      == if |raw| <= MAX_FRAME then (DecodeBody(c, raw), rest) else (Err(InvalidSize(|raw|)), raw + rest)
  {
    var s := Pack(|raw|) + raw + rest;
    UnpackPack(|raw|);
    assert s[..4] == Pack(|raw|) && s[4..] == raw + rest;
    assert (raw + rest)[..|raw|] == raw && (raw + rest)[|raw|..] == rest;
  }

  function Frames(c: Codec, payloads: seq<Json>): seq<Byte>
    requires forall i | 0 <= i < |payloads| :: Packable(c, payloads[i])
  {
    if payloads == [] then [] else Frame(c, payloads[0]) + Frames(c, payloads[1..])
  }

  /** Reading frame after frame until the stream ends on a boundary (None) or a read fails. */
  function ReadAll(c: Codec, stream: seq<Byte>): (seq<Json>, Option<FrameError>)
    decreases |stream|
  {
    if stream == [] then ([], None)
    else
      var r := ReadSpec(c, stream);
      if r.0.Err? then ([], Some(r.0.error))
      else
        var more := ReadAll(c, r.1);
        ([r.0.value] + more.0, more.1)
  }

  // What has been read, followed by what the rest of the stream yields, is what the whole stream yields.
  ghost predicate ReadSoFar(c: Codec, stream: seq<Byte>, payloads: seq<Json>, rest: seq<Byte>) {
    ReadAll(c, stream).0 == payloads + ReadAll(c, rest).0 && ReadAll(c, stream).1 == ReadAll(c, rest).1
  }

  lemma ReadOneMore(c: Codec, stream: seq<Byte>, payloads: seq<Json>, rest: seq<Byte>)
    requires ReadSoFar(c, stream, payloads, rest) && rest != []
    ensures var r := ReadSpec(c, rest);
      if r.0.Err? then ReadAll(c, stream).0 == payloads && ReadAll(c, stream).1 == Some(r.0.error)
      else ReadSoFar(c, stream, payloads + [r.0.value], r.1)
  {
    var r := ReadSpec(c, rest);
    if r.0.Ok? {
      Assoc(payloads, [r.0.value], ReadAll(c, r.1).0);
    } else {
      assert payloads + [] == payloads;
    }
  }

  /** Reading frame after frame from a socket does just that, however its bytes arrive. */
  method ReadFrames(c: Codec, sock: Socket) returns (payloads: seq<Json>, error: Option<FrameError>)
    modifies sock`incoming
    ensures (payloads, error) == ReadAll(c, old(sock.incoming))
  {
    ghost var stream := sock.incoming;
    payloads, error := [], None;
    while sock.incoming != []
      invariant error == None && ReadSoFar(c, stream, payloads, sock.incoming)
      decreases |sock.incoming|
    {
      ReadOneMore(c, stream, payloads, sock.incoming);
      var r := ReadFrame(c, sock);
      if r.Err? {
        return payloads, Some(r.error);
      }
      payloads := payloads + [r.value];
    }
    assert payloads + [] == payloads;
  }

  function SortAll(payloads: seq<Json>): (r: seq<Json>)
    ensures |r| == |payloads| && forall i :: 0 <= i < |r| ==> r[i] == SortKeys(payloads[i])
  {
    seq(|payloads|, i requires 0 <= i < |payloads| => SortKeys(payloads[i]))
  }

  // Reading from a stream that starts with a fitting frame.
  lemma ReadAllFrame(c: Codec, payload: Json, rest: seq<Byte>)
    requires Faithful(c) && Packable(c, payload) && Fits(c, payload)
    ensures ReadAll(c, Frame(c, payload) + rest) == ([SortKeys(payload)] + ReadAll(c, rest).0, ReadAll(c, rest).1)
  {
    FrameReadsBackIff(c, payload, rest);
    assert Frame(c, payload) + rest != [];
  }

  lemma SortAllCons(payloads: seq<Json>)
    requires payloads != []
    ensures SortAll(payloads) == [SortKeys(payloads[0])] + SortAll(payloads[1..])
  {}

  // What a stream that starts with fitting frames yields.
  lemma {:induction false} ReadAllFrames(c: Codec, payloads: seq<Json>, rest: seq<Byte>)
    requires Faithful(c) && AllFit(c, payloads)
    ensures ReadAll(c, Frames(c, payloads) + rest) == (SortAll(payloads) + ReadAll(c, rest).0, ReadAll(c, rest).1)
  {
    if payloads == [] {
      assert Frames(c, payloads) + rest == rest;
      assert SortAll(payloads) + ReadAll(c, rest).0 == ReadAll(c, rest).0;
    } else {
      var tail := payloads[1..];
      ReadAllFrames(c, tail, rest);
      assert Frames(c, payloads) + rest == Frame(c, payloads[0]) + (Frames(c, tail) + rest);
      ReadAllFrame(c, payloads[0], Frames(c, tail) + rest);
      SortAllCons(payloads);
      Assoc([SortKeys(payloads[0])], SortAll(tail), ReadAll(c, rest).0);
    }
  }

  /** Any list of payloads comes back whole, in order, ending on a frame boundary. */
  lemma FramesRoundTrip(c: Codec, payloads: seq<Json>)
    requires Faithful(c) && AllFit(c, payloads)
    ensures ReadAll(c, Frames(c, payloads)) == (SortAll(payloads), None)
  {
    ReadAllFrames(c, payloads, []);
    assert Frames(c, payloads) + [] == Frames(c, payloads);
    assert SortAll(payloads) + [] == SortAll(payloads);
  }

  lemma CutFrameFails(c: Codec, payload: Json, k: nat)
    requires Faithful(c) && Fits(c, payload) && 0 < k < |Frame(c, payload)|
    ensures ReadSpec(c, Frame(c, payload)[..k]) == (Err(ClosedEarly), [])
  {
    var raw := c.encode(CanonicalJson(payload));
    UnpackPack(|raw|);
    assert CanonicalJson(payload) != "";
    if k >= 4 {
      assert Frame(c, payload)[..k][..4] == Pack(|raw|);
    }
  }

  /** The number of whole frames within the first k bytes. */
  function WholeFrames(c: Codec, payloads: seq<Json>, k: nat): (n: nat)
    requires forall i | 0 <= i < |payloads| :: Packable(c, payloads[i])
    ensures n <= |payloads|
  {
    if payloads == [] || k < |Frame(c, payloads[0])| then 0
    else 1 + WholeFrames(c, payloads[1..], k - |Frame(c, payloads[0])|)
  }

  lemma FramesOfPrefix(c: Codec, payloads: seq<Json>, n: nat)
    requires n < |payloads| && forall i | 0 <= i < |payloads| :: Packable(c, payloads[i])
    ensures Frames(c, payloads[..n + 1]) == Frame(c, payloads[0]) + Frames(c, payloads[1..][..n])
  {
    assert payloads[..n + 1][1..] == payloads[1..][..n];
  }

  lemma FramesLength(c: Codec, payloads: seq<Json>, n: nat)
    requires n < |payloads| && forall i | 0 <= i < |payloads| :: Packable(c, payloads[i])
    ensures |Frames(c, payloads[..n + 1])| == |Frame(c, payloads[0])| + |Frames(c, payloads[1..][..n])|
  {
    FramesOfPrefix(c, payloads, n);
  }

  /** n is the largest number of frames that fit in k bytes. */
  ghost predicate IsLargest(c: Codec, payloads: seq<Json>, k: int, n: nat)
    requires n <= |payloads| && forall i | 0 <= i < |payloads| :: Packable(c, payloads[i])
  {
    |Frames(c, payloads[..n])| <= k && (n < |payloads| ==> k < |Frames(c, payloads[..n + 1])|)
  }

  lemma LargestAfterFrame(c: Codec, payloads: seq<Json>, k: nat, n: nat)
    requires n < |payloads| && forall i | 0 <= i < |payloads| :: Packable(c, payloads[i])
    requires IsLargest(c, payloads[1..], k - |Frame(c, payloads[0])|, n)
    ensures IsLargest(c, payloads, k, n + 1)
  {
    FramesLength(c, payloads, n);
    if n + 1 < |payloads| {
      FramesLength(c, payloads, n + 1);
    }
  }

  /** WholeFrames is the largest n whose first n frames fit in k bytes. */
  lemma {:induction false} WholeFramesIsMaximal(c: Codec, payloads: seq<Json>, k: nat)
    requires forall i | 0 <= i < |payloads| :: Packable(c, payloads[i])
    ensures IsLargest(c, payloads, k, WholeFrames(c, payloads, k))
  {
    if payloads != [] {
      if k < |Frame(c, payloads[0])| {
        FramesLength(c, payloads, 0);
      } else {
        var j := k - |Frame(c, payloads[0])|;
        WholeFramesIsMaximal(c, payloads[1..], j);
        LargestAfterFrame(c, payloads, k, WholeFrames(c, payloads[1..], j));
      }
    }
  }

  lemma {:induction false} FramesSplit(c: Codec, payloads: seq<Json>, n: nat)
    requires n <= |payloads| && forall i | 0 <= i < |payloads| :: Packable(c, payloads[i])
    ensures Frames(c, payloads) == Frames(c, payloads[..n]) + Frames(c, payloads[n..])
    decreases n
  {
    if n > 0 {
      var tail := payloads[1..];
      FramesSplit(c, tail, n - 1);
      FramesOfPrefix(c, payloads, n - 1);
      assert tail[n - 1..] == payloads[n..];
      Assoc(Frame(c, payloads[0]), Frames(c, tail[..n - 1]), Frames(c, payloads[n..]));
    } else {
      assert payloads[0..] == payloads && payloads[..0] == [];
      assert [] + Frames(c, payloads) == Frames(c, payloads);
    }
  }

  // The bytes of a stream up to k: n whole frames, then a piece of the next.
  lemma CutPieces(c: Codec, payloads: seq<Json>, k: nat, n: nat)
    requires n < |payloads| && forall i | 0 <= i < |payloads| :: Packable(c, payloads[i])
    requires k <= |Frames(c, payloads)| && IsLargest(c, payloads, k, n)
    ensures var j := k - |Frames(c, payloads[..n])|;
      && 0 <= j < |Frame(c, payloads[n])|
      && Frames(c, payloads)[..k] == Frames(c, payloads[..n]) + Frame(c, payloads[n])[..j]
  {
    FramesSplit(c, payloads, n);
    FramesSplit(c, payloads[..n + 1], n);
    assert payloads[..n + 1][..n] == payloads[..n] && payloads[..n + 1][n..] == [payloads[n]];
    assert Frames(c, [payloads[n]]) == Frame(c, payloads[n]);
    assert payloads[n..][0] == payloads[n];
  }

  /** A stream cut after k bytes yields exactly its whole frames, then an error unless cut on a boundary. */
  lemma TruncatedStream(c: Codec, payloads: seq<Json>, k: nat)
    requires Faithful(c) && AllFit(c, payloads) && k <= |Frames(c, payloads)|
    ensures var n := WholeFrames(c, payloads, k);
      ReadAll(c, Frames(c, payloads)[..k])
        == (SortAll(payloads[..n]), if |Frames(c, payloads[..n])| == k then None else Some(ClosedEarly))
  {
    var n := WholeFrames(c, payloads, k);
    WholeFramesIsMaximal(c, payloads, k);
    if n == |payloads| {
      assert payloads[..n] == payloads && Frames(c, payloads)[..k] == Frames(c, payloads);
      FramesRoundTrip(c, payloads);
    } else {
      CutPieces(c, payloads, k, n);
      var j := k - |Frames(c, payloads[..n])|;
      ReadAllFrames(c, payloads[..n], Frame(c, payloads[n])[..j]);
      if j > 0 {
        CutFrameFails(c, payloads[n], j);
      }
      assert SortAll(payloads[..n]) + [] == SortAll(payloads[..n]);
    }
  }

  // ---- Fixed-point counters in a snapshot ----

  const FIXED_POINT_SCALE: nat := 1_000_000

  /** Whole units of a non-negative exact multiple of the scale, -1 for anything else. */
  function FixedRawToUnits(raw: int): (units: int)
    ensures units >= 0 ==> units * FIXED_POINT_SCALE == raw
    ensures units >= 0 <==> exists u: nat :: u * FIXED_POINT_SCALE == raw
    ensures units >= -1
  {
    if raw < 0 || raw % FIXED_POINT_SCALE != 0 then -1
    else
      assert (raw / FIXED_POINT_SCALE) * FIXED_POINT_SCALE == raw;
      raw / FIXED_POINT_SCALE
  }
}
