/**
  The native-messaging framing the worker speaks on its standard streams
  (worker/worker.py, read_message and send_message): every message is a
  4-byte unsigned length in native byte order (`struct` format '=I', taken
  here as little-endian), followed by that many bytes of UTF-8 JSON. The JSON
  body is treated as opaque bytes.
*/
module Framing {
  import opened Common

  newtype byte = x: int | 0 <= x < 256

  /** One more than the largest length a 4-byte unsigned header can carry. */
  const LIMIT: int := 0x1_0000_0000

  /** The value of a 4-byte little-endian header (`struct.unpack('=I', raw)[0]`). */
  function HeaderValue(h: seq<byte>): (n: nat)
    requires |h| == 4
    ensures n < LIMIT
  {
    h[0] as nat + 256 * (h[1] as nat + 256 * (h[2] as nat + 256 * h[3] as nat))
  }

  /** The header `struct.pack('=I', n)` produces. */
  function Header(n: nat): (h: seq<byte>)
    requires n < LIMIT
    ensures |h| == 4
  {
    var q1 := n / 256;
    var q2 := q1 / 256;
    var q3 := q2 / 256;
    [(n % 256) as byte, (q1 % 256) as byte, (q2 % 256) as byte, q3 as byte]
  }

  /** Encoding a length and reading it back gives the length. */
  lemma HeaderRoundTrip(n: nat)
    requires n < LIMIT
    ensures HeaderValue(Header(n)) == n
  {
    var q1 := n / 256;
    var q2 := q1 / 256;
    var q3 := q2 / 256;
    assert n == n % 256 + 256 * q1;
    assert q1 == q1 % 256 + 256 * q2;
    assert q2 == q2 % 256 + 256 * q3;
  }

  /** Every 4-byte header is the encoding of its own value: headers and lengths correspond one to one. */
  lemma HeaderValueInverse(h: seq<byte>)
    requires |h| == 4
    ensures Header(HeaderValue(h)) == h
  {
    var n := HeaderValue(h);
    var r2 := h[2] as nat + 256 * h[3] as nat;
    var r1 := h[1] as nat + 256 * r2;
    assert n == h[0] as nat + 256 * r1;
    assert n % 256 == h[0] as nat && n / 256 == r1;
    assert r1 % 256 == h[1] as nat && r1 / 256 == r2;
    assert r2 % 256 == h[2] as nat && r2 / 256 == h[3] as nat;
  }

  /**
    The bytes `send_message` writes for a body: the header carrying the body's
    length, then the body. A body too long for the header makes `struct.pack`
    raise, which send_message turns into a `False` return with nothing written.
  */
  function Frame(body: seq<byte>): (r: Option<seq<byte>>)
    ensures r.Some? <==> |body| < LIMIT
    ensures r.Some? ==> |r.value| == 4 + |body| && r.value[4..] == body
  {
    if |body| < LIMIT then Some(Header(|body|) + body) else None
  }

  /** One successful `read_message`: the body it returns and the bytes left on the stream. */
  datatype Read = Read(body: seq<byte>, rest: seq<byte>)

  /**
    `read_message` on a stream holding `stream`: no message when fewer than four
    header bytes are there, when the declared body is longer than what follows,
    or when the declared length is zero (reading zero bytes yields `b''`, which
    the `not message_data` test rejects).
  */
  function ReadMessage(stream: seq<byte>): (r: Option<Read>)
    ensures |stream| < 4 ==> r.None?
    ensures r.Some? ==> |r.value.body| > 0 && 4 + |r.value.body| + |r.value.rest| == |stream|
    ensures r.Some? ==> r.value.body == stream[4..4 + |r.value.body|] && r.value.rest == stream[4 + |r.value.body|..]
  {
    if |stream| < 4 then None
    else
      var n := HeaderValue(stream[..4]);
      if n == 0 || |stream| - 4 < n then None
      else Some(Read(stream[4..4 + n], stream[4 + n..]))
  }

  /** Round trip: reading a framed non-empty body returns that body and leaves what followed it. */
  lemma FrameThenRead(body: seq<byte>, rest: seq<byte>)
    requires 0 < |body| < LIMIT
    ensures Frame(body).Some?
    ensures ReadMessage(Frame(body).value + rest) == Some(Read(body, rest))
  {
    var s := Frame(body).value + rest;
    assert s[..4] == Header(|body|);
    HeaderRoundTrip(|body|);
    assert s[4..4 + |body|] == body;
    assert s[4 + |body|..] == rest;
  }

  /** The converse: whatever `read_message` accepts is a frame of the body it returns, followed by the rest. */
  lemma ReadIsFrame(stream: seq<byte>)
    requires ReadMessage(stream).Some?
    ensures var m := ReadMessage(stream).value;
      Frame(m.body).Some? && stream == Frame(m.body).value + m.rest
  {
    var m := ReadMessage(stream).value;
    HeaderValueInverse(stream[..4]);
    assert stream == stream[..4] + m.body + m.rest;
  }

  /** A stream cut anywhere inside a frame yields no message (a short header or a short body). */
  lemma TruncatedFrameUnreadable(body: seq<byte>, k: nat)
    requires 0 < |body| < LIMIT
    requires k < 4 + |body|
    ensures ReadMessage(Frame(body).value[..k]).None?
  {
    var s := Frame(body).value[..k];
    if k >= 4 {
      assert s[..4] == Header(|body|);
      HeaderRoundTrip(|body|);
    }
  }

  /** The zero-length quirk: a frame with an empty body is never read back. */
  lemma EmptyBodyUnreadable(rest: seq<byte>)
    ensures Frame([]).Some?
    ensures ReadMessage(Frame([]).value + rest).None?
  {
    var s := Frame([]).value + rest;
    assert s[..4] == Header(0);
    HeaderRoundTrip(0);
  }

  /**
    The bodies the worker's main loop (`while True: msg = read_message()`)
    obtains from its input before the first read that fails and ends the loop.
  */
  function ReadAll(stream: seq<byte>): (bodies: seq<seq<byte>>)
    ensures forall i :: 0 <= i < |bodies| ==> |bodies[i]| > 0
    decreases |stream|
  {
    match ReadMessage(stream)
    case None => []
    case Some(m) => [m.body] + ReadAll(m.rest)
  }

  /** The concatenated frames of a sequence of bodies, each short enough for its header. */
  function Stream(bodies: seq<seq<byte>>): (s: seq<byte>)
    requires forall i :: 0 <= i < |bodies| ==> |bodies[i]| < LIMIT
  {
    if bodies == [] then [] else Frame(bodies[0]).value + Stream(bodies[1..])
  }

  /** Round trip for a whole conversation: the main loop reads back exactly the bodies that were sent. */
  lemma {:induction false} ReadAllStream(bodies: seq<seq<byte>>)
    requires forall i :: 0 <= i < |bodies| ==> 0 < |bodies[i]| < LIMIT
    ensures ReadAll(Stream(bodies)) == bodies
  {
    if bodies != [] {
      FrameThenRead(bodies[0], Stream(bodies[1..]));
      ReadAllStream(bodies[1..]);
    }
  }
}
