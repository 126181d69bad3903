/** The wire format of internal/protoframing: a 4-byte big-endian length, then the payload. */
module Framing {
  import opened Base

  const HEADER_SIZE := 4
  const MAX_FRAME := 64 * 1024

  datatype FrameError = ShortFrame | FrameTooLarge

  datatype Decoded = Payload(payload: Bytes, rest: Bytes) | DecodeError(error: FrameError)

  datatype Encoded = Frame(frame: Bytes) | EncodeError(error: FrameError)

  /** binary.BigEndian.Uint32. */
  function Uint32(b: Bytes): nat
    requires |b| == 4
  {
    (b[0] as int) * 0x1000000 + (b[1] as int) * 0x10000 + (b[2] as int) * 0x100 + (b[3] as int)
  }

  /** byte(n >> k): a shift, then the low eight bits; shift is 2 to the k. */
  function ByteAt(n: nat, shift: nat): Byte
    requires shift > 0
  {
    n / shift % 256
  }

  function Header(n: nat): Bytes {
    [ByteAt(n, 0x1000000), ByteAt(n, 0x10000), ByteAt(n, 0x100), ByteAt(n, 1)]
  }

  function FrameOf(payload: Bytes): Bytes {
    Header(|payload|) + payload
  }

  predicate Fits(payload: Bytes) {
    |payload| <= MAX_FRAME
  }

  // ----- the code -----

  method Encode(payload: Bytes) returns (r: Encoded)
    ensures r == if Fits(payload) then Frame(FrameOf(payload)) else EncodeError(FrameTooLarge)
    ensures r.Frame? <==> |payload| <= 65536
    ensures r.Frame? ==> |r.frame| == 4 + |payload| && r.frame[4..] == payload
    ensures r.Frame? ==>
              16777216 * (r.frame[0] as int) + 65536 * (r.frame[1] as int) +
              256 * (r.frame[2] as int) + (r.frame[3] as int) == |payload|
  {
    if |payload| > MAX_FRAME {
      return EncodeError(FrameTooLarge);
    }
    var out := new Byte[HEADER_SIZE + |payload|];
    PutUint32(out, |payload|);
    CopyPayload(out, payload);
    r := Frame(out[..]);
    assert out[..] == out[..HEADER_SIZE] + out[HEADER_SIZE..];
    HeaderValue(|payload|);
  }

  /** binary.BigEndian.PutUint32 into the first four bytes. */
  method PutUint32(out: array<Byte>, n: nat)
    requires out.Length >= 4 && n < 0x1_0000_0000
    modifies out
    ensures out[..4] == Header(n) && Uint32(out[..4]) == n && out[4..] == old(out[4..])
  {
    out[0] := ByteAt(n, 0x1000000);
    out[1] := ByteAt(n, 0x10000);
    out[2] := ByteAt(n, 0x100);
    out[3] := ByteAt(n, 1);
    HeaderValue(n);
    assert out[..4] == Header(n);
  }

  method CopyPayload(out: array<Byte>, payload: Bytes)
    requires out.Length == HEADER_SIZE + |payload|
    modifies out
    ensures out[HEADER_SIZE..] == payload && out[..HEADER_SIZE] == old(out[..HEADER_SIZE])
  {
    for i := 0 to |payload|
      invariant forall k :: 0 <= k < i ==> out[HEADER_SIZE + k] == payload[k]
      invariant out[..HEADER_SIZE] == old(out[..HEADER_SIZE])
    {
      out[HEADER_SIZE + i] := payload[i];
    }
    assert |out[HEADER_SIZE..]| == |payload|;
    assert forall k :: 0 <= k < |payload| ==> out[HEADER_SIZE..][k] == out[HEADER_SIZE + k];
  }

  /** framingEncode of internal/networking: the header is written by four shifts. */
  method FramingEncode(payload: Bytes) returns (r: Encoded)
    ensures r == if Fits(payload) then Frame(FrameOf(payload)) else EncodeError(FrameTooLarge)
    ensures r.Frame? <==> |payload| <= 65536
    ensures r.Frame? ==> |r.frame| == 4 + |payload| && r.frame[4..] == payload
    ensures r.Frame? ==>
              16777216 * (r.frame[0] as int) + 65536 * (r.frame[1] as int) +
              256 * (r.frame[2] as int) + (r.frame[3] as int) == |payload|
  {
    if |payload| > 64 * 1024 {
      return EncodeError(FrameTooLarge);
    }
    var n := |payload|;
    var out := new Byte[4 + n];
    out[0] := ByteAt(n, 0x1000000);
    out[1] := ByteAt(n, 0x10000);
    out[2] := ByteAt(n, 0x100);
    out[3] := ByteAt(n, 1);
    assert out[..4] == Header(n);
    CopyPayload(out, payload);
    assert out[..] == out[..4] + out[4..];
    r := Frame(out[..]);
    HeaderValue(n);
  }

  function Decode(buf: Bytes): Decoded {
    if |buf| < HEADER_SIZE then DecodeError(ShortFrame)
    else
      var l := Uint32(buf[..HEADER_SIZE]);
      if l == 0 then Payload([], buf[HEADER_SIZE..])
      else if l > MAX_FRAME then DecodeError(FrameTooLarge)
      else if |buf| < HEADER_SIZE + l then DecodeError(ShortFrame)
      else Payload(buf[HEADER_SIZE..HEADER_SIZE + l], buf[HEADER_SIZE + l..])
  }

  // ----- what it means -----

  /** The four bytes of a number are its digits to the base 256, the highest first. */
  lemma HeaderValue(n: nat)
    requires n < 0x1_0000_0000
    ensures Uint32(Header(n)) == n
    ensures |Header(n)| == 4
    ensures 16777216 * (Header(n)[0] as int) + 65536 * (Header(n)[1] as int) +
            256 * (Header(n)[2] as int) + (Header(n)[3] as int) == n
  {
  }

  /** Four bytes are the header of the number they denote. */
  lemma HeaderUnique(b: Bytes)
    requires |b| == 4
    ensures Header(Uint32(b)) == b
  {
    var n := Uint32(b);
    assert n / 0x100 == (b[0] as int) * 0x10000 + (b[1] as int) * 0x100 + (b[2] as int);
    assert n / 0x10000 == (b[0] as int) * 0x100 + (b[1] as int);
    assert n / 0x1000000 == b[0];
  }

  /** Decode answers a payload exactly for a buffer that begins with the payload's frame. */
  lemma DecodeExact(buf: Bytes, payload: Bytes, rest: Bytes)
    ensures Decode(buf) == Payload(payload, rest) <==> |payload| <= 65536 && buf == FrameOf(payload) + rest
  {
    if Fits(payload) && buf == FrameOf(payload) + rest {
      HeaderValue(|payload|);
      assert buf[..HEADER_SIZE] == Header(|payload|);
      assert buf[HEADER_SIZE..] == payload + rest;
    }
    if Decode(buf) == Payload(payload, rest) {
      HeaderUnique(buf[..HEADER_SIZE]);
      assert buf == buf[..HEADER_SIZE] + buf[HEADER_SIZE..];
    }
  }

  function Concat(payloads: seq<Bytes>): Bytes {
    if payloads == [] then [] else FrameOf(payloads[0]) + Concat(payloads[1..])
  }

  /** Reading frames one after the other while they last, at most n of them. */
  function DecodeAll(buf: Bytes, n: nat): (seq<Bytes>, Bytes) {
    if n == 0 then ([], buf)
    else
      match Decode(buf)
      case Payload(p, rest) => var (ps, end) := DecodeAll(rest, n - 1); ([p] + ps, end)
      case DecodeError(_) => ([], buf)
  }

  /** A concatenation of frames decodes to exactly its payloads and leaves what follows untouched. */
  lemma {:induction false} StreamRoundTrip(payloads: seq<Bytes>, rest: Bytes)
    requires forall i :: 0 <= i < |payloads| ==> Fits(payloads[i])
    ensures DecodeAll(Concat(payloads) + rest, |payloads|) == (payloads, rest)
  {
    if payloads == [] {
      assert [] + rest == rest;
    } else {
      var tail := Concat(payloads[1..]) + rest;
      assert Concat(payloads) + rest == FrameOf(payloads[0]) + tail;
      DecodeExact(Concat(payloads) + rest, payloads[0], tail);
      StreamRoundTrip(payloads[1..], rest);
      assert [payloads[0]] + payloads[1..] == payloads;
    }
  }

  /** The code is uniquely decodable: two streams of frames are equal only if their payloads are. */
  lemma {:induction false} UniquelyDecodable(a: seq<Bytes>, b: seq<Bytes>)
    requires forall i :: 0 <= i < |a| ==> Fits(a[i])
    requires forall i :: 0 <= i < |b| ==> Fits(b[i])
    requires Concat(a) == Concat(b)
    ensures a == b
  {
    if a == [] || b == [] {
      assert a != [] ==> |Concat(a)| >= HEADER_SIZE;
      assert b != [] ==> |Concat(b)| >= HEADER_SIZE;
    } else {
      DecodeExact(Concat(a), a[0], Concat(a[1..]));
      DecodeExact(Concat(b), b[0], Concat(b[1..]));
      UniquelyDecodable(a[1..], b[1..]);
      assert a == [a[0]] + a[1..] && b == [b[0]] + b[1..];
    }
  }

  /** Every strict prefix of a frame is a short frame: a receiver can tell that it must wait. */
  lemma PrefixIsShort(payload: Bytes, n: nat)
    requires Fits(payload) && n < |FrameOf(payload)|
    ensures Decode(FrameOf(payload)[..n]) == DecodeError(ShortFrame)
  {
  }

  /** A buffer is refused as too large exactly when its first four bytes denote more than MaxFrame. */
  lemma TooLargeExact(buf: Bytes)
    ensures Decode(buf) == DecodeError(FrameTooLarge) <==>
            |buf| >= HEADER_SIZE && exists n: nat :: 65536 < n < 0x1_0000_0000 && buf[..HEADER_SIZE] == Header(n)
  {
    if |buf| >= HEADER_SIZE {
      HeaderUnique(buf[..HEADER_SIZE]);
      forall n: nat | n < 0x1_0000_0000 && buf[..HEADER_SIZE] == Header(n)
        ensures n == Uint32(buf[..HEADER_SIZE])
      {
        HeaderValue(n);
      }
    }
  }
}
