/**
  The length-prefixed envelope shared by the three protocol generations.

  A frame is a 4-byte little-endian unsigned length followed by exactly that
  many payload bytes.  The payload codec (CBOR or JSON) is not modelled: it is
  a pair of functions passed in as a `Codec`, and the property the codec is
  trusted to have is the `Lawful` predicate, required where it is used.
*/
module Framing {
  import opened Wrappers

  /** A byte of the TCP stream (Rust's `u8`). */
  newtype Byte = b: int | 0 <= b < 256

  /** 2^32: the number of values of the `u32` length prefix. */
  const Two32: nat := 0x1_0000_0000

  /** The error kinds the readers and writers return (`ChatProtocolError` / `MessageError`). */
  datatype ProtocolError = IOError | MalformedMessage

  /** The categories serde_cbor and serde_json both assign to their decode errors. */
  datatype Category = Io | Syntax | Data | Eof

  /** The payload codec: `to_vec` may fail; `from_slice` fails with a categorised error. */
  datatype Codec<!T> = Codec(encode: T -> Option<seq<Byte>>, decode: seq<Byte> -> Result<T, Category>)

  /** What the codec is trusted to satisfy: whatever it encodes decodes back to the same value. */
  ghost predicate Lawful<T(!new)>(c: Codec<T>)
  {
    forall x :: c.encode(x).Some? ==> c.decode(c.encode(x).value) == Ok(x)
  }

  // ---------------------------------------------------------------------------
  // The length prefix
  // ---------------------------------------------------------------------------

  function ByteOf(n: nat): Byte
  {
    (n % 256) as Byte
  }

  /** `(len as u32).to_le_bytes()`: the cast keeps the low 32 bits of the length. */
  function LE32(n: nat): (b: seq<Byte>)
    ensures |b| == 4
  {
    var m := n % Two32;
    [ByteOf(m), ByteOf(m / 256), ByteOf(m / 256 / 256), ByteOf(m / 256 / 256 / 256)]
  }

  /** `u32::from_le_bytes`. */
  function FromLE32(b: seq<Byte>): (n: nat)
    requires |b| == 4
    ensures n < Two32
  {
    var b0, b1, b2, b3 := b[0] as nat, b[1] as nat, b[2] as nat, b[3] as nat;
    b0 + 256 * (b1 + 256 * (b2 + 256 * b3))
  }

  lemma DivMod256(a: nat, k: nat)
    requires a < 256
    ensures (a + 256 * k) % 256 == a
    ensures (a + 256 * k) / 256 == k
  {
  }

  /** Decoding the written prefix gives back the length, reduced modulo 2^32 as the cast does. */
  lemma {:induction false} PrefixRoundTrip(n: nat)
    ensures FromLE32(LE32(n)) == n % Two32
  {
    var m := n % Two32;
    var q1 := m / 256;
    var q2 := q1 / 256;
    var q3 := q2 / 256;
    assert m == m % 256 + 256 * q1;
    assert q1 == q1 % 256 + 256 * q2;
    assert q2 == q2 % 256 + 256 * q3;
    assert q3 < 256;
    var b := LE32(n);
    assert b[0] as nat == m % 256;
    assert b[1] as nat == q1 % 256;
    assert b[2] as nat == q2 % 256;
    assert b[3] as nat == q3 % 256 == q3;
  }

  /** Every 4-byte prefix is the encoding of the length it announces. */
  lemma {:induction false} PrefixCanonical(b: seq<Byte>)
    requires |b| == 4
    ensures LE32(FromLE32(b)) == b
  {
    var n := FromLE32(b);
    var k2 := b[2] as nat + 256 * (b[3] as nat);
    var k1 := b[1] as nat + 256 * k2;
    assert n == b[0] as nat + 256 * k1;
    assert n % Two32 == n;
    DivMod256(b[0] as nat, k1);
    DivMod256(b[1] as nat, k2);
    DivMod256(b[2] as nat, b[3] as nat);
    assert n / 256 / 256 / 256 == b[3] as nat;
    var e := LE32(n);
    assert e[0] == b[0] && e[1] == b[1] && e[2] == b[2] && e[3] == b[3];
  }

  // ---------------------------------------------------------------------------
  // Reading
  // ---------------------------------------------------------------------------

  /** `read_exact`: take exactly `n` bytes, or fail because the stream ends first. */
  function ReadExact(s: seq<Byte>, n: nat): (r: Option<(seq<Byte>, seq<Byte>)>)
    ensures r.Some? <==> n <= |s|
    ensures r.Some? ==> |r.value.0| == n && r.value.0 + r.value.1 == s
  {
    if |s| < n then None else Some((s[..n], s[n..]))
  }

  /** The bytes a complete write of `payload` puts on the wire. */
  function Frame(payload: seq<Byte>): seq<Byte>
  {
    LE32(|payload|) + payload
  }

  /** The two `read_exact` calls of a reader: the prefix, then the announced payload. */
  function SplitFrame(s: seq<Byte>): Option<(seq<Byte>, seq<Byte>)>
  {
    match ReadExact(s, 4)
    case None => None
    case Some((prefix, afterPrefix)) =>
      match ReadExact(afterPrefix, FromLE32(prefix))
      case None => None
      case Some((payload, rest)) => Some((payload, rest))
  }

  /** Exact consumption: a written frame followed by anything splits back into that payload and the rest. */
  lemma {:induction false} FrameRoundTrip(payload: seq<Byte>, tail: seq<Byte>)
    requires |payload| < Two32
    ensures SplitFrame(Frame(payload) + tail) == Some((payload, tail))
  {
    var s := Frame(payload) + tail;
    PrefixRoundTrip(|payload|);
    assert s[..4] == LE32(|payload|);
    assert s[4..] == payload + tail;
    assert (payload + tail)[..|payload|] == payload;
    assert (payload + tail)[|payload|..] == tail;
  }

  /** Conversely, whatever splits was a frame of a payload shorter than 2^32 followed by the rest. */
  lemma {:induction false} SplitFrameIsFrame(s: seq<Byte>)
    requires SplitFrame(s).Some?
    ensures |SplitFrame(s).value.0| < Two32
    ensures s == Frame(SplitFrame(s).value.0) + SplitFrame(s).value.1
  {
    var prefix := s[..4];
    PrefixCanonical(prefix);
    var payload := SplitFrame(s).value.0;
    assert |payload| == FromLE32(prefix);
    assert LE32(|payload|) == prefix;
    assert s == prefix + s[4..];
  }

  /** How a reader classifies a decode error: io and eof are transport failures, the rest are malformed payloads. */
  function Classify(c: Category): (e: ProtocolError)
    ensures e == IOError <==> c == Io || c == Eof
  {
    if c == Io || c == Eof then IOError else MalformedMessage
  }

  /** One read: the result, and the bytes left for the next read (none once the stream has failed). */
  datatype Received<T> = Received(result: Result<T, ProtocolError>, rest: seq<Byte>)

  /** `read_from_stream` / `read_from`, over a codec's decoder. */
  function ReadFrame<T>(s: seq<Byte>, decode: seq<Byte> -> Result<T, Category>): (r: Received<T>)
    ensures |s| < 4 ==> r == Received(Err(IOError), [])
    ensures |s| >= 4 && |s| < 4 + FromLE32(s[..4]) ==> r == Received(Err(IOError), [])
    ensures r.result == Err(MalformedMessage) ==>
              SplitFrame(s).Some? && r.rest == SplitFrame(s).value.1
              && decode(SplitFrame(s).value.0).Err?
              && decode(SplitFrame(s).value.0).error !in {Io, Eof}
    ensures r.result.Ok? ==>
              SplitFrame(s).Some? && r.rest == SplitFrame(s).value.1
              && decode(SplitFrame(s).value.0) == Ok(r.result.value)
    ensures r.result.Ok? <==> SplitFrame(s).Some? && decode(SplitFrame(s).value.0).Ok?
    ensures r.result == Err(IOError) <==>
              SplitFrame(s).None? || (decode(SplitFrame(s).value.0).Err? && decode(SplitFrame(s).value.0).error in {Io, Eof})
    ensures |r.rest| <= |s| && r.rest == s[|s| - |r.rest|..]
  {
    match SplitFrame(s)
    case None => Received(Err(IOError), [])
    case Some((payload, rest)) =>
      match decode(payload)
      case Ok(v) => Received(Ok(v), rest)
      case Err(c) => Received(Err(Classify(c)), rest)
  }

  // ---------------------------------------------------------------------------
  // Writing
  // ---------------------------------------------------------------------------

  /** What a single `write` call did: accepted `count` bytes (possibly fewer than offered) or failed. */
  datatype PartialWrite = Wrote(count: nat) | WriteErr

  /** What a `write_all` call did: wrote everything, or failed after writing `count` bytes. */
  datatype FullWrite = AllWritten | FailedAfter(count: nat)

  /** The transport's answers to the writer's two calls, in the shape the source code uses. */
  datatype Transport = Transport(prefix: PartialWrite, payload: FullWrite)

  /** The outcome of one write and the bytes that reached the stream. */
  datatype Sent = Sent(result: Result<(), ProtocolError>, bytes: seq<Byte>)

  function Min(a: nat, b: nat): nat
  {
    if a <= b then a else b
  }

  /** `write_all`: on failure some prefix of the bytes has been written. */
  function WriteAll(data: seq<Byte>, w: FullWrite): (r: Sent)
    ensures r.result.Ok? <==> w == AllWritten
    ensures r.result.Ok? ==> r.bytes == data
    ensures r.result.Err? ==> r.result.error == IOError && r.bytes <= data
  {
    match w
    case AllWritten => Sent(Ok(()), data)
    case FailedAfter(k) => Sent(Err(IOError), data[..Min(k, |data|)])
  }

  /**
    `write_to_stream` / `write_to` as written: the prefix goes out with one
    `write`, whose short count is not checked, and the payload with `write_all`.
  */
  function WriteFrameAsWritten(encoded: Option<seq<Byte>>, t: Transport): (r: Sent)
    ensures encoded.None? ==> r == Sent(Err(MalformedMessage), [])
    ensures encoded.Some? && t.prefix == WriteErr ==> r == Sent(Err(IOError), [])
    ensures r.result.Ok? <==> encoded.Some? && t.prefix.Wrote? && t.payload == AllWritten
    ensures r.result.Ok? ==> r.bytes == LE32(|encoded.value|)[..Min(t.prefix.count, 4)] + encoded.value
    ensures encoded.Some? && t.prefix.Wrote? && t.prefix.count >= 4 && r.result.Ok? ==>
              r.bytes == Frame(encoded.value)
    ensures encoded.Some? && t.prefix.Wrote? && t.payload.FailedAfter? ==>
              r.result == Err(IOError) && LE32(|encoded.value|)[..Min(t.prefix.count, 4)] <= r.bytes
  {
    match encoded
    case None => Sent(Err(MalformedMessage), [])
    case Some(data) =>
      match t.prefix
      case WriteErr => Sent(Err(IOError), [])
      case Wrote(k) =>
        var head := LE32(|data|)[..Min(k, 4)];
        var body := WriteAll(data, t.payload);
        Sent(body.result, head + body.bytes)
  }

  /**
    The writer reports success although the stream does not hold a frame:
    a 1-byte payload whose prefix `write` accepted only 2 of its 4 bytes
    leaves 3 bytes on the wire, which the reader rejects as `IOError`.
  */
  lemma ShortPrefixWriteUndetected()
    ensures var sent := WriteFrameAsWritten(Some([7]), Transport(Wrote(2), AllWritten));
            && sent.result.Ok?
            && sent.bytes == [1, 0, 7]
            && SplitFrame(sent.bytes).None?
  {
    var sent := WriteFrameAsWritten(Some([7]), Transport(Wrote(2), AllWritten));
    assert LE32(1) == [1, 0, 0, 0];
    assert sent.bytes == [1, 0] + [7];
  }

  /** The transport's answers to a writer that sends both parts with `write_all`. */
  datatype FullTransport = FullTransport(prefix: FullWrite, payload: FullWrite)

  /**
    The writer with the prefix sent by `write_all`, as the reader expects:
    success means a whole frame is on the wire, and a reader of those bytes
    gets the payload back and nothing else.
  */
  function WriteFrame(encoded: Option<seq<Byte>>, t: FullTransport): (r: Sent)
    ensures encoded.None? ==> r == Sent(Err(MalformedMessage), [])
    ensures r.result.Ok? <==> encoded.Some? && t == FullTransport(AllWritten, AllWritten)
    ensures r.result.Ok? ==> r.bytes == Frame(encoded.value)
    ensures r.result.Ok? && |encoded.value| < Two32 ==>
              forall tail :: SplitFrame(r.bytes + tail) == Some((encoded.value, tail))
    ensures encoded.Some? && t.prefix.FailedAfter? ==> r.result == Err(IOError) && r.bytes <= LE32(|encoded.value|)
  {
    match encoded
    case None => Sent(Err(MalformedMessage), [])
    case Some(data) =>
      var head := WriteAll(LE32(|data|), t.prefix);
      if head.result.Err? then head
      else
        var body := WriteAll(data, t.payload);
        assert body.result.Ok? && |data| < Two32 ==> forall tail :: SplitFrame(head.bytes + body.bytes + tail) == Some((data, tail)) by {
          if body.result.Ok? && |data| < Two32 {
            forall tail { FrameRoundTrip(data, tail); }
          }
        }
        Sent(body.result, head.bytes + body.bytes)
  }

  /**
    The two writers differ only on a short prefix write: when `write`
    accepts all four prefix bytes the code as written does what the
    `write_all` writer does, and when it fails both report `IOError` with
    nothing written.
  */
  lemma AsWrittenAgreesOnFullPrefix(encoded: Option<seq<Byte>>, prefixAccepted: nat, payload: FullWrite)
    ensures prefixAccepted >= 4 ==>
              WriteFrameAsWritten(encoded, Transport(Wrote(prefixAccepted), payload))
              == WriteFrame(encoded, FullTransport(AllWritten, payload))
    ensures encoded.Some? ==> WriteFrameAsWritten(encoded, Transport(WriteErr, payload)).result
                              == WriteFrame(encoded, FullTransport(FailedAfter(0), payload)).result
  {
    if encoded.Some? && prefixAccepted >= 4 {
      assert LE32(|encoded.value|)[..Min(prefixAccepted, 4)] == LE32(|encoded.value|);
    }
  }

  /**
    Writing with a lawful codec and reading back: a stream that starts with a
    completely written frame yields the original value and leaves exactly the
    bytes that followed the frame.
  */
  lemma {:induction false} ReadAfterWrite<T(!new)>(c: Codec<T>, x: T, tail: seq<Byte>)
    requires Lawful(c)
    requires c.encode(x).Some? && |c.encode(x).value| < Two32
    ensures var sent := WriteFrame(c.encode(x), FullTransport(AllWritten, AllWritten));
            && sent.result.Ok?
            && |sent.bytes| == 4 + |c.encode(x).value|
            && ReadFrame(sent.bytes + tail, c.decode) == Received(Ok(x), tail)
  {
    var data := c.encode(x).value;
    var sent := WriteFrame(c.encode(x), FullTransport(AllWritten, AllWritten));
    assert sent.bytes == Frame(data);
    FrameRoundTrip(data, tail);
  }

  /**
    Read errors are classified by where the stream ended: a stream holding a
    prefix announcing `n` but fewer than `n` payload bytes is a transport
    failure, whatever those bytes are, never a malformed message.
  */
  lemma {:induction false} TruncatedPayloadIsIOError<T>(n: nat, partial: seq<Byte>, decode: seq<Byte> -> Result<T, Category>)
    requires n < Two32 && |partial| < n
    ensures ReadFrame(LE32(n) + partial, decode) == Received(Err(IOError), [])
  {
    PrefixRoundTrip(n);
    assert (LE32(n) + partial)[..4] == LE32(n);
  }

  /**
    A complete frame whose payload the decoder rejects leaves the stream in
    step: the error is `MalformedMessage` exactly when the decoder's category
    is neither io nor eof, and the next read starts right after the frame.
  */
  lemma {:induction false} UndecodablePayload<T>(payload: seq<Byte>, tail: seq<Byte>, decode: seq<Byte> -> Result<T, Category>)
    requires |payload| < Two32 && decode(payload).Err?
    ensures ReadFrame(Frame(payload) + tail, decode).rest == tail
    ensures ReadFrame(Frame(payload) + tail, decode).result == Err(MalformedMessage)
            <==> decode(payload).error !in {Io, Eof}
    ensures ReadFrame(Frame(payload) + tail, decode).result == Err(IOError)
            <==> decode(payload).error in {Io, Eof}
  {
    FrameRoundTrip(payload, tail);
  }
}
