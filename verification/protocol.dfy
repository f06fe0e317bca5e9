/**
  The chat protocol of the current generation: the message shapes and the
  reader and writer of framed datagrams (payload encoded with CBOR).
*/
module Protocol {
  import opened Wrappers
  import opened Framing

  /** The server's answer to a login. */
  datatype ServerResponse = LoginOk | LoginFailed

  /** Text, an image (PNG bytes), or a file (its name and its bytes). */
  datatype ChatMessageContent =
    | Text(text: string)
    | Image(data: seq<Byte>)
    | File(filename: string, data: seq<Byte>)

  /** A chat message: the sender's nickname and the content. */
  datatype ChatMessage = ChatMessage(sender: string, content: ChatMessageContent)

  /** The closed set of framed units exchanged between client and server. */
  datatype Datagram =
    | Login(username: string, password: string)
    | Response(response: ServerResponse)
    | Message(message: ChatMessage)

  /** `Datagram::read_from_stream`. */
  function ReadDatagram(stream: seq<Byte>, codec: Codec<Datagram>): (r: Received<Datagram>)
    ensures |stream| < 4 ==> r == Received(Err(IOError), [])
    ensures SplitFrame(stream).None? ==> r == Received(Err(IOError), [])
    ensures r.result == Err(MalformedMessage) ==>
              SplitFrame(stream).Some? && codec.decode(SplitFrame(stream).value.0).Err?
              && codec.decode(SplitFrame(stream).value.0).error in {Syntax, Data}
    ensures r.result.Ok? <==> SplitFrame(stream).Some? && codec.decode(SplitFrame(stream).value.0).Ok?
    ensures r.result.Ok? ==>
              r == Received(Ok(codec.decode(SplitFrame(stream).value.0).value), SplitFrame(stream).value.1)
    ensures r.result == Err(IOError) <==>
              SplitFrame(stream).None?
              || (codec.decode(SplitFrame(stream).value.0).Err? && codec.decode(SplitFrame(stream).value.0).error in {Io, Eof})
  {
    ReadFrame(stream, codec.decode)
  }

  /**
    `Datagram::write_to_stream`: the length prefix goes out with one `write`
    whose count is not checked (see `Framing.WriteFrameAsWritten`), then the
    payload with `write_all`.  An unencodable datagram writes nothing, a
    failed prefix write writes nothing, and success means the payload went
    out whole after however much of the prefix `write` accepted.
  */
  function WriteDatagram(d: Datagram, codec: Codec<Datagram>, t: Transport): (r: Sent)
    ensures codec.encode(d).None? ==> r == Sent(Err(MalformedMessage), [])
    ensures codec.encode(d).Some? && t.prefix == WriteErr ==> r == Sent(Err(IOError), [])
    ensures r.result.Ok? <==> codec.encode(d).Some? && t.prefix.Wrote? && t.payload == AllWritten
    ensures r.result.Ok? ==>
              r.bytes == LE32(|codec.encode(d).value|)[..Min(t.prefix.count, 4)] + codec.encode(d).value
    ensures r.result.Ok? && t.prefix.count >= 4 ==> r.bytes == Frame(codec.encode(d).value)
  {
    WriteFrameAsWritten(codec.encode(d), t)
  }

  /**
    A datagram whose prefix `write` took all four bytes and whose payload
    went out whole reads back as itself, and the reader consumes exactly
    its frame.
  */
  lemma {:induction false} DatagramRoundTrip(codec: Codec<Datagram>, d: Datagram, prefixAccepted: nat, tail: seq<Byte>)
    requires Lawful(codec)
    requires codec.encode(d).Some? && |codec.encode(d).value| < Two32
    requires prefixAccepted >= 4
    ensures var sent := WriteDatagram(d, codec, Transport(Wrote(prefixAccepted), AllWritten));
            && sent.result == Ok(())
            && ReadDatagram(sent.bytes + tail, codec) == Received(Ok(d), tail)
  {
    AsWrittenAgreesOnFullPrefix(codec.encode(d), prefixAccepted, AllWritten);
    ReadAfterWrite(codec, d, tail);
  }
}
