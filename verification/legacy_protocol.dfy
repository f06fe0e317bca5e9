/**
  The earlier copy of the chat protocol: the same framing and message shapes,
  with a third server response, `MessageAck`, that nothing sends.
*/
module LegacyProtocol {
  import opened Wrappers
  import opened Framing
  import Protocol

  /** The three server responses of this generation. */
  datatype ServerResponse = LoginOk | LoginFailed | MessageAck

  /** The three datagram shapes; chat messages are the ones of `Protocol`. */
  datatype Datagram =
    | Login(username: string, password: string)
    | Response(response: ServerResponse)
    | Message(message: Protocol.ChatMessage)

  /** `Datagram::read_from_stream` of this generation. */
  function ReadFromStream(stream: seq<Byte>, codec: Codec<Datagram>): (r: Received<Datagram>)
    ensures SplitFrame(stream).None? ==> r == Received(Err(IOError), [])
    ensures r.result == Err(MalformedMessage) ==>
              SplitFrame(stream).Some? && codec.decode(SplitFrame(stream).value.0).Err?
              && codec.decode(SplitFrame(stream).value.0).error in {Syntax, Data}
    ensures r.result.Ok? ==> r.rest == SplitFrame(stream).value.1
    ensures r.result.Ok? <==> SplitFrame(stream).Some? && codec.decode(SplitFrame(stream).value.0).Ok?
    ensures r.result.Ok? ==>
              r == Received(Ok(codec.decode(SplitFrame(stream).value.0).value), SplitFrame(stream).value.1)
    ensures r.result == Err(IOError) <==>
              SplitFrame(stream).None?
              || (codec.decode(SplitFrame(stream).value.0).Err? && codec.decode(SplitFrame(stream).value.0).error in {Io, Eof})
  {
    ReadFrame(stream, codec.decode)
  }

  /**
    `Datagram::write_to_stream` of this generation: the same writer, the
    prefix sent by one unchecked `write` and the payload by `write_all`.
  */
  function WriteToStream(d: Datagram, codec: Codec<Datagram>, t: Transport): (r: Sent)
    ensures codec.encode(d).None? ==> r == Sent(Err(MalformedMessage), [])
    ensures codec.encode(d).Some? && t.prefix == WriteErr ==> r == Sent(Err(IOError), [])
    ensures r.result.Ok? <==> codec.encode(d).Some? && t.prefix.Wrote? && t.payload == AllWritten
    ensures r.result.Ok? ==>
              r.bytes == LE32(|codec.encode(d).value|)[..Min(t.prefix.count, 4)] + codec.encode(d).value
    ensures r.result.Ok? && t.prefix.count >= 4 ==> r.bytes == Frame(codec.encode(d).value)
  {
    WriteFrameAsWritten(codec.encode(d), t)
  }

  /**
    Write then read recovers the datagram and leaves the following bytes
    untouched, when the prefix `write` took all four bytes.
  */
  lemma {:induction false} DatagramRoundTrip(codec: Codec<Datagram>, d: Datagram, prefixAccepted: nat, tail: seq<Byte>)
    requires Lawful(codec)
    requires codec.encode(d).Some? && |codec.encode(d).value| < Two32
    requires prefixAccepted >= 4
    ensures var sent := WriteToStream(d, codec, Transport(Wrote(prefixAccepted), AllWritten));
            && sent.result == Ok(())
            && ReadFromStream(sent.bytes + tail, codec) == Received(Ok(d), tail)
  {
    AsWrittenAgreesOnFullPrefix(codec.encode(d), prefixAccepted, AllWritten);
    ReadAfterWrite(codec, d, tail);
  }
}
