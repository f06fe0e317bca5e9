/**
  The first generation of the protocol: bare chat messages, encoded as JSON,
  in the same length-prefixed frames.
*/
module JsonMessages {
  import opened Wrappers
  import opened Framing
  import opened Protocol

  /** `ChatMessage::read_from`. */
  function ReadFrom(stream: seq<Byte>, codec: Codec<ChatMessage>): (r: Received<ChatMessage>)
    ensures |stream| < 4 ==> r.result == Err(IOError)
    ensures |stream| >= 4 && |stream| - 4 < FromLE32(stream[..4]) ==> r.result == Err(IOError)
    ensures r.result == Err(MalformedMessage) ==>
              SplitFrame(stream).Some? && codec.decode(SplitFrame(stream).value.0).Err?
              && codec.decode(SplitFrame(stream).value.0).error in {Syntax, Data}
    ensures r.result.Ok? <==> SplitFrame(stream).Some? && codec.decode(SplitFrame(stream).value.0).Ok?
    ensures r.result.Ok? ==>
              r == Received(Ok(codec.decode(SplitFrame(stream).value.0).value), SplitFrame(stream).value.1)
    ensures r.result == Err(IOError) <==>
              SplitFrame(stream).None?
              || (codec.decode(SplitFrame(stream).value.0).Err? && codec.decode(SplitFrame(stream).value.0).error in {Io, Eof})
  {
    ReadFrame(stream, codec.decode)
  }

  /**
    `ChatMessage::write_to`: the prefix by one `write` of `std::io::Write`,
    whose count is not checked, then the JSON bytes by `write_all`.
  */
  function WriteTo(m: ChatMessage, codec: Codec<ChatMessage>, t: Transport): (r: Sent)
    ensures codec.encode(m).None? ==> r == Sent(Err(MalformedMessage), [])
    ensures codec.encode(m).Some? && t.prefix == WriteErr ==> r == Sent(Err(IOError), [])
    ensures r.result.Ok? <==> codec.encode(m).Some? && t.prefix.Wrote? && t.payload == AllWritten
    ensures r.result.Ok? ==>
              r.bytes == LE32(|codec.encode(m).value|)[..Min(t.prefix.count, 4)] + codec.encode(m).value
    ensures r.result.Ok? && t.prefix.count >= 4 ==>
              r.bytes == LE32(|codec.encode(m).value|) + codec.encode(m).value
  {
    WriteFrameAsWritten(codec.encode(m), t)
  }

  /** Write then read recovers the message, consuming exactly 4 + n bytes, when the prefix `write` took all four bytes. */
  lemma {:induction false} MessageRoundTrip(codec: Codec<ChatMessage>, m: ChatMessage, prefixAccepted: nat, tail: seq<Byte>)
    requires Lawful(codec)
    requires codec.encode(m).Some? && |codec.encode(m).value| < Two32
    requires prefixAccepted >= 4
    ensures var sent := WriteTo(m, codec, Transport(Wrote(prefixAccepted), AllWritten));
            && sent.result == Ok(())
            && |sent.bytes| == 4 + |codec.encode(m).value|
            && ReadFrom(sent.bytes + tail, codec) == Received(Ok(m), tail)
  {
    AsWrittenAgreesOnFullPrefix(codec.encode(m), prefixAccepted, AllWritten);
    ReadAfterWrite(codec, m, tail);
  }
}
