# A Dafny model of the `rust_course` chat and text-transform programs

This project models the sequential core of a Rust course repository.
It has two programs: a chat system and a small text-transform tool.

**Chat system.** Three generations share one idea.
A client and a server exchange length-prefixed frames: a 4-byte
little-endian `u32` length, then that many payload bytes.
- `hw-05` sends bare chat messages encoded as JSON.
- `myrustchat`'s threaded server relays CBOR messages.
- `myrustchat`'s tokio server adds a login step, a SQLite user database and
  a check that a message's sender is the logged-in user.

**Text-transform tool.** `hw-03` and `hw-04` read operation names,
delete spaces, slugify lines and pretty-print CSV tables.

Modules, one per component:

- `Framing` holds the frame codec shared by all generations.
  - A stream is a `seq<Byte>`. `read_exact` takes `n` bytes or fails.
  - The CBOR/JSON payload codec is a pair of functions, `Codec<T>`. Its
    round trip is the `Lawful` predicate, which the round-trip lemmas require.
  - The codec's errors are the four serde categories: io, syntax, data, eof.
  - The `u32` cast of the payload length is written out modulo 2^32.
- `Protocol`, `LegacyProtocol` and `JsonMessages` are the three generations'
  message types, readers and writers. The writers are modelled as written,
  with the prefix sent by a single `write` (see Findings).
- `Registry` is the tokio server's `ServerContext`.
  - A socket's write half is represented by its outbox, the sequence of
    datagrams written to it.
  - Broadcast is given both as a map function and as the source's loop,
    and the two are proved equal.
- `ConnectionHandler` is `receive_datagrams`. It is driven by oracles for
  authentication and response writes, and by a sequence of events. Each
  event is one read result, with the recipients whose write of that message
  fails and whether storing it succeeds.
- `ClientsTable` is the two threaded servers' table, broadcast and loop. It
  is driven by events in the same way: one read result each, with the
  recipients whose write fails.
- `Text` models `split_once` and `trim`.
- `ChatClient` and `Hw05Client` model command parsing and dispatch in the clients.
- `CsvPretty` models `CsvTable` and `render_csv`. The table is rendered as
  written, with a byte-counted separator, beside the corrected rendering.
- `StrTransform` models operation names, `no_spaces`, the slugify wrapper,
  `perform` and `hw-03`'s `transform_string`.

Parameters stand in for I/O, the database and library code the model does
not interpret:
- file reading;
- `basename`;
- `slug::slugify`;
- Unicode case mapping;
- write success;
- authentication.

## Model

| member | source | states |
|---|---|---|
| Framing.PrefixRoundTrip | myrustchat/src/datagram.rs:99 | Decoding the four little-endian bytes written for a length `n` gives back `n` modulo 2^32, as `from_le_bytes` undoes `to_le_bytes` (line 68). |
| Framing.PrefixCanonical | myrustchat/src/datagram.rs:68 | Every 4-byte prefix is the encoding of the length it decodes to, so each prefix names exactly one length. |
| Framing.ReadExact | myrustchat/src/datagram.rs:64-73 | `read_exact` succeeds exactly when `n` bytes are available. On success it returns those bytes and the untouched rest. |
| Framing.FrameRoundTrip | myrustchat/src/datagram.rs:62-73 | For a payload shorter than 2^32 bytes, splitting a stream that starts with its frame returns the payload. It consumes exactly 4+n bytes and leaves the rest for the next frame. |
| Framing.SplitFrameIsFrame | myrustchat/src/datagram.rs:62-73 | Converse of the round trip: whatever the reader splits off is a well-formed frame followed by the rest of the stream. |
| Framing.Classify | myrustchat/src/datagram.rs:77-83 | A decoder error maps to `IOError` exactly when it is an io or eof error, and to `MalformedMessage` otherwise. |
| Framing.ReadFrame | myrustchat/src/datagram.rs:61-85 | Fewer than 4 bytes gives `IOError`, and so does fewer payload bytes than the prefix announces. The result is `Ok` exactly when a complete frame decodes, and then it is the decoded value with the bytes after the frame left. It is `IOError` exactly when the frame is incomplete or its decoding failed with an io or eof error, and `MalformedMessage` otherwise. The reader only consumes the stream's front. |
| Framing.WriteAll | myrustchat/src/datagram.rs:104-106 | `write_all` succeeds exactly when the transport takes everything. A failure is `IOError` and leaves only a prefix of the data written. |
| Framing.WriteFrameAsWritten | myrustchat/src/datagram.rs:96-114 | The writer as written. An encode failure is `MalformedMessage` with nothing written. A failed prefix `write` is `IOError` with nothing written. The result is `Ok` whenever the prefix `write` returned and the payload went out, even if the prefix write was short. |
| Framing.ShortPrefixWriteUndetected | myrustchat/src/datagram.rs:100-102 | Payload `[7]` with a prefix `write` that accepts 2 bytes is reported as `Ok`. Yet the wire holds `[1, 0, 7]`, which no reader can split into a frame. |
| Framing.AsWrittenAgreesOnFullPrefix | myrustchat/src/datagram.rs:100-106 | The written-as-is writer and the `write_all` writer agree whenever the prefix `write` takes all 4 bytes or fails outright. |
| Framing.WriteFrame | myrustchat/src/datagram.rs:96-114 | Corrected writer, with `write_all` for the prefix too. `Ok` holds exactly when encoding and both writes succeed, and then the bytes are exactly one frame, which reads back whatever follows. An encode failure writes nothing. A failed prefix writes at most the prefix and no payload. |
| Framing.ReadAfterWrite | myrustchat/src/datagram.rs:61-114 | With a lawful codec, reading a stream that begins with a fully written value returns that value. It consumes 4+n bytes and leaves the following bytes. |
| Framing.TruncatedPayloadIsIOError | myrustchat/src/datagram.rs:70-73 | A prefix announcing `n` followed by fewer than `n` bytes is `IOError`, whatever those bytes are, never `MalformedMessage`. |
| Framing.UndecodablePayload | myrustchat/src/datagram.rs:75-83 | On a complete frame the decoder rejects, the result is `MalformedMessage` exactly when the error is not io/eof, and `IOError` exactly when it is. The next read starts right after the frame. |
| Protocol.ReadDatagram | myrustchat/src/datagram.rs:61-85 | `Datagram::read_from_stream`: a short prefix or a missing frame is `IOError`. The result is `Ok` exactly when the complete frame decodes, and then it is the decoded datagram with the following bytes left. It is `IOError` exactly when the frame is incomplete or decoding failed with io/eof. `MalformedMessage` means a complete frame that failed with a syntax or data error. |
| Protocol.WriteDatagram | myrustchat/src/datagram.rs:96-114 | `Datagram::write_to_stream` as written. An encoding failure is `MalformedMessage` with nothing written, and a failed prefix `write` is `IOError` with nothing written. `Ok` holds exactly when encoding succeeded, the prefix `write` returned and the payload went out in full. The bytes are then the part of the prefix that `write` took, followed by the payload. They are one frame when that part was all 4 bytes. |
| Protocol.DatagramRoundTrip | myrustchat/src/datagram.rs:61-114 | When the prefix `write` takes all 4 bytes and the payload goes out, the datagram written is read back as itself. The bytes after its frame are left for the next read. |
| LegacyProtocol.ReadFromStream | myrustchat/src/chat_message.rs:41-65 | The legacy reader: no frame gives `IOError`. The result is `Ok` exactly when the complete frame decodes, and then it is the decoded datagram and exactly the frame is consumed. It is `IOError` exactly when the frame is incomplete or decoding failed with io/eof. `MalformedMessage` only follows a complete frame that failed to decode with syntax/data. |
| LegacyProtocol.WriteToStream | myrustchat/src/chat_message.rs:67-85 | The legacy writer as written. Encode failure gives `MalformedMessage` with nothing written, and a failed prefix `write` gives `IOError` with nothing written. `Ok` holds exactly when the prefix `write` returned and the payload went out. The bytes are then the part of the prefix taken plus the payload, and one frame when all 4 prefix bytes were taken. |
| LegacyProtocol.DatagramRoundTrip | myrustchat/src/chat_message.rs:41-85 | When the prefix `write` takes all 4 bytes and the payload goes out, write then read of a legacy datagram recovers it, three response variants included, and leaves the following bytes. |
| JsonMessages.ReadFrom | hw-05/src/chat_message.rs:28-52 | `read_from`: fewer than 4 bytes or a short payload is `IOError`. The result is `Ok` exactly when the complete frame decodes as JSON, and then it is the decoded message with the following bytes left. An io or eof JSON error is `IOError`, and any other JSON error on a full frame is `MalformedMessage`. |
| JsonMessages.WriteTo | hw-05/src/chat_message.rs:54-71 | `write_to` as written. An encoding failure writes nothing, and a failed prefix `write` is `IOError` with nothing written. `Ok` holds exactly when the prefix `write` returned and the JSON bytes went out. The bytes are then the part of the LE32 length taken plus the JSON bytes, and exactly the frame when all 4 prefix bytes were taken. |
| JsonMessages.MessageRoundTrip | hw-05/src/chat_message.rs:28-71 | When the prefix `write` takes all 4 bytes and the payload goes out, write then read recovers the message and consumes exactly 4+n bytes. |
| Registry.AddClient | myrustchat/src/bin/server/server.rs:70-77 | `add_client` inserts or replaces `addr` in both the socket table and the username table, and changes no other entry. |
| Registry.RemoveClient | myrustchat/src/bin/server/server.rs:84-91 | `remove_client` deletes `addr` from both tables, changes no other entry, and does nothing when `addr` is absent. |
| Registry.RemoveUndoesAdd | myrustchat/src/bin/server/server.rs:70-91 | Adding then removing a client leaves the tables as removing it alone would. |
| Registry.VerifyMessageSender | myrustchat/src/bin/server/server.rs:117-123 | Succeeds exactly when the message's sender equals the verified username. Otherwise it fails with `SpoofingError`. |
| Registry.Broadcast | myrustchat/src/bin/server/server.rs:135-161 | After a broadcast, exactly the non-author recipients whose write failed are gone. The author's outbox is unchanged. Every other remaining client received the message once, at the end. |
| Registry.BroadcastMessage | myrustchat/src/bin/server/server.rs:143-160 | The loop writes to every socket except the author's, evicts exactly the failed ones afterwards, and leaves the username table untouched. The result is `Ok` and equals `Broadcast`. |
| Registry.BroadcastKeepsConsistent | myrustchat/src/bin/server/server.rs:156-158 | Evicting sockets keeps every socket-table key in the username table. |
| ConnectionHandler.BroadcastDeliversOnlyFrom | myrustchat/src/bin/server/server.rs:143-154 | A broadcast only appends the author's message to other clients' outboxes, only shrinks the table, and never touches the author's own outbox. |
| ConnectionHandler.RemoveDeliversNothing | myrustchat/src/bin/server/server.rs:88 | Removing the connection's own socket writes nothing to anyone. |
| ConnectionHandler.MessageLoop | myrustchat/src/bin/server/server.rs:237-257 | The authenticated loop ends only with `BrokenStream`, `SpoofingError` or a store failure. An IOError or the end of input ends it at once with `BrokenStream`, after `remove_client`, so `addr` is in neither table. Every stored message has the user as sender. Other clients receive only that user's messages. The username table is unchanged unless the loop ended with `BrokenStream`. |
| ConnectionHandler.LoopStoresBroadcasts | myrustchat/src/bin/server/server.rs:237-243 | Every message the loop broadcasts is also stored, in the same order. The one exception is the last broadcast message, when storing it failed and ended the loop. |
| ConnectionHandler.LoopDeliversBroadcasts | myrustchat/src/bin/server/server.rs:237-243 | Every other connection still registered when the loop ends received exactly the broadcast messages, in order, after what it had before. |
| ConnectionHandler.LoopEvicts | myrustchat/src/bin/server/server.rs:237-252 | The loop ends with exactly the starting connections, less those whose write of some broadcast message failed. The connection itself is also gone exactly when the loop ended with `BrokenStream`. |
| ConnectionHandler.ReceiveDatagrams | myrustchat/src/bin/server/server.rs:206-258 | A read error, a missing login or a non-`Login` first datagram ends with no reply and no registration. Denied auth replies `LoginFailed` and returns `LoginError`. An auth error propagates with no reply. Granted auth replies `LoginOk` and then registers. Unless the session ended with `BrokenStream`, the connection is still in both tables afterwards, with its outbound half holding exactly the `LoginOk` response and the username bound to the logged-in user (server.rs:233). Only the user's own messages are stored and delivered. |
| ConnectionHandler.SpoofedMessageIsFatal | myrustchat/src/bin/server/server.rs:239-240 | A message whose sender is not the logged-in user ends the handler with `SpoofingError`. Nothing is stored or broadcast, and `remove_client` is not called. |
| ConnectionHandler.IgnoredReads | myrustchat/src/bin/server/server.rs:246-255 | A malformed datagram, or a well-formed one that is not a `Message`, changes nothing in the authenticated loop. |
| ConnectionHandler.LoginRegisters | myrustchat/src/bin/server/server.rs:213-233 | A granted, answered login followed by no further reads binds the username and replies `LoginOk`. The connection then closes with `BrokenStream`, and the tables are left as `remove_client` leaves them. |
| ConnectionHandler.LoginThenSpoof | myrustchat/src/bin/server/server.rs:211-243 | A granted, answered login followed by a message from another sender ends with `SpoofingError` and nothing stored. The tables are exactly those of `add_client` with the `LoginOk` response on the outbound half, so the connection stays registered under the username. |
| ConnectionHandler.LoggedInSession | myrustchat/src/bin/server/server.rs:211-257 | After a granted and answered login, every broadcast message is stored in order, except a last one whose storing failed. Every other connection still registered at the end received exactly those messages, in order, after what it had before the login. |
| ClientsTable.AddClient | myrustchat/src/bin/server.rs:38-44 | Inserts or replaces `addr`, leaving the other entries. A poisoned lock is `MutexPoisoned` and a failed `try_clone` a stream error, both leaving the table unchanged. The same holds for hw-05/src/bin/server.rs:35-44. |
| ClientsTable.RemoveClient | myrustchat/src/bin/server.rs:46-53 | Deletes `addr` and keeps the rest. Nothing changes when `addr` is absent, and a poisoned lock is `MutexPoisoned` with no change. |
| ClientsTable.ForEach | myrustchat/src/bin/server.rs:55-60 | `retain`: an entry is kept exactly when the callback returns true, with the stream state the callback left. A poisoned lock leaves the table. |
| ClientsTable.BroadcastMessage | myrustchat/src/bin/server.rs:65-83 | The author is kept and not written to. Every other client is kept exactly when its write succeeds, and then it received the message once. The same holds for hw-05/src/bin/server.rs:70-85. |
| ClientsTable.MessageLoop | myrustchat/src/bin/server.rs:91-104 | The loop only ends in an error. On a sound lock the error is `BrokenStream`, with the client removed, and the table never gains entries. The same holds for hw-05/src/bin/server.rs:91-102. |
| ClientsTable.ReceiveMessages | myrustchat/src/bin/server.rs:86-105 | A failed accept or `peer_addr` ends with a stream error before anything is registered. Otherwise the stream is registered before anything is read, with no login. It ends with `BrokenStream` and the client removed, or with the registration error and the table unchanged. The same holds for hw-05/src/bin/server.rs:87-105. |
| ClientsTable.LoopRelaysInOrder | myrustchat/src/bin/server.rs:91-95 | Every other client that survives the loop received exactly the successfully read messages before the first IOError, in order. |
| ClientsTable.Relayed | myrustchat/src/bin/server.rs:91-95 | Every relayed message was read successfully by some read, and there are never more than the reads. |
| ClientsTable.RelayedAppend | myrustchat/src/bin/server.rs:91-102 | Before any IOError, relaying goes read by read in order: it commutes with concatenation. A malformed read adds nothing. |
| ClientsTable.RelayedStopsAtIOError | myrustchat/src/bin/server.rs:96-99 | Nothing read after an IOError is relayed. |
| ClientsTable.LoopEvicts | myrustchat/src/bin/server.rs:65-99 | On a sound lock the loop ends with exactly the starting clients, less the client itself and those whose write of some relayed message failed. |
| ClientsTable.MalformedIsSkipped | myrustchat/src/bin/server.rs:100-102 | A malformed message changes neither the table nor the outcome of the loop. |
| Text.SplitOnce | myrustchat/src/bin/client/client.rs:181 | `split_once` finds nothing exactly when the separator is absent. Otherwise head, separator and tail rebuild the string, with no separator in the head. |
| Text.SplitAtFirstSpace | myrustchat/src/bin/client/client.rs:180-181 | For a space-free word `w`, splitting `line + " "` gives head `w` exactly when the line is `w` or starts with `w` and a space. The tail is empty exactly when the line has no space. |
| Text.TrimDropsTrailingSpace | myrustchat/src/bin/client/client.rs:184-185 | The space the parser appends to the line never reaches the trimmed file name. |
| ChatClient.FromStrQuit | myrustchat/src/bin/client/client.rs:179-183 | The line is `Quit` exactly when it is `.quit` alone; `.quit` with anything after it, even spaces, is not a quit. The same holds for myrustchat/src/bin/client.rs:119-123. |
| ChatClient.FromStrFile | myrustchat/src/bin/client/client.rs:179-184 | The line is a `File` exactly when it is `.file` or starts with `.file `. The path is the trimmed rest after the first space, and empty for the bare word. |
| ChatClient.FromStrImage | myrustchat/src/bin/client/client.rs:179-185 | The line is an `Image` exactly when it is `.image` or starts with `.image `. The path is the trimmed rest after the first space, and empty for the bare word. |
| ChatClient.FromStrText | myrustchat/src/bin/client/client.rs:179-186 | Every line that is none of the commands, the empty line included, is `Text` of the line unchanged, and no command is text. |
| ChatClient.SendMessage | myrustchat/src/bin/client/client.rs:278-288 | The message always carries the client's username as sender. A failed write sends nothing and is an error. |
| ChatClient.Perform | myrustchat/src/bin/client/client.rs:199-226 | `Ok(true)` holds exactly for `Quit`, and `Ok(false)` exactly when a message went out. A message goes out exactly when the command is not `Quit`, its file can be read and the send succeeds. `SendFailed` holds exactly when the send fails on such a command. `FileOperationFailed` holds exactly when the file or image cannot be read. File and image contents are the data read, with the file's base name. |
| ChatClient.RunLines | myrustchat/src/bin/client/client.rs:238-266 | The loop over typed lines, for any per-line outcome. The end of input and a stopping command end it with `Ok` and nothing more sent. An error that ends it is some line's error and never `FileOperationFailed`. Every message sent is some line's message, and there are no more messages than lines. |
| ChatClient.KeyboardLoop | myrustchat/src/bin/client/client.rs:238-266 | The loop ends with `Ok`, with nothing sent, on an empty read or when the first line trims to `.quit`. The only error that ends it is a failed send. Every message sent carries the username, and there are no more messages than lines. |
| ChatClient.RunLinesSends | myrustchat/src/bin/client/client.rs:244-262 | The loop sends exactly the messages of the lines before the first line that stops it, in order. It fails exactly when that line's command failed, and then with that command's error. |
| ChatClient.RunLinesSkips | myrustchat/src/bin/client/client.rs:250-255 | A line whose file operation failed leaves the rest of the loop as if it had not been typed. |
| ChatClient.FileFailureContinues | myrustchat/src/bin/client/client.rs:249-258 | A failed file or image read is reported and the loop carries on as if the line had not been typed. |
| ChatClient.LoginReply | myrustchat/src/bin/client/client.rs:359-369 | The client proceeds exactly when the first reply is `LoginOk`. Any other datagram is `LoginFailed`, and a read error propagates. |
| Hw05Client.SendMessage | hw-05/src/bin/client.rs:102-107 | A successful write sends the message and continues. A failed write ends the client with exit status 1. |
| Hw05Client.SendFileOrImage | hw-05/src/bin/client.rs:110-139 | An image goes out as `Image(data)` and a file as `File(basename, data)`, both under the nickname. An unreadable file sends nothing and does not exit. A readable file is sent exactly when the write succeeds, and a failed write ends the client with status 1, through hw-05/src/bin/client.rs:102-106. |
| Hw05Client.SendText | hw-05/src/bin/client.rs:142-149 | Sends `Text(line)` under the nickname, with no exit, when the write succeeds. A failed write ends the client with status 1, through hw-05/src/bin/client.rs:102-106. |
| Hw05Client.ParseLineIgnore | hw-05/src/bin/client.rs:155 | Exactly the empty line is ignored. |
| Hw05Client.ParseLineQuit | hw-05/src/bin/client.rs:156 | Exactly `.quit` quits. |
| Hw05Client.ParseLineFile | hw-05/src/bin/client.rs:157 | `.file X` names the trimmed text after the first space, and bare `.file` names the empty path. No other line is a file command. |
| Hw05Client.ParseLineImage | hw-05/src/bin/client.rs:158 | `.image X` names the trimmed text after the first space, and bare `.image` names the empty path. No other line is an image command. |
| Hw05Client.ParseLineText | hw-05/src/bin/client.rs:159 | Any line that is not one of the commands is sent whole, as text. |
| Hw05Client.ProcessCommand | hw-05/src/bin/client.rs:151-162 | An ignored line does nothing. Exit status 0 occurs exactly for `.quit`. `.file` and `.image` hand the parsed path and kind to `cmd_send_file_image`. Every message sent carries the nickname, and a send never exits. A text line is sent exactly when the write succeeds, as its parsed text, and a failed write exits with status 1. |
| CsvPretty.ByteLen | hw-04/src/str_transform/csv_pretty.rs:37 | `str::len` counts UTF-8 bytes. It is never below the character count and equals it exactly for ASCII. |
| CsvPretty.ColumnWidthIsMax | hw-04/src/str_transform/csv_pretty.rs:46-49 | A column's reference width is at least its header and every cell, and equals one of them. |
| CsvPretty.TightIsValid | hw-04/src/str_transform/csv_pretty.rs:34-51 | When widths are exactly the widest cells, every header and record cell fits its column. |
| CsvPretty.New | hw-04/src/str_transform/csv_pretty.rs:34-38 | `new` keeps the headers, starts with no records, and its widths are exactly the widest cells (the header lengths). The same holds for hw-03/src/main.rs:70-74. |
| CsvPretty.Append | hw-04/src/str_transform/csv_pretty.rs:40-54 | A record of the wrong arity is refused and the table left unchanged. Otherwise the record goes last and each width becomes the max of the old width and the cell. The cells-fit invariant is preserved. The same holds for hw-03/src/main.rs:76-90. |
| CsvPretty.AppendKeepsTight | hw-04/src/str_transform/csv_pretty.rs:46-51 | After an append the widths are still exactly the widest cells of the grown table. |
| CsvPretty.PadLeft | hw-04/src/str_transform/csv_pretty.rs:62 | `{:>width$}` pads on the left with spaces to `width` characters, keeps the cell as the suffix, and leaves a longer cell whole. |
| CsvPretty.LineWidth | hw-04/src/str_transform/csv_pretty.rs:60-64 | A row whose cells fit renders to a width that depends only on the column widths. |
| CsvPretty.Separator | hw-04/src/str_transform/csv_pretty.rs:67 | Corrected separator: all dashes, one per character of the header line. |
| CsvPretty.SeparatorAsWritten | hw-04/src/str_transform/csv_pretty.rs:67 | The separator as written: all dashes, one per byte of the header line. |
| CsvPretty.AsciiSeparatorsAgree | hw-04/src/str_transform/csv_pretty.rs:67 | The two separators coincide exactly when the header line is ASCII. |
| CsvPretty.NonAsciiHeaderSeparatorOverhangs | hw-04/src/str_transform/csv_pretty.rs:66-67 | For the single header `é` the header line has 6 characters, but the separator as written has 7. The table printed as written is therefore not the aligned one. |
| CsvPretty.RenderIsLines | hw-04/src/str_transform/csv_pretty.rs:57-72 | The table as written is the separator, header, separator, record lines and separator, each ended by a newline, where the separator has one dash per byte of the header line. The corrected rendering has the same lines with one dash per character. A table without records has one empty body line. The same holds for hw-03/src/main.rs:102-108. |
| CsvPretty.RenderAgreesOnAscii | hw-04/src/str_transform/csv_pretty.rs:66-67 | The table as written equals the aligned table exactly when the header line is ASCII. |
| CsvPretty.LinesAligned | hw-04/src/str_transform/csv_pretty.rs:60-67 | In a valid table every record line is as wide as the header line. Every line of the corrected rendering is that wide, apart from the empty body line of a table without records. |
| CsvPretty.RenderCsv | hw-04/src/str_transform/csv_pretty.rs:7-20 | The table renders, as written, exactly when the headers and every record were read with the right arity, and its widths are then the widest cells. Otherwise the first record that was unreadable or of the wrong arity decides between a read error and an arity error. |
| StrTransform.FromStr | hw-04/src/str_transform/mod.rs:43-52 | Exactly the five names are accepted. Anything else, including case variants and surrounding whitespace, is `InvalidTransform`. |
| StrTransform.NameRoundTrip | hw-04/src/str_transform/mod.rs:44-51 | Names and operations correspond one to one, in both directions. |
| StrTransform.RemoveSpaces | hw-04/src/str_transform/mod.rs:70-72 | `no_spaces`: the output has no space, is never longer, and keeps every other character with its multiplicity. |
| StrTransform.RemoveSpacesAppend | hw-04/src/str_transform/mod.rs:71 | Deleting spaces commutes with concatenation, so other characters keep their order. |
| StrTransform.RemoveSpacesFixpoint | hw-04/src/str_transform/mod.rs:70-72 | A string is unchanged exactly when it has no space, so `no_spaces` is idempotent. |
| StrTransform.SlugifyLine | hw-04/src/str_transform/mod.rs:55-60 | Input not ending in a newline is returned unchanged. The output ends in a newline exactly when the input does, with the slug before it. The same holds for hw-03/src/main.rs:15-20. |
| StrTransform.Perform | hw-04/src/str_transform/mod.rs:23-31 | Only `csv` can fail, and only when rendering the file named by the trimmed input fails. `lowercase` and `uppercase` give the library's case mapping of the input, and `no-spaces` and `slugify` give the modelled transformations. |
| StrTransform.TransformFor | hw-03/src/main.rs:36-44 | `transform_string` accepts exactly the names `from_str` accepts other than `csv`, meaning the same operation. |
| StrTransform.TransformString | hw-03/src/main.rs:35-61 | An unknown name fails before anything is read or written. Otherwise the lines are transformed and written in full, in order, until the loop stops. The end of input gives `Ok`, and a read error `ReadFailed`. A write or flush error gives `WriteFailed`, with part of that line written. |
| StrTransform.NoSpacesStream | hw-03/src/main.rs:49-59 | Streaming `no-spaces` line by line gives the whole input with its spaces deleted. |

## Left out

- The CBOR and JSON byte layouts. These follow RFC 8949 and RFC 8259 through `serde_cbor` and `serde_json`. The model only assumes the codec's round trip (`Lawful`).
- Concurrency: tokio tasks, threads, accept loops, `Mutex`/`RwLock` mechanics and interleavings. Registry operations are atomic steps, and lock poisoning is the only lock behaviour modelled.
- `try_join!` cancellation. When storing a message fails, `ConnectionHandler.MessageLoop` lets the concurrent broadcast run to completion before the handler ends with the store error.
- myrustchat/src/bin/server/server_db.rs (SQLite, argon2) is not part of this model. Authentication and storage are oracles.
- ConnectionHandler.MessageLoop: a broadcast evicts failed sockets from the socket table only, so their usernames stay in the username table as in the source. The model states only the key inclusion that this keeps.
- Client file, image and clock I/O: `save_received_file`, `generate_timestamp`, PNG conversion, `read_file_data` and `incoming_loop`. File reads are oracles.
- ChatClient.KeyboardLoop: stdin read errors (`read_line` with `.context(...)?`) are not modelled, and `io.sendOk` holds for the whole session rather than per send. Hw05Client.ProcessCommand likewise takes lines already read.
- The `anyhow` and `Box<dyn Error>` wrapping of errors: each error is a plain variant.
- `exit` is an outcome value (`Hw05Client.Step.exit`), not a process exit.
- `basename`, `lowercase`/`uppercase` (full Unicode case mapping) and `slug::slugify` are uninterpreted parameters.
- The csv crate's parsing, and its own rejection of ragged records, in `render_csv`/`transform_csv`. Reader results enter `CsvPretty.RenderCsv` as given.
- hw-01/src/main.rs, hw-02/src/main.rs and hw-04/src/main.rs (argv/stdin plumbing, channels), the `main` of hw-03, and `clap`/logging.
- The hw-05 server and the older myrustchat client share their logic with the members cited above, so they have no members of their own.
- Payloads of 2^32 bytes or more: `len as u32` wraps, and the round-trip lemmas require shorter payloads.

## Findings

| source | as written | input that shows it | evidently intended | confidence | as-written member | corrected member |
|---|---|---|---|---|---|---|
| myrustchat/src/datagram.rs:100 | The length prefix is sent with a single `write`, whose byte count is ignored. The same pattern is at myrustchat/src/chat_message.rs:71 and hw-05/src/chat_message.rs:58. | Payload `[7]` where the transport's `write` accepts 2 of the 4 prefix bytes: the writer returns `Ok`, but the wire holds `[1, 0, 7]`, which is not a frame. | `write_all` for the prefix, as for the payload. Success then means exactly one frame is on the wire. | not executed | Framing.ShortPrefixWriteUndetected, with the as-written writers Protocol.WriteDatagram, LegacyProtocol.WriteToStream and JsonMessages.WriteTo | Framing.WriteFrame |
| hw-04/src/str_transform/csv_pretty.rs:67 | The separator length is the header line's byte length (`len()`), while the cells are padded in characters. The same is at hw-03/src/main.rs:103. | A table with the single header `é`: the header line `\|  é \|` has 6 characters, but the separator has 7 dashes. | The separator is exactly as wide as the header line. | not executed | CsvPretty.NonAsciiHeaderSeparatorOverhangs, with CsvPretty.RenderAgreesOnAscii | CsvPretty.RenderAligned, aligned by CsvPretty.LinesAligned |
