# IoT SDK core algorithms in Dafny

A model of the algorithmic cores of the SDK, each proved against the standard it implements or the
simple form it refines. What the C code changes in place is an array, a class or a heap list here;
each such method is proved equal to a function of its inputs or old state, and the properties are
proved about those functions, over all inputs and all runs. The network, the clock and random
numbers are inputs; block ciphers and the MD5 compression are parameters.

- `Bytes`, `Arithmetic`, `Search`: bytes, words, sub-sequences and copying; unique quotient and
  remainder; the result of a lookup.
- `JsonText`, `JsonGrammar`, `JsonStrings`, `JsonPrinter`, `JsonParser`, `JsonRoundTrip`,
  `JsonAccepts`, `JsonStandard`, `JsonNumbers`: the cJSON tree, its printed text, the parser's results by
  position, the two passes over a string, the printers with their precomputed sizes, the recursive
  readers, that parsing undoes printing, exactly which texts are accepted, what RFC 8259 makes of
  strings and numbers, and printed samples.
- `CoapMessage`, `CoapSerialize`, `CoapDeserialize`, `CoapRoundTrip`, `CoapClient`: option builders,
  wire form, what every datagram decodes to, and the requests of the client.
- `CoapSendList`, `CoapRuns`: the list of unanswered requests and its behaviour over every run.
- `HashSpec`, `HashContext`, `Sha1Block`, `Hmac`, `Sha1Sample`, `HmacSample`: the streaming hashes, the
  SHA-1 block function and HMAC, with known answers. MD5 and SHA-1 share `HashContext`, since their
  update and finish are the same text up to block function, byte order and digest encoding.
- `Cmac`, `CmacSample`, `CryptoEnvelope`: streaming AES-CMAC, the examples of RFC 4493, and the payload
  envelope built on it.
- `LogCache`, `CacheOrder`, `LogRuns`: the log-level cache in front of the tag list, which entry it
  gives up, and every run of the log.
- `LinkedList`, `MqttSend`, `MqttClient`, `MqttRuns`, `MqttTimeouts`, `TopicMatch`: the heap list, the
  writes of one packet, publishing with QoS 1 over them, every run of it, when it sends again, and the
  topic matcher.
- `DataPoints`, `DataPointWire`, `Base64`, `CommIf`: the data-point table, its records and their bytes,
  the two base64 encoders and the decoder, and the connection state machine.

Where the code departs from what it is for, the model follows the code and the theorem says exactly
when it does what it should: the option value 256 (`CoapMessage.UintRoundTrip`), option numbers above
255 (`CoapMessage.BuiltNumbers`), a full buffer without payload (`CoapSerialize.SerializeMessage`),
message ids beyond 65534 requests (`CoapSendList.MessageIdsRepeat`), messages of 65536 bytes and
more (`CoapSerialize.MessageLength`), the order of eviction (`CacheOrder.LeastRecentSinceFull`), two
addresses for one log tag (`LogRuns.CleanExactly`), payloads above 256 bytes
(`CryptoEnvelope.CryptedIsCtr`), integer data points with a minimum (`DataPoints.DeliveredExactly`),
repeated user writes (`DataPoints.RepetitionClears`), topics with empty levels
(`TopicMatch.MatchesExactly`), signed characters (`Base64.SignedExactly`), the allocation of
parse_string (`JsonStrings.FitsExactly`), escapes that are dropped (`JsonStandard.ReadExactly`) and
packets written in parts (`MqttSend.OkByCounts`). The comment in sdk/log/iotx_log_api.c (lines
195-199) says that the unfairness of the log cache shows at most once; `CacheOrder.WrongTwice` has two
evictions in a row that take the wrong entry.

## Model
| member | source | states |
|---|---|---|
| JsonRoundTrip.PrintThenParse | sdk/utils/misc/utils_cjson.c:283-300 | for every tree of nulls, booleans, int-range integers, NUL-free strings, arrays and objects, parsing its printed text, formatted or not, gives the same tree and stops exactly at the end of the text |
| JsonRoundTrip.ValueInverts | sdk/utils/misc/utils_cjson.c:287-317 | the same for a value printed at any depth and standing anywhere in a text, if what follows cannot continue a number |
| JsonRoundTrip.StringInverts | sdk/utils/misc/utils_cjson.c:155-213 | reading a quoted string gives back the bytes that were quoted and ends behind the closing quote |
| JsonAccepts.AcceptsExactly | sdk/utils/misc/utils_cjson.c:287-439 | of every text: a value is read from it, up to a place, exactly if it stands there by the grammar, arrays and objects being items and members between brackets and commas with blanks around; nothing else is accepted |
| JsonAccepts.Accepted | sdk/utils/misc/utils_cjson.c:287-439 | whatever is accepted is a value by that grammar |
| JsonAccepts.ValueIsRead | sdk/utils/misc/utils_cjson.c:287-439 | whatever is a value by that grammar is accepted as it, however deep |
| JsonAccepts.ErrorPlaces | sdk/utils/misc/utils_cjson.c:320-345 | the place reported in three malformed arrays is that of the first character that should be another |
| JsonAccepts.ObjectErrorPlaces | sdk/utils/misc/utils_cjson.c:406-439 | the same in three malformed objects |
| JsonStandard.EscapeIsStringBody | sdk/utils/misc/utils_cjson.c:215-248 | what print_string_ptr puts between the quotes is a string body of section 7 of RFC 8259, for every byte string |
| JsonStandard.ReadExactly | sdk/utils/misc/utils_cjson.c:155-213 | every string body of section 7 of RFC 8259 is read to its closing quote, and to the text it stands for exactly if it holds no \u0000 and no surrogate outside a pair |
| JsonStandard.MeaningExactly | sdk/utils/misc/utils_cjson.c:181-202 | the same about the sequence of bytes and 16-bit code units of a body |
| JsonStandard.PairedExactly | sdk/utils/misc/utils_cjson.c:184-192 | code units have a meaning exactly if every high surrogate stands right before a low one and every low one right behind a high one |
| JsonRoundTrip.NumberInverts | sdk/utils/misc/utils_cjson.c:96-138 | reading a printed int-range integer gives back that integer and ends behind its last digit |
| JsonNumbers.NumberReads | sdk/utils/misc/utils_cjson.c:96-115 | every number of section 6 of RFC 8259, with fraction and exponent, is read to the end with the sign, digits and power of ten that it stands for |
| JsonNumbers.Hex4Exactly | sdk/utils/misc/utils_cjson.c:140-151 | four hexadecimal digits, each in either case, are read as the 16-bit number they stand for, the highest digit first |
| JsonNumbers.NotHex4 | sdk/utils/misc/utils_cjson.c:140-151 | anything else among the four characters gives 0 |
| JsonNumbers.Utf8Exactly | sdk/utils/misc/utils_cjson.c:192-200 | the bytes written for a code point decode to it, and they are well-formed by section 4 of RFC 3629 exactly if it is no surrogate |
| JsonNumbers.SampleArray | sdk/utils/misc/utils_cjson.c:348-403 | the text of [true,7], with and without formatting |
| JsonNumbers.SampleObject | sdk/utils/misc/utils_cjson.c:442-507 | a formatted object: one member on its line, a tab before and after the colon |
| JsonNumbers.SampleNested | sdk/utils/misc/utils_cjson.c:442-507 | an object in an object has a tab for each level |
| JsonNumbers.SampleObjectInArray | sdk/utils/misc/utils_cjson.c:348-403 | an object in an array is one level deeper than the array |
| JsonNumbers.SampleEmptyObject | sdk/utils/misc/utils_cjson.c:450-460 | an empty object, formatted, at the outermost and at a deeper level |
| JsonNumbers.SampleEscapes | sdk/utils/misc/utils_cjson.c:215-248 | how quotes, backslashes and control characters are escaped |
| JsonRoundTrip.ArrayInverts | sdk/utils/misc/utils_cjson.c:320-403 | reading a printed array gives back its items in order, at every depth and in both formats |
| JsonRoundTrip.ObjectInverts | sdk/utils/misc/utils_cjson.c:406-507 | reading a printed object gives back its members, names, order and duplicates included |
| JsonPrinter.PrintString | sdk/utils/misc/utils_cjson.c:215-248 | the quoted text and its terminator fill exactly the len+3 bytes that the first pass computed |
| JsonPrinter.PrintNumber | sdk/utils/misc/utils_cjson.c:118-138 | the decimal text of every int-range integer fits the 21 bytes allocated |
| JsonPrinter.PrintArray | sdk/utils/misc/utils_cjson.c:348-403 | the precomputed length holds the array's text with its terminator, and the buffer holds exactly that text |
| JsonPrinter.PrintObject | sdk/utils/misc/utils_cjson.c:442-507 | the precomputed length holds the object's text, indentation and terminator included, and the buffer holds exactly that text |
| JsonPrinter.PrintValue | sdk/utils/misc/utils_cjson.c:302-317 | every value's buffer holds its text, to be undone by the parser |
| JsonParser.ReadString | sdk/utils/misc/utils_cjson.c:155-213 | the two passes compute the grammar's result, the unescaped bytes and the end or the place of the error, and the size allocated; if the second pass ends no later than the first, bytes and terminator fit it |
| JsonStrings.FitsExactly | sdk/utils/misc/utils_cjson.c:161-206 | for every text whose body the first pass ends at a quote: the allocation suffices for every text that is the same up to that quote exactly if no escape read on the way reaches over it |
| JsonStrings.StepsOverExactly | sdk/utils/misc/utils_cjson.c:166-206 | some escape reaches over a quote exactly if the second pass ends behind it |
| JsonStrings.EndsInTime | sdk/utils/misc/utils_cjson.c:161-206 | a second pass that ends no later than the first writes no more bytes than were counted |
| JsonStrings.SizingCovers | sdk/utils/misc/utils_cjson.c:161-206 | if the four characters behind every \u are ordinary, hexadecimal digits say, the bytes written are at most the bytes counted and both passes end at the same quote |
| JsonStrings.QuoteSkipped | sdk/utils/misc/utils_cjson.c:161-206 | behind a \u before a quote the first pass counts one byte and stops, and the second writes everything up to the next quote, however much that is |
| JsonStrings.EightForOne | sdk/utils/misc/utils_cjson.c:161-206 | a body for which one byte is counted and eight are written |
| JsonParser.EncodeUtf8 | sdk/utils/misc/utils_cjson.c:192-200 | the table-driven encoder gives the UTF-8 bytes of a code point |
| JsonParser.ReadNumber | sdk/utils/misc/utils_cjson.c:96-115 | the digit loops compute sign, mantissa, scale and exponent of the grammar |
| JsonParser.ReadItems | sdk/utils/misc/utils_cjson.c:320-345 | the loop over a comma-separated array computes the grammar's items and end, or its error place |
| JsonParser.ReadMembers | sdk/utils/misc/utils_cjson.c:406-439 | the loop over an object's members computes the grammar's members and end, or its error place |
| JsonParser.ReadValue | sdk/utils/misc/utils_cjson.c:287-300 | the recursive reader agrees with the grammar on every text, malformed ones included |
| JsonParser.Parse | sdk/utils/misc/utils_cjson.c:264-280 | with a required terminator anything but white space behind the value is an error, at that place |
| CoapRoundTrip.RoundTrip | sdk/comm/coap/CoAPPacket/CoAPSerialize.c:25-234 | deserialising a serialised message gives its header, token, option values and payload, with option numbers summed up (RFC 7252, sections 3 and 3.1) |
| CoapRoundTrip.OptionIsNotMarker | sdk/comm/coap/CoAPPacket/CoAPSerialize.c:53-104 | no serialised option begins with the payload marker 0xFF |
| CoapRoundTrip.OptionInverts | sdk/comm/coap/CoAPPacket/CoAPSerialize.c:53-104 | reading a serialised option at any place and running number gives the summed number and the value, and consumes exactly the option |
| CoapRoundTrip.HeaderInverts | sdk/comm/coap/CoAPPacket/CoAPSerialize.c:25-38 | the header's bit fields survive being packed into four bytes |
| CoapRoundTrip.PayloadInverts | sdk/comm/coap/CoAPPacket/CoAPSerialize.c:174-190 | a payload behind the marker is read back to the end of the datagram |
| CoapRoundTrip.FirstExample | sdk/comm/coap/CoAPPacket/CoAPSerialize.c:25-190 | the messages of figure 16 in appendix A of RFC 7252 have the bytes given there |
| CoapRoundTrip.SecondExample | sdk/comm/coap/CoAPPacket/CoAPSerialize.c:207-234 | so has a message with token, option and payload |
| CoapRoundTrip.LongOptions | sdk/comm/coap/CoAPPacket/CoAPSerialize.c:53-104 | deltas and lengths of one and two further bytes are written less 13 and less 269, the high byte first |
| CoapSerialize.SerializeHeader | sdk/comm/coap/CoAPPacket/CoAPSerialize.c:25-38 | writes the four header bytes, or nothing into a shorter buffer |
| CoapSerialize.SerializeToken | sdk/comm/coap/CoAPPacket/CoAPSerialize.c:40-51 | writes the token, or nothing when there is no room |
| CoapSerialize.SerializeOption | sdk/comm/coap/CoAPPacket/CoAPSerialize.c:53-104 | the byte-by-byte writer produces the wire form of section 3.1 and returns its length |
| CoapSerialize.SerializeOptions | sdk/comm/coap/CoAPPacket/CoAPSerialize.c:106-124 | all options one after the other, returning their total length |
| CoapSerialize.SerializePayload | sdk/comm/coap/CoAPPacket/CoAPSerialize.c:174-190 | -1 and no change when payload and marker do not fit, even for an empty payload; else marker and payload |
| CoapSerialize.SerializeMessage | sdk/comm/coap/CoAPPacket/CoAPSerialize.c:207-234 | the buffer holds the wire form; the returned length is its length exactly when there is a payload or a spare byte, and one short otherwise |
| CoapSerialize.OptionLength | sdk/comm/coap/CoAPPacket/CoAPSerialize.c:126-151 | the separate length function agrees with what the writer writes, modulo 2^16 |
| CoapSerialize.OptionsLength | sdk/comm/coap/CoAPPacket/CoAPSerialize.c:153-172 | 16 bits of the total length of the options, or 0 if the length of one of them comes out as 0 |
| CoapSerialize.MessageLength | sdk/comm/coap/CoAPPacket/CoAPSerialize.c:192-205 | 16 bits of the length of the wire form, for every message, and that length itself below 65536 |
| CoapDeserialize.ReadOption | sdk/comm/coap/CoAPPacket/CoAPDeserialize.c:42-83 | one option decoded with its running number, extended deltas and lengths included, for every datagram |
| CoapRoundTrip.OptionsInvert | sdk/comm/coap/CoAPPacket/CoAPDeserialize.c:42-103 | the loop reads serialised options back, one after the other, up to the marker or the end |
| CoapRoundTrip.OddOptions | sdk/comm/coap/CoAPPacket/CoAPDeserialize.c:42-83 | bytes missing behind the end are read as zeros, the nibble 15 is the number 15, option numbers and lengths wrap at 16 bits |
| CoapDeserialize.ReadOptions | sdk/comm/coap/CoAPPacket/CoAPDeserialize.c:85-103 | the loop to the marker or the end computes the recursive decoding, and reports the seventeenth option |
| CoapDeserialize.ReadMessage | sdk/comm/coap/CoAPPacket/CoAPDeserialize.c:120-151 | what every datagram decodes to: a message, too short, or more than the message struct holds |
| CoapMessage.AbsoluteIsPrefixSum | sdk/comm/coap/CoAPPacket/CoAPMessage.c:76-76 | with deltas summing below 65536 a receiver's option numbers are the prefix sums of the deltas |
| CoapMessage.UintRoundTrip | sdk/comm/coap/CoAPPacket/CoAPMessage.c:83-129 | the stored bytes stand for the value, except for 256 alone |
| CoapMessage.UintLengths | sdk/comm/coap/CoAPPacket/CoAPMessage.c:95-123 | no byte for 0, one up to 256, two up to 65535, four beyond |
| CoapMessage.BuiltNumbers | sdk/comm/coap/CoAPPacket/CoAPMessage.c:60-129 | a receiver sees the numbers passed to the builders if and only if all but the last are below 256, since the running number is kept in a byte |
| CoapMessage.CoapMessage.constructor | sdk/comm/coap/CoAPPacket/CoAPMessage.c:228-248 | a fresh message is an empty acknowledgement without options |
| CoapMessage.CoapMessage.AddString | sdk/comm/coap/CoAPPacket/CoAPMessage.c:60-81 | appends the option with its delta unless sixteen are there |
| CoapMessage.CoapMessage.AddUint | sdk/comm/coap/CoAPPacket/CoAPMessage.c:83-129 | appends the value's bytes, and records whether the message observes |
| CoapSendList.MessageIdsRepeat | sdk/comm/coap/CoAPPacket/CoAPMessage.c:131-137 | two requests share a message id exactly from the 65535th on, with the first or among themselves |
| CoapSendList.Client.Add | sdk/comm/coap/CoAPPacket/CoAPMessage.c:267-308 | a confirmable request enters with timeout 2 and no retry used, any other with 10 and all used; the list is never bounded |
| CoapSendList.Client.Send | sdk/comm/coap/CoAPPacket/CoAPMessage.c:310-345 | refused by its 16-bit length, or overrunning the buffer when only that fits, for every message; one that fits and is sent is listed with the bytes that were sent, exactly if it is a request or a confirmable 2.05 |
| CoapSendList.Length16Is | sdk/comm/coap/CoAPPacket/CoAPMessage.c:319-324 | the length checked is that of the message modulo 2^16, without its options if one of them takes 65536 bytes |
| CoapSendList.Client.HandleAck | sdk/comm/coap/CoAPPacket/CoAPMessage.c:348-360 | the first request with the id is marked, nothing else changes |
| CoapSendList.Client.HandleResponse | sdk/comm/coap/CoAPPacket/CoAPMessage.c:370-409 | the first request with the token runs its handler and leaves the list unless it observes; a confirmable response is acknowledged |
| CoapSendList.Client.Handle | sdk/comm/coap/CoAPPacket/CoAPMessage.c:411-444 | dispatch of every datagram the message struct has room for |
| CoapSendList.Client.VisitAt | sdk/comm/coap/CoAPPacket/CoAPMessage.c:477-518 | what one visit does to one request: count down, double the timeout and resend, or give up |
| CoapSendList.Client.Cycle | sdk/comm/coap/CoAPPacket/CoAPMessage.c:472-520 | one pass over the list, ended by its first removal |
| CoapRuns.RunKeeps | sdk/comm/coap/CoAPPacket/CoAPMessage.c:267-520 | in every run the 8-bit count is the list's length modulo 256, and requests keep their order, tokens and place on the schedule |
| CoapRuns.Retransmission | sdk/comm/coap/CoAPPacket/CoAPMessage.c:472-520 | a confirmable request that nobody answers is on its schedule after any run: it was sent again, unchanged, on its 3rd, 8th and 17th visit and is gone from the 17th on |
| CoapRuns.NewRequest | sdk/comm/coap/CoAPPacket/CoAPMessage.c:267-520 | the same from the moment a request is made, whatever else is sent and received |
| CoapRuns.OnceOnly | sdk/comm/coap/CoAPPacket/CoAPMessage.c:267-308 | a listed message that is not confirmable is never sent again: it waits for ten visits and is gone on the eleventh |
| CoapRuns.AckedStays | sdk/comm/coap/CoAPPacket/CoAPMessage.c:348-360 | an acknowledged request is never sent again and never given up; it stays until a response comes |
| CoapRuns.AckMarks | sdk/comm/coap/CoAPPacket/CoAPMessage.c:411-444 | a datagram with code 0 and kind acknowledgement marks the first request with its id, and nothing else changes |
| CoapRuns.AckStops | sdk/comm/coap/CoAPPacket/CoAPMessage.c:348-520 | from the datagram on that acknowledges a request it is never sent again, whatever happens, and stays marked in the list until it is answered |
| CoapRuns.ObserveStays | sdk/comm/coap/CoAPPacket/CoAPMessage.c:395-404 | an observing request is never sent again and never leaves the list, in any run, however many responses come |
| CoapRuns.AckOnWire | sdk/comm/coap/CoAPPacket/CoAPMessage.c:362-368 | a confirmable response is acknowledged by four bytes: version 1, kind 2, code 0 and its id |
| CoapRuns.PassDrains | sdk/comm/coap/CoAPPacket/CoAPMessage.c:472-520 | the sum of remaining visits falls with every pass, although a removal ends the pass |
| CoapRuns.Drained | sdk/comm/coap/CoAPPacket/CoAPMessage.c:472-520 | without new requests n waiting ones are gone or acknowledged after 17n cycles, whatever is received meanwhile |
| CoapRuns.ResponseMatches | sdk/comm/coap/CoAPPacket/CoAPMessage.c:370-409 | below 2^32 requests, a response with a live request's token runs that handler and no other and removes it exactly if it does not observe |
| CoapRuns.ResponseInRun | sdk/comm/coap/CoAPPacket/CoAPMessage.c:370-409 | the same at the end of any run of a new client with fewer than 2^32 requests: that handler, no other live request's, and the removal |
| CoapRuns.ResponseUnmatched | sdk/comm/coap/CoAPPacket/CoAPMessage.c:370-409 | any other response changes nothing and runs no handler |
| CoapSendList.TokensDiffer | sdk/comm/coap/iotx_coap_client.c:32-42 | two requests share a token exactly if a multiple of 2^32 requests lies between them |
| CoapSendList.Client.DrawToken | sdk/comm/coap/iotx_coap_client.c:32-42 | the four token bytes of the counter, little end first, and the counter's step |
| CoapSendList.Client.Draw | sdk/comm/coap/iotx_coap_client.c:162-163 | each request gets the next id and token |
| CoapClient.RequestReceived | sdk/comm/coap/iotx_coap_client.c:147-238 | a receiver decodes a request to the options the client added, under their own numbers and in their order, up to sixteen, with code, id, token and payload |
| CoapClient.RequestHeader | sdk/comm/coap/iotx_coap_client.c:147-190 | the first eight bytes of a request: version, kind, code, the id of its place in the count, and the token counted from 0x01020304 |
| CoapClient.SentIsReceived | sdk/comm/coap/iotx_coap_client.c:147-238 | what goes out of a request within 1280 bytes decodes to it, unless it fills them without a payload: then its last byte is missing |
| CoapClient.OptionsSay | sdk/comm/coap/iotx_coap_client.c:193-230 | a request has the options 6, 11, 12, 15 and 17 with the values asked for and no others, in ascending order |
| CoapClient.DeltasDoNotWrap | sdk/comm/coap/iotx_coap_client.c:193-230 | so each delta is the difference of two option numbers, and none wraps |
| CoapClient.Build | sdk/comm/coap/iotx_coap_client.c:193-230 | the options in the order observe, path, content format, query, accept; additions beyond sixteen are lost silently |
| CoapClient.Send | sdk/comm/coap/iotx_coap_client.c:147-238 | a call is one request step of the send list, carrying the wire bytes of the built message |
| Sha1Block.Process | sdk/utils/digest/utils_sha1.c:91-245 | the block function is that of sections 6.1.2 and 6.1.3 of FIPS 180-4, for every state and block |
| Sha1Block.NextWord | sdk/utils/digest/utils_sha1.c:114-119 | the 16-word circular window always holds the schedule word asked for |
| Sha1Block.FiveSteps | sdk/utils/digest/utils_sha1.c:121-236 | five renamed steps are five rounds with shifting registers |
| Sha1Block.EightySteps | sdk/utils/digest/utils_sha1.c:132-238 | sixteen times five renamed steps are the eighty rounds |
| Sha1Sample.AbcDigest | sdk/utils/digest/utils_sha1.c:79-322 | the digest of abc is the one that FIPS 180 gives for it |
| Sha1Block.LoadWords | sdk/utils/digest/utils_sha1.c:95-110 | the window begins with the block's sixteen words, big end first |
| Sha1Block.ChooseRewritten | sdk/utils/digest/utils_sha1.c:138-138 | the rewritten form of choose |
| Sha1Block.MajorityRewritten | sdk/utils/digest/utils_sha1.c:190-190 | the rewritten form of majority |
| HashContext.Context.Update | sdk/utils/digest/utils_sha1.c:250-296 | after any update the context stands for the old message with the new bytes: total, state and partial block agree with it |
| HashContext.Context.Finish | sdk/utils/digest/utils_sha1.c:298-322 | the digest is that of the once-padded message (FIPS 180-4 section 5.1.1, RFC 1321 sections 3.1 and 3.2) |
| HashContext.HashChunks | sdk/utils/digest/utils_sha1.c:250-322 | for every split into updates the digest is the fold of the block function over the padded whole message |
| HashContext.CounterAdds | sdk/utils/digest/utils_sha1.c:262-267 | the two-word counter with its carry counts modulo 2^64 |
| HashContext.Context.PutLength | sdk/utils/digest/utils_sha1.c:304-309 | the shifted words are the bit count modulo 2^64 in the algorithm's byte order |
| HashContext.PaddingChoice | sdk/utils/digest/utils_md5.c:281-282 | choosing 56 or 120 gives the least number of padding bytes |
| HashSpec.ZeroCountIsLeast | sdk/utils/digest/utils_md5.c:281-282 | no smaller padding leaves room for exactly the length |
| HmacSample.Md5Start | sdk/utils/digest/utils_md5.c:83-92 | the initial state of MD5, byte by byte as in section 3.3 of RFC 1321 |
| HmacSample.LengthLittle | sdk/utils/digest/utils_md5.c:274-279 | MD5 writes the length in bits, the low byte first |
| Hmac.ComputeHmac | sdk/utils/digest/utils_hmac.c:28-126 | with keys up to 64 bytes the digest text is the HMAC of section 2 of RFC 2104, for MD5 with any compression and for SHA-1; a longer key leaves the output alone |
| Hmac.HmacMd5 | sdk/utils/digest/utils_hmac.c:28-76 | the hexadecimal HMAC-MD5 of every message for keys up to 64 bytes, and no output beyond |
| Hmac.HmacSha1 | sdk/utils/digest/utils_hmac.c:78-126 | the hexadecimal HMAC-SHA1 of every message for keys up to 64 bytes, and no output beyond |
| HmacSample.PadsOfHmac | sdk/utils/digest/utils_hmac.c:46-71 | the keys of the two hashes are the zero-filled key under 0x36 and under 0x5c |
| HmacSample.HexSample | sdk/utils/digest/utils_hmac.c:72-75 | the high digit comes first, in small letters |
| Hmac.HashTwo | sdk/utils/digest/utils_hmac.c:58-71 | init, two updates and finish give the digest of the two texts together |
| Hmac.MakePad | sdk/utils/digest/utils_hmac.c:46-56 | the pad arrays are the zero-filled key under the constant |
| Hmac.PutHex | sdk/utils/digest/utils_hmac.c:72-75 | two hexadecimal digits for each byte |
| Cmac.ShiftDoubles | sdk/utils/digest/utils_cmac.c:41-46 | the byte-wise left shift doubles the 128-bit number and drops its top bit (RFC 4493, section 2.3) |
| Cmac.ShiftInPlace | sdk/utils/digest/utils_cmac.c:41-46 | shifting with source and destination the same array is the shift |
| Cmac.MakeSubkey | sdk/utils/digest/utils_cmac.c:102-121 | the in-place steps give the next subkey of section 2.3 |
| CmacSample.FirstSubkey | sdk/utils/digest/utils_cmac.c:102-110 | the first subkey of section 4 of RFC 4493 |
| CmacSample.SecondSubkey | sdk/utils/digest/utils_cmac.c:111-121 | the second subkey of section 4 of RFC 4493 |
| CmacSample.OneChunk | sdk/utils/digest/utils_cmac.c:98-134 | for every cipher that takes 0 to the L given there: no bytes are padded under the second subkey, a whole block goes under the first |
| CmacSample.ManyChunks | sdk/utils/digest/utils_cmac.c:98-134 | and two blocks and a half are chained, the half padded under the second subkey |
| Cmac.Context.Update | sdk/utils/digest/utils_cmac.c:69-96 | after any update, empty ones included, the chain covers all but the last block, which is held back |
| Cmac.Context.Final | sdk/utils/digest/utils_cmac.c:98-134 | the code is that of section 2.4 of RFC 4493 for the whole message |
| Cmac.MacChunks | sdk/utils/digest/utils_cmac.c:57-134 | for any block cipher and any split into updates the code is that of the whole message |
| LogRuns.Replay | sdk/log/iotx_log_api.c:80-264 | through the log, for every odd cache size, every run prints what the functions of the store say; a clean run, and one whose texts have one address each, prints what the levels alone say |
| LogRuns.CleanExactly | sdk/log/iotx_log_api.c:80-264 | at every moment of a run every message would be printed as the levels alone say, exactly if no level set in it is new to a text that two cached tags have |
| LogRuns.HistoryTells | sdk/log/iotx_log_api.c:80-264 | up to 2^29 operations that is decided by the levels and tags of the run alone, without the cache |
| LogRuns.CleanPrints | sdk/log/iotx_log_api.c:80-264 | a clean run prints what the levels alone say |
| LogRuns.InternedIsClean | sdk/log/iotx_log_api.c:80-264 | a run whose texts have one address each is clean, however many stamps it takes |
| LogCache.Log.SetLevel | sdk/log/iotx_log_api.c:80-142 | a level change acts on the first list entry of that name and the first cached entry with that text, the wildcard empties both |
| LogCache.WildcardRenews | sdk/log/iotx_log_api.c:86-93 | the wildcard leaves a new log with that default level: no tag, no cached entry, stamps beginning again |
| LogCache.SetKeepsAgreement | sdk/log/iotx_log_api.c:119-128 | list and cache stay in agreement exactly if the level does not change or at most one cached tag has that text |
| LogCache.AgreesExactly | sdk/log/iotx_log_api.c:144-166 | list and cache agree exactly if every message of every level and tag would be printed as the list says |
| LogCache.WroteAgrees | sdk/log/iotx_log_api.c:144-234 | no message brings them out of agreement |
| LogCache.Log.Write | sdk/log/iotx_log_api.c:144-166 | a message is printed by the cached level or else by that of the list, and changes the cache by one renewed, added or replaced entry; no tag is cached twice, and the order of the stamps is that of the message history |
| LogCache.Log.GetCached | sdk/log/iotx_log_api.c:178-207 | a hit gives the cached level, and renews the stamp only in a full cache |
| LogCache.Log.AddToCache | sdk/log/iotx_log_api.c:209-234 | a miss adds an entry, in place of the root in a full cache |
| LogCache.Log.BubbleDown | sdk/log/iotx_log_api.c:255-264 | the loop computes the way of an entry down to a leaf, entry by entry |
| LogCache.SinkKeeps | sdk/log/iotx_log_api.c:255-264 | that way loses no entry, and gives a strict heap if the entry was the newest and only misplaced one |
| LogCache.Log.Renew | sdk/log/iotx_log_api.c:193-205 | a hit in a full cache gives the entry the newest stamp and sinks it |
| LogCache.SwapDown | sdk/log/iotx_log_api.c:255-264 | one swap with the smaller child keeps a heap but for the newest entry |
| LogCache.Log.EvictsOldest | sdk/log/iotx_log_api.c:226-233 | up to 2^29 stamps the entry at index 0 has the strictly oldest stamp, and its tag is the first of the order that the message history gives |
| LogCache.Log.EvictsLeastRecent | sdk/log/iotx_log_api.c:194-233 | after the cache was full, the entry to be evicted is the least recently used one exactly if it was used since, or every entry unused since was used later than it before |
| LogCache.RankedTouched | sdk/log/iotx_log_api.c:178-234 | a message moves the heap as it moves the list of tags from the oldest stamp to the newest |
| CacheOrder.LeastRecentExactly | sdk/log/iotx_log_api.c:194-233 | the same over every history, about the order of stamps alone |
| CacheOrder.AlwaysLeastRecent | sdk/log/iotx_log_api.c:194-233 | a full cache evicts the least recently used entry in every continuation exactly if it is in the order of last use |
| CacheOrder.LeastRecentSinceFull | sdk/log/iotx_log_api.c:194-233 | from the moment it is full it always does so exactly if the tags that filled it were first used and last used in the same order |
| CacheOrder.FillsByFirstUse | sdk/log/iotx_log_api.c:215-223 | until it is full, the cache holds every tag used, in the order of first use |
| CacheOrder.HitWhileFilling | sdk/log/iotx_log_api.c:194-205 | with room for three, A B A C makes A the next to go, although B was used longer ago |
| CacheOrder.WrongTwice | sdk/log/iotx_log_api.c:194-205 | for every size from 4 on, a history after which two evictions in a row take the wrong entry, where the comment in the code says at most one |
| LogCache.RootIsOldest | sdk/log/iotx_log_api.c:226-233 | the root of a heap has the strictly least stamp |
| LogCache.Log.GetUncached | sdk/log/iotx_log_api.c:236-248 | the list search gives the level in force |
| LinkedList.List.RPush | sdk/utils/misc/utils_list.c:64-82 | appends the node; head, tail, length and all links stay consistent |
| LinkedList.List.LPush | sdk/utils/misc/utils_list.c:132-150 | prepends the node; head, tail, length and all links stay consistent |
| LinkedList.List.RPop | sdk/utils/misc/utils_list.c:87-104 | detaches the last node, or nothing from an empty list |
| LinkedList.List.LPop | sdk/utils/misc/utils_list.c:109-126 | detaches the first node, or nothing from an empty list |
| LinkedList.List.Remove | sdk/utils/misc/utils_list.c:216-228 | takes exactly that node out, wherever it stands |
| LinkedList.List.Find | sdk/utils/misc/utils_list.c:155-180 | the first node that matches, or none if none does |
| LinkedList.List.Nth | sdk/utils/misc/utils_list.c:185-211 | the node at the index, counted from the tail for negative ones, or none |
| LinkedList.Iterator.Next | sdk/utils/misc/utils_list.c:259-266 | gives the node it stands at and moves one link on |
| MqttRuns.Retained | sdk/comm/mqtt/iotx_mqtt_client.c:446-539 | until a PUBACK with its id a publish stays in the list with its id and bytes; each repetition offers that packet, more than twice the request timeout after the stamp of the sending before, and puts it on the wire exactly if it succeeds |
| MqttRuns.Waits | sdk/comm/mqtt/iotx_mqtt_client.c:208-269 | a QoS 1 publish whose first sending succeeded stands in the list with the bytes sent |
| MqttRuns.NewPublish | sdk/comm/mqtt/iotx_mqtt_client.c:208-269 | from a QoS 1 publish whose first sending succeeded until its acknowledgement: the packet was on the wire, it waits with the id drawn for it, and each repetition offers that packet, late |
| MqttRuns.AtMostTwenty | sdk/comm/mqtt/iotx_mqtt_client.c:505-510 | in every run at most twenty publishes wait |
| MqttRuns.AckEnds | sdk/comm/mqtt/iotx_mqtt_client.c:446-485 | a record listed with the id when its PUBACK comes is never sent again; a later publish may draw the same id |
| MqttRuns.NeverAgain | sdk/comm/mqtt/iotx_mqtt_client.c:1903-1981 | a publish that is marked or gone is never sent again |
| MqttTimeouts.SweepSends | sdk/comm/mqtt/iotx_mqtt_client.c:1941-1971 | a sweep sends a record again, once and with its bytes, exactly if it is valid, the client is connected and more than twice the request timeout has passed when its turn comes |
| MqttTimeouts.SweepCounts | sdk/comm/mqtt/iotx_mqtt_client.c:1922-1974 | the client's count of sendings rises by one for each |
| MqttTimeouts.AllLateSent | sdk/comm/mqtt/iotx_mqtt_client.c:1922-1974 | in a sweep that leaves the client connected every valid record that is late when its turn comes is sent again |
| MqttTimeouts.SentAgain | sdk/comm/mqtt/iotx_mqtt_client.c:1903-1981 | after any run without its acknowledgement a waiting publish is sent again by the next sweep exactly if it is overdue then |
| MqttTimeouts.SpentIsExact | sdk/comm/mqtt/iotx_mqtt_client.c:1958-1958 | the time spent is the true one below 2^32 milliseconds, although the clock wraps |
| MqttTimeouts.PublishesExactly | sdk/comm/mqtt/iotx_mqtt_client.c:1423-1471 | exactly when a publish succeeds, when it tries to send at all, and what it does to the list and the state |
| MqttRuns.SweepCleans | sdk/comm/mqtt/iotx_mqtt_client.c:1922-1974 | unless a sending fails, a sweep leaves exactly the records not marked invalid, in order |
| MqttRuns.IdsRepeat | sdk/comm/mqtt/iotx_mqtt_client.c:640-654 | packet ids run through 1 to 65535: two draws share one exactly if a multiple of 65535 lies between |
| MqttSend.SendPacket | sdk/comm/mqtt/iotx_mqtt_client.c:658-684 | the loop over the writes computes what goes out and whether it counts as sent, for all results of the writes |
| MqttSend.SendProper | sdk/comm/mqtt/iotx_mqtt_client.c:658-684 | a sending succeeds exactly if the packet went out; otherwise a beginning of it went out, or all of it and fewer bytes than that from behind it |
| MqttSend.OkByCounts | sdk/comm/mqtt/iotx_mqtt_client.c:665-678 | it succeeds exactly if the counts of some first writes, none of them failing, add up to the length |
| MqttSend.PartThenAll | sdk/comm/mqtt/iotx_mqtt_client.c:666-672 | if the first write takes a part and the second all that it is offered, the sending fails and as many bytes from behind the packet go out as the first write took |
| MqttClient.Client.Publish | sdk/comm/mqtt/iotx_mqtt_client.c:1423-1471 | topic check, state check, next id, list entry, first sending and the entry's removal when that fails, for every QoS; QoS 2 draws an id and is refused |
| MqttClient.Client.PushAndSend | sdk/comm/mqtt/iotx_mqtt_client.c:208-269 | the record is listed before it is sent and taken out again if sending fails, which also disconnects |
| MqttClient.Client.Push | sdk/comm/mqtt/iotx_mqtt_client.c:492-539 | a new record with the packet's bytes and the time |
| MqttClient.Client.Acknowledge | sdk/comm/mqtt/iotx_mqtt_client.c:446-485 | every record with the id is marked, on the way from the tail |
| MqttClient.Client.Check | sdk/comm/mqtt/iotx_mqtt_client.c:1941-1971 | one record of the sweep: drop, keep, or send again and stamp |
| MqttClient.Client.PubInfoProc | sdk/comm/mqtt/iotx_mqtt_client.c:1903-1981 | the sweep over the heap list, removing a node only after the iterator has left it, treats every record once from the tail and ends at a failed sending |
| TopicMatch.IsTopicMatched | sdk/comm/mqtt/iotx_mqtt_client.c:803-835 | the two pointers compute the matching of filter and name, level by level where wildcards fill whole levels |
| TopicMatch.CharsMatchLevels | sdk/comm/mqtt/iotx_mqtt_client.c:803-835 | + takes one non-empty level, a final # what is left if it begins with a non-empty level, a # that is not last nothing |
| TopicMatch.MatchesIsStandard | sdk/comm/mqtt/iotx_mqtt_client.c:803-835 | everything matched is matched by section 4.7.1 of MQTT 3.1.1 |
| TopicMatch.MatchesExactly | sdk/comm/mqtt/iotx_mqtt_client.c:803-835 | for every name, empty levels included, the code matches exactly if the standard does and every wildcard stands over a non-empty level |
| TopicMatch.CharsExactly | sdk/comm/mqtt/iotx_mqtt_client.c:803-835 | the same about the texts |
| TopicMatch.EmptyLevelsMissed | sdk/comm/mqtt/iotx_mqtt_client.c:803-835 | three topics the standard matches and the code does not: a/+ over a/, a/# over a//b, a/# over a |
| DataPoints.RoundTrip | sdk/cloud/datapoint/iotx_datapoint_api.c:633-916 | parsing an upload into a table with the same definitions writes every uploaded record to its property, leaves the others alone and consumes the payload exactly |
| DataPoints.Transfer | sdk/cloud/datapoint/iotx_datapoint_api.c:633-916 | uploaded records arrive new and changed, with the sender's value exactly for the values that survive, in range or not; the rest of the table is as it was |
| DataPoints.DeliveredExactly | sdk/cloud/datapoint/iotx_datapoint_api.c:679-690 | exactly which values arrive unchanged, in range or not: with minimum 0, a number in range or already held by the receiver; otherwise one that clamping gives back from its 32-bit sum with the minimum, if the receiver does not hold that sum; an enumeration that fits a byte |
| DataPoints.ExactInRange | sdk/cloud/datapoint/iotx_datapoint_api.c:679-690 | for an integer in range that means: the minimum is 0, or clamping undoes the added minimum |
| DataPoints.MinimumAdded | sdk/cloud/datapoint/iotx_datapoint_api.c:679-690 | 20 in a range from 10 to 100 arrives as 30 |
| DataPoints.RecordInverts | sdk/cloud/datapoint/iotx_datapoint_api.c:777-864 | parsing one record gives its id and value and ends behind it |
| DataPoints.RepetitionClears | sdk/cloud/datapoint/iotx_datapoint_api.c:263-463 | over any run of user writes to the table: the first write of a differing value sets the change flag, and every repetition withdraws it exactly unless the value was a number out of range and differed |
| DataPoints.LastWriteDecides | sdk/cloud/datapoint/iotx_datapoint_api.c:263-463 | over any run of user writes of any values to the table: the change flag is set exactly if the last write of the property's type brought a value other than the one held before it |
| DataPoints.Table.Write | sdk/cloud/datapoint/iotx_datapoint_api.c:263-463 | value, change flag and read flag after a write by the user or the platform |
| DataPoints.Table.Index | sdk/cloud/datapoint/iotx_datapoint_api.c:39-47 | the first property with the id, or -1 |
| DataPoints.FormDataPoint | sdk/cloud/datapoint/iotx_datapoint_api.c:777-864 | the record of a property: id, type, length and data in one or two bytes each |
| DataPointWire.RecordBytes | sdk/cloud/datapoint/iotx_datapoint_api.c:777-864 | the bytes of records of each type, with ids and numbers of each width |
| DataPoints.Table.FormAll | sdk/cloud/datapoint/iotx_datapoint_api.c:895-916 | the records of all properties that may be uploaded, or of the changed ones |
| DataPoints.Table.SendAll | sdk/cloud/datapoint/iotx_datapoint_api.c:919-931 | the whole table as a payload, all change flags cleared |
| DataPoints.Table.ParseData | sdk/cloud/datapoint/iotx_datapoint_api.c:651-762 | one record's data, for every type byte and length |
| DataPoints.Table.Look | sdk/cloud/datapoint/iotx_datapoint_api.c:765-773 | the two system points are read: reboot, send everything or nothing |
| DataPointWire.PlatformAsks | sdk/cloud/datapoint/iotx_datapoint_api.c:765-773 | a write of the platform to 0x7F80 makes the device reboot, one to 0x7F81 makes it send everything, once, and without one nothing happens |
| DataPointWire.FlagsAct | sdk/cloud/datapoint/iotx_datapoint_api.c:765-773 | the action by the two flags, of which the one acted upon is old afterwards |
| DataPoints.Table.ReadFlag | sdk/cloud/datapoint/iotx_datapoint_api.c:182-193 | the read flag, which is then old |
| DataPoints.Table.ParseReceived | sdk/cloud/datapoint/iotx_datapoint_api.c:633-774 | the whole parser on every payload, and what the two system points make it do afterwards |
| Base64.RoundTrip | sdk/utils/digest/utils_base64.c:54-149 | decoding the encoding of any non-empty input gives the input, all of it and no more |
| Base64.EncodeBlocks | sdk/utils/digest/utils_base64.c:54-90 | the block encoder writes the encoding of section 4 of RFC 4648, or refuses too small an output |
| Base64.TestVectors | sdk/utils/digest/utils_base64.c:54-90 | the test vectors of section 10 of RFC 4648 |
| Base64.LetterTable | sdk/utils/digest/utils_base64.c:24-32 | the table runs A to Z, a to z, 0 to 9, plus, slash |
| Base64.DecodeText | sdk/utils/digest/utils_base64.c:92-149 | the decoder writes the bytes of all groups cut off by the padding, or refuses the length or the output |
| Base64.EncodeString | sdk/utils/misc/utils_httpc.c:55-74 | for every string and either sign of char, the bit accumulator writes the encoding of the string's effective bytes, those before a character from 128 on being overlaid with ones when char is signed |
| Base64.SignedExactly | sdk/utils/misc/utils_httpc.c:55-74 | with a signed char the output encodes the string exactly if the pending bits before every character from 128 on are ones anyway; with an unsigned one always |
| Base64.StepDrains | sdk/utils/misc/utils_httpc.c:60-66 | each character's letters come out of the low bits, although the accumulator wraps at 32 bits |
| CryptoEnvelope.SelfInverse | sdk/security/iotx_crypto_api.c:40-81 | applied to its own output the code restores what it reaches, for any cipher and any length |
| CryptoEnvelope.CryptedIsCtr | sdk/security/iotx_crypto_api.c:57-80 | the buffer holds the counter mode text, whatever it held before, exactly for payloads up to 256 bytes, since the index has 8 bits |
| CryptoEnvelope.CounterBlockIs | sdk/security/iotx_crypto_api.c:56-64 | the sixteen bytes of a counter block: direction, id, the last ten characters of the device id, zero and counter |
| CryptoEnvelope.CtrAt | sdk/security/iotx_crypto_api.c:61-80 | each byte of the text goes under a byte of the enciphered block whose counter is its block's number, from 1 on |
| CryptoEnvelope.CounterBlocksDiffer | sdk/security/iotx_crypto_api.c:56-64 | two counter blocks are equal exactly if direction, id, last ten characters and the counters modulo 2^16 are |
| CryptoEnvelope.Crypt | sdk/security/iotx_crypto_api.c:40-81 | what the loop writes, for every length; nothing for a device id below ten characters |
| CryptoEnvelope.FrameOpens | sdk/security/iotx_crypto_api.c:125-161 | a frame for the device is accepted under its id, and the buffer holds its payload, whatever it held before, exactly if it is no longer than 256 bytes |
| CryptoEnvelope.ForgedIsRejected | sdk/security/iotx_crypto_api.c:125-161 | a frame is rejected if and only if its code is not that of its body |
| CryptoEnvelope.CalMic | sdk/security/iotx_crypto_api.c:27-38 | the first four bytes of the CMAC |
| CryptoEnvelope.Connection.Encrypt | sdk/security/iotx_crypto_api.c:88-123 | id, encrypted payload and code in the output and the id counted, or -1 and no change without room |
| CryptoEnvelope.Connection.Decrypt | sdk/security/iotx_crypto_api.c:125-161 | the whole output buffer and the new id for an accepted frame; a rejected one leaves no trace |
| CryptoEnvelope.BodyIsFrame | sdk/security/iotx_crypto_api.c:88-123 | up to 256 bytes the device sends the frame its peer expects |
| CommIf.FromStart | sdk/comm-if/iotx_comm_if_api.c:152-405 | in every run the cloud notifications alternate beginning with connected, the interval while reconnecting is a doubling of 1000 up to 64000, and every delay armed lies in 1000..60000 |
| CommIf.RunIsProper | sdk/comm-if/iotx_comm_if_api.c:152-405 | the same from any sound state |
| CommIf.Backoff | sdk/comm-if/iotx_comm_if_api.c:330-342 | over every run of main-loop turns in which no attempt connects, k failed attempts later the interval is 1000 times 2^((n+k) mod 7) and one delay was armed for each |
| CommIf.LossStarts | sdk/comm-if/iotx_comm_if_api.c:389-399 | a turn after the loss of the connection begins this with n = 0 |
| CommIf.AttemptConnects | sdk/comm-if/iotx_comm_if_api.c:323-332 | an attempt whose time has come and that succeeds connects, and the cloud is notified |
| CommIf.BackoffEnds | sdk/comm-if/iotx_comm_if_api.c:330-342 | after any run of unsuccessful turns a successful attempt connects, with that one notification |
| CommIf.LossAndRecovery | sdk/comm-if/iotx_comm_if_api.c:355-405 | from the loss of the link over any unsuccessful turns to a successful attempt: connected, notified of the loss and of the recovery, one delay for the loss and one for each failed attempt |
| CommIf.FailureArms | sdk/comm-if/iotx_comm_if_api.c:343-350 | the timer is armed with the next interval and a random part of it, at most 60000 |
| CommIf.DelaySpread | sdk/comm-if/iotx_comm_if_api.c:343-348 | exactly the delays that can come out |
| CommIf.BeginsAgain | sdk/comm-if/iotx_comm_if_api.c:337-341 | an interval of 60000 or more is followed by 1000 |
| CommIf.EventsMean | sdk/comm-if/iotx_comm_if_api.c:226-314 | what connecting, sending, replying, asking for the link and disconnecting do with each result while the network is up |
| CommIf.NetworkGone | sdk/comm-if/iotx_comm_if_api.c:177-184 | whatever is tried without a network leaves the connection disconnected, with a notification if it was connected |
| CommIf.RunTellsNetwork | sdk/comm-if/iotx_comm_if_api.c:116-136 | in every run the notifications about the network alternate, and the last one tells its state |
| CommIf.TimerIsExact | sdk/comm-if/iotx_comm_if_api.c:324-327 | within a whole round of the clock the timer has run out if and only if the delay has passed since it was set, and less than half the clock's range since then |
| CommIf.Connection.SetConnState | sdk/comm-if/iotx_comm_if_api.c:152-175 | the state and the notification that its change calls for |
| CommIf.Connection.NetworkIsConnected | sdk/comm-if/iotx_comm_if_api.c:177-184 | without a network the connection becomes disconnected |
| CommIf.Connection.Connect | sdk/comm-if/iotx_comm_if_api.c:226-243 | connecting when it may, and the state by its result |
| CommIf.Connection.IsConnected | sdk/comm-if/iotx_comm_if_api.c:245-263 | the link is asked only when connected, and sets the state |
| CommIf.Connection.Disconnect | sdk/comm-if/iotx_comm_if_api.c:265-270 | the state becomes initialized, with a notification if it was connected |
| CommIf.Connection.SetNetworkState | sdk/comm-if/iotx_comm_if_api.c:116-136 | the network's state, and a notification when it changes |
| CommIf.Connection.constructor | sdk/comm-if/iotx_comm_if_api.c:191-224 | a fresh record is without network and in the invalid state |
| CommIf.Connection.SendData | sdk/comm-if/iotx_comm_if_api.c:272-288 | a failed sending disconnects; nothing is sent unless connected |
| CommIf.Connection.SendActionReply | sdk/comm-if/iotx_comm_if_api.c:290-314 | the same for a reply, which must have been built |
| CommIf.Connection.HandleReconnect | sdk/comm-if/iotx_comm_if_api.c:317-353 | nothing before the timer has run out; then success, or the next interval and delay |
| CommIf.Connection.Yield | sdk/comm-if/iotx_comm_if_api.c:355-405 | one turn of the main loop, from network check to reconnecting |

## Left out
- CoapSendList.Client.Send: a message whose 16-bit length passes the check although it is longer than the buffer is reported as an overrun and not followed further, because the code then writes behind its buffer; so does `CoapClient.Send`.
- CoapSerialize.SerializeMessage: the buffer holds the wire form, since the code itself checks no bound for the options.
- JsonPrinter.PrintNumber: int-range integers, because other numbers are printed by floating-point formats.
- JsonPrinter.PrintArray: trees whose numbers are int-range integers.
- JsonPrinter.PrintObject: trees whose numbers are int-range integers.
- JsonPrinter.PrintValue: trees whose numbers are int-range integers.
- JsonParser.ReadNumber: exact mantissa and power of ten in place of a double and its conversion to int.
- CoapDeserialize.ReadMessage: a token length of 9 to 15 or a seventeenth option ends as an overrun, because the code then writes outside its message struct.
- CoapClient.Send: an overrun of the send buffer is reported and not followed further.
- DataPoints.Table.Write: numbers with a resolution, which are floating point.
- DataPoints.FormDataPoint: numbers with a resolution, which are floating point.
- DataPoints.Table.ParseData: numbers with a resolution, and what the code finds when it reads outside the payload or the table.
- DataPoints.Table.SendAll: tables whose payload fits the 512-byte buffer, behind which the code writes otherwise.
- Base64.DecodeText: a non-empty text, because the code reads in front of an empty one.
- CoapSendList.Client.Handle: datagrams with a token length of 9 to 15 or a seventeenth option are decoded to an overrun and not followed further, because the code then writes outside its message struct.
- DataPoints.Table.ParseReceived: payloads on which the code reads outside the payload or the table (a number for an unknown id, a length beyond the end) are reported and not followed further.
- CryptoEnvelope.Connection.Decrypt: frames below six bytes are not modelled, because the code then reads in front of them.
- HashContext.Context.Update: one call takes less than 2^32 bytes, as size_t has 32 bits on the targets.
- LogCache.Log.EvictsOldest: up to 2^29 stamps between wildcards, because the stamp field has 29 bits; so has `LogCache.Log.EvictsLeastRecent`. The agreement of levels needs no such bound.
- LogRuns.HistoryTells: up to 2^29 stamps, for the same reason; `LogRuns.CleanExactly` needs no bound.
- Printing of JSON numbers that are not int-range integers, and data points with a resolution: floating point.
- Reads behind a text's terminator: the text is taken to end in NUL characters.
- Failing allocations, locks and threads: one caller at a time, and memory suffices.
- Requests without a handler: every request of the model has one, and the context a notifier.
- Handlers and notifiers that call back into the client while it runs them.
- The SHA-1 context calls the FIPS 180-4 compression, to which `Sha1Block.Process` is proved equal on an array; the two are not one class.
- AES and the MD5 block function, which are parameters.
- Splitting a URL and a query string into CoAP segments; requests take the segments.
- A CoAP payload pointer that is set but empty is taken for an absent payload, and so is a bare marker.
- The CoAP list's next and prev pointers and the log's singly linked list, which are sequences; the doubly linked heap list is modelled with its pointers in `LinkedList`.
- The MQTT subscription list, its slot table and UNSUBACK, which never frees a slot; packet encoders; how a topic string is checked, which is an input; what follows in mqtt_up_process.
- HTTP, OTA, keys, timers, certificates and the platform layer: input and output.
