# Verified models of a cloud controller's protocol and address code

A Dafny model of six parts of the repository, with proofs of what they keep over whole runs. In these parts,
loops and objects the source updates in place are methods and classes here, proved against a specification function or
relation; the results about the specifications are lemmas beside them, and what a specification means in octets,
characters and literal values is stated by lemmas of its own. `dafny verify dfyconfig.toml` checks the whole project.

* **AMQP 0-8 client.** `Bits`, `Bytes`, `Characters`, `Tables`, `Fields`, `Serialization`, `Properties`: typed fields
  with bit packing, nested tables and content properties, as octets and back. `Framing`, `MethodFraming`: methods split
  into frames and reassembled channel by channel. `Transport`: frames over a byte stream cut up by the network. `Stack`:
  all of these driven as objects, end to end. `Demux`: a connection that defers what nobody waits for yet.
* **LRU cache.** `Recency` is the recency order of a history of uses; `LruCache` is the linked list with its
  dictionary that implements its first entries.
* **Mock replay.** `Mox` is the language a recording stands for and the queue as a transition function; `MockQueue`
  is the queue of call and group objects.
* **IP addresses.** `Numerals`, `IpText`, `IpPrinter`: text forms and their parser. `Cidr`: ranges, netmasks,
  membership, overlap.
* **Address allocation.** `Network`: subnets of a pool and addresses of a subnet. `Allocation`: the controller, its
  memory and its store as steps over runs with restarts. `NetworkController`: the classes.
* **Instances and reports.** `Cloud`: launches, nodes, snapshots and the report queue as steps of one system.
  `CloudController`: the tables of the controller and of a node.
* **Flags.** `Prefixes`: shortest unique prefixes from sorted neighbours. `FlagFiles`: recursive flag files.

Where the code does not do what its documentation promises, the code is modelled as it is, a lemma or method gives an
input that shows it, and another says exactly when the promise holds:

| promise | input | exact condition |
|---|---|---|
| tables come back as written | `Tables.EarlyTimeLost`, `Tables.UndecodableNameLost` | `Tables.TableRoundTrip` |
| fields come back as written | `Fields.EarlyStampLost`, `Fields.StampOvertakes` | `Fields.FieldsRoundTrip`, `Fields.SafeLayouts` |
| properties come back as set | `Properties.EarlyMessageLost`, `Properties.Past15Lost`, `Properties.BitPropertyLost` | `Properties.PropertiesRoundTrip`, `Properties.SafeSchemas` |
| content arrives with its own method | `Framing.ContentMisplaced` | `Framing.InterleavedRoundTrip` |
| waiting on one channel loses nothing of another | `Demux.StrayLost` | `Demux.Connection.NothingLost`, `Demux.LosesExactly` |
| replay accepts what was recorded | `Mox.AmbiguousRejects` | `Mox.ReplayLanguage` |
| an address accepted fits its version | `IpText.NegativeExample` | `IpText.ParsedInRange` |
| a netmask comes back from its prefix length | `Cidr.NetmaskMisread` | `Cidr.NetmaskRoundTrip` |
| users' networks are separate | `Allocation.SmallNetworksCollide` | `Allocation.SeparateExactly`, `Allocation.RunKeeps` |
| a launched instance is found | `Cloud.HalfLaunchLost`, `Cloud.PendingNodeRun` | `Cloud.AlwaysFoundExactly`, `Cloud.LaunchedFound` |
| every flag name has a shortest prefix | `Prefixes.EmptyNameFails` | `Prefixes.ShortestUniquePrefixes` |

A value of an AMQP field *can be converted* when it is a time from the epoch to the last second of the year 9999, a
short string or table name in UTF-8, or of any other kind.

## Model

| member | source | states |
|---|---|---|
| Bytes.UnBeHead | nova/contrib/amqplib/client_0_8/serialization.py:106-139 | in a number of any width the first octet is the most significant |
| Bytes.NetworkOrder | nova/contrib/amqplib/client_0_8/serialization.py:106-139 | one, two and four octets are read high before low |
| Characters.Utf8Exactly | nova/contrib/amqplib/client_0_8/serialization.py:142-151 | the octets that decode as text are exactly the UTF-8 encodings of sequences of character numbers up to 0x10ffff |
| Tables.TableReadsBack | nova/contrib/amqplib/client_0_8/serialization.py:165-190 | a written table, nested to any depth, is read back as the dictionary written, with exactly its announced length consumed, when its times can be converted and its names are UTF-8; otherwise reading fails |
| Tables.TableRoundTrip | nova/contrib/amqplib/client_0_8/serialization.py:356-394 | the reader returns the dictionary that was written if and only if, at every depth, no time lies before the epoch or past the last datetime and every name is UTF-8 |
| Tables.AsMapOrderFree | nova/contrib/amqplib/client_0_8/serialization.py:365-370 | two listings of the same dictionary denote the same map: the order of writing does not matter |
| Tables.EarlyTimeLost | nova/contrib/amqplib/client_0_8/serialization.py:193-200 | any time two seconds or more before the epoch is written signed, read unsigned, and cannot be converted: the table is lost |
| Tables.UndecodableNameLost | nova/contrib/amqplib/client_0_8/serialization.py:142-151 | a name that is not UTF-8 is written as it is and fails to decode |
| Tables.ItemRoundTrip | nova/contrib/amqplib/client_0_8/serialization.py:371-392 | for each of the five kinds of value the type octet selects the reader that undoes the writer, or that fails on a time or a name that cannot be converted |
| Tables.ItemOctets | nova/contrib/amqplib/client_0_8/serialization.py:366-391 | a string is S, its length in four octets and itself, an integer I and four octets, a decimal D, its scale and four octets, a time T and eight octets, a dictionary F and a table; negative numbers in two's complement |
| Tables.ItemRefused | nova/contrib/amqplib/client_0_8/serialization.py:356-391 | the values that cannot be written are exactly the numbers out of range, the strings of 2^32 octets or more, and the dictionaries with such an entry |
| Tables.TableOctets | nova/contrib/amqplib/client_0_8/serialization.py:392-394 | a table is the length of its entries in four octets and the entries |
| Tables.EntryAppended | nova/contrib/amqplib/client_0_8/serialization.py:364-391 | one more entry appends the length of its name in one octet, the name and the value, and fails just when the name is longer than 255 octets or the value cannot be written |
| Tables.DigitsHead | nova/contrib/amqplib/client_0_8/serialization.py:379-384 | the coefficient of a decimal takes its digits most significant first |
| Tables.LastTime | nova/contrib/amqplib/client_0_8/serialization.py:193-200 | the last second of the year 9999 is converted, the next is not |
| Tables.StringCutShort | nova/contrib/amqplib/client_0_8/serialization.py:154-162 | a string that ends before its announced length is read as far as it goes |
| Tables.TableCutShort | nova/contrib/amqplib/client_0_8/serialization.py:165-190 | a table that ends before its announced length is never read |
| Tables.UnknownType | nova/contrib/amqplib/client_0_8/serialization.py:171-190 | a type letter that is none of the five repeats the value before, and is an error in the first entry |
| Fields.PackLength | nova/contrib/amqplib/client_0_8/serialization.py:268-281 | a maximal run of n bits takes ceil(n / 8) octets |
| Fields.PackedBit | nova/contrib/amqplib/client_0_8/serialization.py:268-281 | bit i of a run is bit i % 8, counted from the least significant, of octet i / 8 |
| Fields.FieldOctets | nova/contrib/amqplib/client_0_8/serialization.py:284-403 | what each field is on the wire: 1, 2, 4 or 8 octets of an integer in its range, a string behind 1 or 4 octets of length, a time in two's complement; and the error outside the ranges |
| Fields.WriterEncodes | nova/contrib/amqplib/client_0_8/serialization.py:224-229 | the writer, fed any fields whose timestamps do not follow a bit directly, holds exactly the wire form: octets of runs and fields in order, bits flushed together at every other field |
| Fields.ReaderDecodes | nova/contrib/amqplib/client_0_8/serialization.py:83-162 | reading the kinds written, in order, from a wire form returns the values written and leaves just what follows it, or fails where a value cannot be converted |
| Fields.FieldsRoundTrip | nova/contrib/amqplib/client_0_8/serialization.py:250-353 | a list of writable fields with aligned timestamps is read back as written with nothing left if and only if its times can be converted and its short strings and table names are UTF-8; otherwise reading fails |
| Fields.SafeLayouts | nova/contrib/amqplib/client_0_8/serialization.py:397-403 | exactly which layouts survive: all convertible values of a list of kinds round trip if and only if no timestamp directly follows a bit |
| Fields.EarlyStampLost | nova/contrib/amqplib/client_0_8/serialization.py:193-200 | any timestamp two seconds or more before the epoch is written and does not come back |
| Fields.StampOvertakes | nova/contrib/amqplib/client_0_8/serialization.py:397-403 | bits of which the first is set, and the timestamp 0 right after them, are misread: the timestamp overtakes the pending bits |
| Serialization.Writer.FlushBits | nova/contrib/amqplib/client_0_8/serialization.py:224-229 | the pending octets of bits move to the output, one by one, and the bit count is reset |
| Serialization.Writer.GetValue | nova/contrib/amqplib/client_0_8/serialization.py:250-256 | the pending octets of bits are flushed and everything written is returned |
| Serialization.Writer.Write | nova/contrib/amqplib/client_0_8/serialization.py:259-265 | the octets follow everything written before, pending bits first |
| Serialization.Writer.WriteBit | nova/contrib/amqplib/client_0_8/serialization.py:268-281 | the new state is the specification of one more bit: a new octet at every eighth, otherwise a bit set in the last |
| Serialization.Writer.WriteOctet | nova/contrib/amqplib/client_0_8/serialization.py:284-292 | an octet follows the flushed bits; outside 0..255 an error and nothing written |
| Serialization.Writer.WriteShort | nova/contrib/amqplib/client_0_8/serialization.py:295-303 | two octets in network order follow the flushed bits, or the range error |
| Serialization.Writer.WriteLong | nova/contrib/amqplib/client_0_8/serialization.py:306-314 | four octets in network order follow the flushed bits, or the range error |
| Serialization.Writer.WriteLongLong | nova/contrib/amqplib/client_0_8/serialization.py:317-325 | eight octets in network order follow the flushed bits, or the range error |
| Serialization.Writer.WriteShortStr | nova/contrib/amqplib/client_0_8/serialization.py:328-340 | one octet of length and the string, or the error for more than 255 octets |
| Serialization.Writer.WriteLongStr | nova/contrib/amqplib/client_0_8/serialization.py:343-353 | four octets of length and the string, or the range error |
| Serialization.Writer.WriteTimestamp | nova/contrib/amqplib/client_0_8/serialization.py:397-403 | eight octets in two's complement are put out before the pending bits |
| Serialization.Writer.WriteDecimal | nova/contrib/amqplib/client_0_8/serialization.py:375-384 | scale and signed 32-bit coefficient of a decimal, or the range error |
| Serialization.Writer.WriteItem | nova/contrib/amqplib/client_0_8/serialization.py:367-391 | the type octet of the value and its encoding follow what is in the table |
| Serialization.Writer.WriteEntries | nova/contrib/amqplib/client_0_8/serialization.py:364-391 | the writer of a table holds all entries in the order listed, or the first error |
| Serialization.Writer.WriteTable | nova/contrib/amqplib/client_0_8/serialization.py:356-394 | the new state is that of a table field: entries in a writer of their own behind their length, or the error with nothing lost |
| Serialization.Reader.ReadBit | nova/contrib/amqplib/client_0_8/serialization.py:92-103 | the next bit, refilling from the stream when the held octet is used up |
| Serialization.Reader.Read | nova/contrib/amqplib/client_0_8/serialization.py:83-89 | the next n octets, or as many as there are, and the bit buffer reset |
| Serialization.Reader.ReadNumber | nova/contrib/amqplib/client_0_8/serialization.py:106-139 | the unsigned integer of the next octets, the bit buffer reset, or an error at the end of the data |
| Serialization.Reader.ReadString | nova/contrib/amqplib/client_0_8/serialization.py:142-162 | the octets behind their length, fewer where the data ends |
| Serialization.Reader.ReadShortStr | nova/contrib/amqplib/client_0_8/serialization.py:142-151 | the text of the next short string, or the decoding error where it is not UTF-8 |
| Serialization.Reader.ReadTimestamp | nova/contrib/amqplib/client_0_8/serialization.py:193-200 | the time of the next eight octets read unsigned, or the error where no datetime is that late |
| Serialization.Reader.ReadValue | nova/contrib/amqplib/client_0_8/serialization.py:177-188 | the value of the type octet; an unknown octet leaves the previous value in place |
| Serialization.Reader.ReadAllEntries | nova/contrib/amqplib/client_0_8/serialization.py:171-190 | all entries of the announced octets, a repeated key keeping its last value, or the first error |
| Serialization.Reader.ReadTableField | nova/contrib/amqplib/client_0_8/serialization.py:165-190 | the dictionary of the next table and a state right after its announced octets |
| Serialization.WriteFields | nova/contrib/amqplib/client_0_8/serialization.py:203-403 | one writer driven over any list of fields returns the specified octets or the first error |
| Serialization.ReadFields | nova/contrib/amqplib/client_0_8/serialization.py:58-200 | one reader driven over any list of kinds returns the specified values and rest, or the first error |
| Serialization.WriteThenRead | nova/contrib/amqplib/client_0_8/serialization.py:58-403 | through both objects: fields with aligned timestamps come back as written exactly when they can be written and converted |
| Properties.PropertiesRoundTrip | nova/contrib/amqplib/client_0_8/serialization.py:465-530 | for any schema, properties come back exactly as set if and only if none present lies past the fifteenth slot, none is a bit, and all can be converted; for a table present behind a present bit the only if is not stated |
| Properties.PropertiesReadBack | nova/contrib/amqplib/client_0_8/serialization.py:465-496 | without a bit among them or one past the fifteenth slot, the loader returns the properties set when all can be converted, and fails otherwise |
| Properties.BitSetLost | nova/contrib/amqplib/client_0_8/serialization.py:517-522 | a bit present among any other properties, with no table behind it, makes the set come back wrong or not at all: the loader takes octets of the values behind for it |
| Properties.SafeSchemas | nova/contrib/amqplib/client_0_8/serialization.py:499-530 | the schemas for which every set of convertible properties survives are those with at most fifteen slots and no bit slot |
| Properties.FlagBit | nova/contrib/amqplib/client_0_8/serialization.py:499-516 | slot i has bit 15 - i of the flag word, set exactly when the property is present |
| Properties.OnlyPast15 | nova/contrib/amqplib/client_0_8/serialization.py:508-522 | alone, the sixteenth property goes to bit 15 of a second flag word, and a later one fails on a negative shift |
| Properties.NoContinuation | nova/contrib/amqplib/client_0_8/serialization.py:513-516 | the continuation bit is never set in any flag word, however long the schema |
| Properties.Past15Lost | nova/contrib/amqplib/client_0_8/serialization.py:465-496 | a property past the fifteenth slot is never found by the loader |
| Properties.BitPropertyLost | nova/contrib/amqplib/client_0_8/serialization.py:517-522 | a bit property is flagged but its value never written, so alone it cannot be read back |
| Properties.CollectLookup | nova/contrib/amqplib/client_0_8/serialization.py:484-496 | what the loader is expected to return holds the value of each present property and nothing else |
| Properties.GenericContent.constructor | nova/contrib/amqplib/client_0_8/serialization.py:416-428 | exactly the given properties that the schema names are kept |
| Properties.MessageRoundTrip | nova/contrib/amqplib/client_0_8/basic_message.py:39-54 | a writable set of the fourteen message properties is read back exactly if and only if its timestamp and header times can be converted and its texts are UTF-8 |
| Properties.MessageOctets | nova/contrib/amqplib/client_0_8/basic_message.py:39-54 | a message with one property is the flag that AMQP gives that property, 0x8000 for content_type down to 0x0004 for cluster_id, and its value |
| Properties.EarlyMessageLost | nova/contrib/amqplib/client_0_8/basic_message.py:39-54 | a message with such a timestamp is written and its properties cannot be read |
| Properties.GenericContent.SerializeProperties | nova/contrib/amqplib/client_0_8/serialization.py:499-530 | the packing loop returns the specified flag words and values, or the error |
| Properties.GenericContent.ReadFlagWords | nova/contrib/amqplib/client_0_8/serialization.py:474-482 | the flag words up to the first with a clear low bit, and the reader right behind them |
| Properties.GenericContent.LoadFound | nova/contrib/amqplib/client_0_8/serialization.py:484-494 | the loop over the schema finds the specified properties, or reports the first error |
| Properties.GenericContent.LoadProperties | nova/contrib/amqplib/client_0_8/serialization.py:465-496 | the loading loops leave exactly the specified properties, or report the error |
| Framing.InterleavedRoundTrip | nova/contrib/amqplib/client_0_8/method_framing.py:58-204 | for any frames of a connection among which those of a channel are, in order, those of some methods: the channel receives exactly these methods, properties and bodies in order and ends idle if and only if all their properties can be converted, whatever arrives or fails on other channels |
| Framing.SplitReassembles | nova/contrib/amqplib/client_0_8/method_framing.py:230-244 | the frames of one method, read from an idle channel, give back exactly that method; or its header raises, its body frames are refused one by one, and the channel is left waiting for a header |
| Framing.ContentMisplaced | nova/contrib/amqplib/client_0_8/method_framing.py:150-187 | after a header that raised, the next method of the channel is refused and its content is delivered under the signature and arguments of the one before |
| Framing.RunProjects | nova/contrib/amqplib/client_0_8/method_framing.py:119-147 | the state and the items of a channel depend on that channel's frames alone, exceptions included |
| Framing.ChunksCover | nova/contrib/amqplib/client_0_8/method_framing.py:242-244 | the body frames concatenate to the body, none is empty and all but the last are exactly frame_max - 8 octets long |
| Framing.SplitOnWire | nova/contrib/amqplib/client_0_8/method_framing.py:230-244 | the frames of a method, octet by octet: type 1 with class id, method id and arguments; with content type 2 with class id, two zero octets, body size in eight octets and the properties, then the body in frames of type 3, full but for the last |
| Framing.AwaitsContent | nova/contrib/amqplib/client_0_8/method_framing.py:58-62 | content is awaited behind class 60, methods 50, 60 and 71, and behind no other |
| Framing.WrongType | nova/contrib/amqplib/client_0_8/method_framing.py:135-141 | a frame whose type is not the one due, of 1, 2 and 3, is answered with both types and changes nothing |
| Framing.FramesFit | nova/contrib/amqplib/client_0_8/method_framing.py:242-244 | each body frame takes at most frame_max octets on the wire, head and end included |
| Framing.AcceptedExplained | nova/contrib/amqplib/client_0_8/method_framing.py:80-92 | over any frames whatever on a channel: what was accepted splits into one block per method delivered, each explaining its method by a body of the announced size, and the frames still pending |
| Framing.ConnectionExplained | nova/contrib/amqplib/client_0_8/method_framing.py:125-204 | the same on every channel of any frame stream, with wrong frame types and payloads that cannot be read |
| MethodFraming.MethodWriter.WriteMethod | nova/contrib/amqplib/client_0_8/method_framing.py:230-244 | the frames sent are those of the specification, octet by octet as `Framing.SplitOnWire` says: class id, zero weight and body size in the header, full body frames; when properties cannot be serialized just the method frame is out |
| MethodFraming.PartialMessage.AddHeader | nova/contrib/amqplib/client_0_8/method_framing.py:80-83 | size and properties are taken from the header, and the message is complete when the size is zero; a header that cannot be read changes nothing |
| MethodFraming.PartialMessage.AddPayload | nova/contrib/amqplib/client_0_8/method_framing.py:86-92 | the payload is kept; the message is complete, its body joined, exactly when the announced size is reached |
| MethodFraming.MethodReader.ProcessMethodFrame | nova/contrib/amqplib/client_0_8/method_framing.py:150-165 | a method with content waits for its header, any other is queued at once |
| MethodFraming.MethodReader.ProcessContentHeader | nova/contrib/amqplib/client_0_8/method_framing.py:168-187 | a bodyless method is queued and forgotten, any other waits for its body |
| MethodFraming.MethodReader.ProcessFrame | nova/contrib/amqplib/client_0_8/method_framing.py:125-204 | one frame moves channel states and queue as specified, or raises and changes nothing, and keeps the invariant: a partial message exactly where the expected type is not 1, so that no lookup fails |
| MethodFraming.MethodReader.ProcessContentBody | nova/contrib/amqplib/client_0_8/method_framing.py:190-204 | payloads accumulate until the announced size is reached, then the method is queued and forgotten |
| MethodFraming.MethodReader.ReadMethod | nova/contrib/amqplib/client_0_8/method_framing.py:119-147 | the next outcome of the frame source, no frame read beyond it, and the reader in the specified state, also after an exception |
| MethodFraming.DrainIsRun | nova/contrib/amqplib/client_0_8/method_framing.py:207-216 | reading method by method, on after exceptions, delivers exactly the items of the whole frame stream |
| Transport.FrameRoundTrip | nova/contrib/amqplib/client_0_8/transport.py:104-125 | a packed frame at the front of a stream is parsed back, the rest untouched |
| Transport.FramesRoundTrip | nova/contrib/amqplib/client_0_8/transport.py:104-125 | frames written one after another are read back one after another |
| Transport.WireLayout | nova/contrib/amqplib/client_0_8/transport.py:118-125 | one octet of type, two of channel, four of size, the payload, and 206 |
| Transport.ParseExactly | nova/contrib/amqplib/client_0_8/transport.py:104-115 | a frame is parsed if and only if its octets stand at the front of the stream |
| Transport.ParseFails | nova/contrib/amqplib/client_0_8/transport.py:104-115 | another octet at the end is the framing error with that octet, and a stream that ends within a frame is closed |
| Transport.TCPTransport.Read | nova/contrib/amqplib/client_0_8/transport.py:194-208 | exactly the next n octets; buffer and unread stream together are conserved, however the stream is cut into receives |
| Transport.TCPTransport.ReadFrame | nova/contrib/amqplib/client_0_8/transport.py:104-115 | the frame at the front of the stream, or the framing error or closed socket |
| Transport.TCPTransport.WriteFrame | nova/contrib/amqplib/client_0_8/transport.py:118-125 | the packed frame follows everything written, or nothing is written when a field does not fit |
| Stack.EndToEnd | nova/contrib/amqplib/client_0_8/method_framing.py:58-244 | one method drives the writer, the packing and unpacking transport and the reader: calls on one connection, cut up arbitrarily on the way, arrive on every channel exactly as sent if the properties of its own methods can be converted, and no exception is raised if and only if all can |
| Stack.Interleaved | nova/contrib/amqplib/client_0_8/method_framing.py:58-244 | the same for frames of several writers interleaved in any way that keeps each channel in order |
| Stack.ReadAll | nova/contrib/amqplib/client_0_8/method_framing.py:207-216 | the reader object driven until its frames run out gives the outcomes the specification says, exceptions among them |
| Stack.ConnectionReads | nova/contrib/amqplib/client_0_8/method_framing.py:207-216 | what the connection then reads on such a channel are just the methods sent on it |
| Demux.Connection.WaitMethod | nova/contrib/amqplib/client_0_8/connection.py:174-218 | exactly what one wait does, an answer being allowed or a channel close (20, 40): the first wanted deferred method, or reading up to the first event that ends it, with everything passed over deferred or dispatched; afterwards every method received is accounted for, whatever was raised |
| Demux.Connection.TakeDeferred | nova/contrib/amqplib/client_0_8/connection.py:180-188 | the first deferred method that is allowed or a channel close (20, 40) is removed from its channel and delivered, or nothing changes |
| Demux.Connection.ReadUntil | nova/contrib/amqplib/client_0_8/connection.py:191-218 | the read loop ends at the first wanted method, which is allowed or a channel close (20, 40), at the first method for a channel not open, method of channel 0 whose handler raises, or event that is no method, and at no other; what it passes over is deferred, and dispatched at once on channel 0 |
| Demux.WaitedAnswers | nova/contrib/amqplib/client_0_8/connection.py:174-218 | a wait that succeeds gives the first wanted method of its channel, deferred ones before those to come; one that runs out of events met none allowed and no channel close (20, 40) |
| Demux.DeferredAnswer | nova/contrib/amqplib/client_0_8/connection.py:180-188 | the first deferred method that is allowed or has signature (20, 40) is returned and removed, the others stay in order |
| Demux.ReadAnswer | nova/contrib/amqplib/client_0_8/connection.py:191-218 | with none deferred, the first method of the channel read that is allowed or has signature (20, 40) is returned; those before it are deferred on their channels in order, those of channel 0 dispatched |
| Demux.CloseAnswers | nova/contrib/amqplib/client_0_8/connection.py:201-205 | a close of the channel, (20, 40), is returned whatever is allowed |
| Demux.ReadRaises | nova/contrib/amqplib/client_0_8/connection.py:191-218 | the first event not passed over raises when it is no method, is for a channel not open, or is one of channel 0 whose handler raises |
| Demux.AnswersAsked | nova/contrib/amqplib/client_0_8/connection.py:183-205 | a method neither allowed nor (20, 40) is never returned when something is asked for |
| Demux.LosesExactly | nova/contrib/amqplib/client_0_8/connection.py:197-210 | a wait loses a method exactly when it ends at one for a channel that is not open, and then that one |
| Demux.StrayLost | nova/contrib/amqplib/client_0_8/connection.py:197-210 | with channel 0 alone open, a method for another channel is read and gone |
| Demux.Connection.OpenChannel | nova/contrib/amqplib/client_0_8/connection.py:166-171 | the lowest id in 1..channel_max used by no channel, or the error when all are used |
| Demux.Connection.CloseChannel | nova/contrib/amqplib/client_0_8/channel.py:85-93 | the channel is gone and what was deferred on it is dropped, nothing else |
| Demux.Connection.DeliveredInOrder | nova/contrib/amqplib/client_0_8/connection.py:174-218 | in every reachable state, per channel and signature: those delivered, merged with those a closed channel dropped and those lost, are the first received, in order; without a drop or loss those delivered are a prefix |
| Demux.Connection.NothingLost | nova/contrib/amqplib/client_0_8/connection.py:174-218 | in every reachable state nothing is lost but by closing channels, counted per method, if and only if every method read was for a channel open at that time |
| Demux.Connection.AllAccountedFor | nova/contrib/amqplib/client_0_8/connection.py:174-218 | in every reachable state each method received is, as often as it came, delivered, deferred, unread, dropped by a closed channel, or lost |
| Recency.UseKeepsRecent | nova/contrib/boto/boto/utils.py:434-448 | using a key in the first capacity entries of the recency order gives the first capacity entries of the new order |
| Recency.RecentDistinct | nova/contrib/boto/boto/utils.py:416-448 | the recency order of any history lists every key once |
| Recency.RecentByLastUse | nova/contrib/boto/boto/utils.py:416-448 | told by the history alone: every key used is listed, with the value of its last use, and later last uses come first |
| LruCache.LRUCache.GetItem | nova/contrib/boto/boto/utils.py:434-437 | the held value, its key now first; nothing changes when the key is not held; links, dictionary and recency order stay one sequence |
| LruCache.LRUCache.SetItem | nova/contrib/boto/boto/utils.py:439-448 | the key becomes the first and what exceeds the capacity leaves from the end |
| LruCache.LRUCache.ManageSize | nova/contrib/boto/boto/utils.py:463-470 | the list is cut to the capacity from its tail, in both link directions and the dictionary |
| LruCache.LRUCache.InsertItem | nova/contrib/boto/boto/utils.py:439-461 | a new item becomes the first and what exceeds the capacity leaves from the end |
| LruCache.LRUCache.UpdateItem | nova/contrib/boto/boto/utils.py:472-485 | the item moves to the front, all others keep their order, both link directions agree |
| LruCache.LRUCache.Keys | nova/contrib/boto/boto/utils.py:425-429 | iteration yields the keys, the most recently used first |
| LruCache.EvictsOldest | nova/contrib/boto/boto/utils.py:453-470 | setting a key not held in a full cache drops exactly the least recently used pair |
| Mox.AcceptedMatches | nova/contrib/pymox/mox.py:849-874 | every call sequence that replays without error and verifies belongs to the recorded language |
| Mox.MatchingAccepted | nova/contrib/pymox/mox.py:1551-1588 | every sequence of the language is accepted when repeat groups have distinct members and share none with the block behind them |
| Mox.AmbiguousRejects | nova/contrib/pymox/mox.py:1604-1648 | otherwise some sequence of the language is rejected |
| Mox.ReplayLanguage | nova/contrib/pymox/mox.py:1531-1648 | replay and verification accept exactly the recorded language if and only if repeat groups have distinct members and share none with the next block |
| Mox.RecordingGroups | nova/contrib/pymox/mox.py:908-947 | recording joins consecutive calls of one group kind and name; the blocks list the calls in order, each under the kind and the group name it was recorded with, and neighbouring groups differ |
| Mox.RecordingUnique | nova/contrib/pymox/mox.py:908-947 | the recorded queue is the only one of fresh blocks with these calls, kinds and names in which neighbouring groups differ |
| Mox.AddRecords | nova/contrib/pymox/mox.py:927-947 | a call is recorded under its own kind and group name, whatever stands before it |
| Mox.OrderedReplay | nova/contrib/pymox/mox.py:849-874 | calls recorded without a group are accepted just as recorded |
| Mox.AnyOrderReplay | nova/contrib/pymox/mox.py:1531-1588 | calls of one unordered group are accepted in any order, each as often as recorded, and in no other way |
| Mox.TimesReplay | nova/contrib/pymox/mox.py:1591-1648 | different calls of one repeat group are accepted in any order, each at least once, and in no other way |
| MockQueue.ExpectedCalls.VerifyMethodCall | nova/contrib/pymox/mox.py:849-874 | the loop over popped groups leaves the queue the specification says, or rejects the call |
| MockQueue.ExpectedCalls.Verify | nova/contrib/pymox/mox.py:378-394 | passes exactly when nothing is left but perhaps one satisfied repeat group |
| MockQueue.ExpectedCalls.InAnyOrder | nova/contrib/pymox/mox.py:927-965 | the call leaves the tail of the queue and joins, or begins, an unordered group; the queue is what was recorded before and this call under its own group name |
| MockQueue.ExpectedCalls.Append | nova/contrib/pymox/mox.py:792-824 | a recorded call is appended on its own |
| MockQueue.UnorderedGroup.MethodCalled | nova/contrib/pymox/mox.py:1551-1583 | one occurrence of the call leaves the group, and true exactly when there was one |
| MockQueue.MultipleTimesGroup.MethodCalled | nova/contrib/pymox/mox.py:1614-1644 | the first equal member counts as called, and true exactly when there is one |
| MockQueue.ExpectedCalls.MultipleTimes | nova/contrib/pymox/mox.py:927-979 | the call leaves the tail of the queue and joins, or begins, a repeat group; the queue is what was recorded before and this call under its own group name |
| MockQueue.ExpectedCalls.ReplayCalls | nova/contrib/pymox/mox.py:378-394 | a whole replay on the shared queue accepts exactly as specified |
| IpText.FullRoundTrip | nova/contrib/IPy.py:1100-1129 | parsing the full text of any version 6 address returns the address and version 6 |
| IpText.DottedRoundTrip | nova/contrib/IPy.py:1100-1129 | parsing the dotted text of any version 4 address returns the address and version 4 |
| IpText.CompressedRoundTrip | nova/contrib/IPy.py:309-352 | parsing the compressed text of any version 6 address, with the zero run at the start, middle or end, all zero, or IPv4-mapped, returns the address and version 6 |
| IpText.NormalRoundTrip | nova/contrib/IPy.py:354-372 | parsing the uncompressed text without leading zeros returns the address |
| IpText.CompressedElides | nova/contrib/IPy.py:331-350 | the elided run is the leftmost of the longest ones, and never a single zero |
| IpText.ParsedInRange | nova/contrib/IPy.py:1028-1097 | the value of an accepted text fits the version reported if and only if the text is not a decimal, 0x or 32-digit numeral with a negative value; every one of those is accepted with that value |
| IpText.DottedMeaning | nova/contrib/IPy.py:1074-1086 | one to four numbers from 0 to 255 between dots: the first is the most significant octet and those missing on the right are zero |
| IpText.DottedAccepted | nova/contrib/IPy.py:1074-1085 | dotted text is accepted exactly for at most four numbers from 0 to 255 |
| IpText.ShortDottedExamples | nova/contrib/IPy.py:1036-1040 | "10.1", "127" and the documented "123.123" are 167837696, 2130706432 and 2071658496 |
| IpText.NumeralMeaning | nova/contrib/IPy.py:1059-1097 | a hexadecimal numeral behind 0x, one of 32 digits, and a decimal one are their values, of version 4 below 2^32 and 6 from there, of version 6 for 32 digits, and refused from 2^128 on where the length is not 32 |
| IpText.ColonMeaning | nova/contrib/IPy.py:962-1026 | eight hexadecimal numbers between colons, in either case of letters, are the hextets from the most significant on |
| IpText.DottedEndMeaning | nova/contrib/IPy.py:992-1000 | six hextets and a dotted address are the hextets followed by the 32 bits of that address |
| IpText.ColonAccepted | nova/contrib/IPy.py:962-1026 | text with single colons is accepted exactly for eight numbers from 0 to 0xffff |
| IpText.ElidedAccepted | nova/contrib/IPy.py:964-1026 | text with `::` is accepted exactly for at most seven such numbers |
| IpText.ElidedOnce | nova/contrib/IPy.py:966-971 | a second `::` is refused |
| IpText.EdgeColons | nova/contrib/IPy.py:974-988 | a single colon at the start or the end is refused |
| Numerals.DigitValues | nova/contrib/IPy.py:1016-1019 | which characters are digits, and of what value, in lower and upper case |
| Numerals.DigitsForm | nova/contrib/IPy.py:1110-1125 | printed numbers are in lower case and without leading zeros |
| IpText.DottedForm | nova/contrib/IPy.py:1110-1116 | the dotted text is the four octets in decimal, the most significant first |
| IpText.FullForm | nova/contrib/IPy.py:1117-1125 | the full text has thirty-nine characters: a colon at every fifth, lower-case hexadecimal digits at the others |
| IpText.MappedForm | nova/contrib/IPy.py:322-327 | the compressed text is `::ffff:` and a dotted text exactly for the addresses from 0xffff * 2^32 up to 2^48 |
| IpText.NegativeAccepted | nova/contrib/IPy.py:1080-1097 | a minus sign and three digits or more, except thirty-one, of a positive number are accepted as a negative address of version 4 |
| IpText.NegativeExample | nova/contrib/IPy.py:1080-1097 | "-1234" is accepted as the address -1234 of version 4 |
| IpText.HextetsMakeValue | nova/contrib/IPy.py:1010-1026 | the eight hextets are below 2^16 and make up the address |
| IpPrinter.IntToIp | nova/contrib/IPy.py:1100-1129 | text exactly for versions 4 and 6 and addresses in their range, and parsing it gives the address back |
| IpPrinter.DottedLoop | nova/contrib/IPy.py:1110-1116 | four turns of mask and shift put the octets in front of each other, as the dotted text |
| IpPrinter.FullLoop | nova/contrib/IPy.py:1117-1125 | thirty-two turns over the digits put a colon after every fourth, as the full text |
| IpPrinter.StrCompressed | nova/contrib/IPy.py:309-352 | the run search, the deletion loop and the inserted empty items give the specified compressed text |
| IpPrinter.ParseAddressIPv6 | nova/contrib/IPy.py:908-1026 | the cutting loop and the shifting loop give the specified value, or the error |
| Cidr.RangeAccepted | nova/contrib/IPy.py:143-162 | a first-last range is accepted exactly when it is an aligned power-of-two block, and the network covers exactly the range |
| Cidr.IpFromRange | nova/contrib/IPy.py:143-203 | the same for the text of a range: its two ends, in whatever form they are accepted, parse errors and version 6 included |
| Cidr.MakeNetAccepts | nova/contrib/IPy.py:1264-1269 | an address and prefix make a network exactly when the address is aligned on the network's size |
| Cidr.NetOfCovers | nova/contrib/IPy.py:190-203 | masking with make_net finds the one network of that prefix length that covers the address |
| Cidr.OverlapsIffNested | nova/contrib/IPy.py:567-612 | overlap is non-zero exactly when one network contains the other, and the sign says which starts first |
| Cidr.OverlapsIffShared | nova/contrib/IPy.py:590-612 | overlap is non-zero exactly when some address lies in both |
| Cidr.ContainsIsInclusion | nova/contrib/IPy.py:567-588 | membership of a network is inclusion of its addresses |
| Cidr.ItemsAreAddresses | nova/contrib/IPy.py:535-563 | indexing enumerates the addresses, from the end with negative keys, and fails outside |
| Cidr.NetSizes | nova/contrib/IPy.py:495-513 | the networks of one prefix length together make up the 2^32 addresses of version 4 or the 2^128 of version 6 |
| Cidr.NetmaskAccepted | nova/contrib/IPy.py:1244-1281 | a netmask is accepted exactly when it is one run of ones, wherever the run stands, and gives the length of the run |
| Cidr.PrefixRoundTrip | nova/contrib/IPy.py:1284-1295 | prefix length to netmask and back |
| Cidr.NetmaskRoundTrip | nova/contrib/IPy.py:1272-1295 | an accepted 32-bit netmask survives the way to a prefix length and back if and only if it is 0 or has its top bit set |
| Cidr.NetmaskMisread | nova/contrib/IPy.py:1272-1281 | 0.255.255.0 is taken for the prefix length 16 |
| Cidr.Count1Bits | nova/contrib/IPy.py:1188-1194 | the shift loop counts the binary digits |
| Cidr.Count0Bits | nova/contrib/IPy.py:1196-1209 | the shift loop counts the trailing zeros |
| Cidr.CheckNetmask | nova/contrib/IPy.py:1244-1261 | the two loops accept exactly the masks the recursive check accepts |
| Cidr.NetmaskToPrefixlen | nova/contrib/IPy.py:1272-1281 | the method computes the specified prefix length or fails |
| Network.FirstFreeIsLowest | nova/compute/network.py:105-120 | allocation finds the lowest free address of index 3 to len - 3, and none exactly when all are held |
| Network.RangeSize | nova/compute/network.py:105-108 | the range holds len - 5 addresses |
| Network.RangeIndices | nova/compute/network.py:105-108 | the addresses given out are those from the fourth of the network to the third from its end |
| Network.SubnetIs | nova/compute/network.py:375-379 | a vlan above the start gets the aligned block of its number, inside the pool, exactly as long as the pool has it |
| Network.SubnetsApart | nova/compute/network.py:375-379 | different vlans get subnets that do not overlap |
| Allocation.StepKeeps | nova/compute/network.py:476-527 | every request and restart keeps, if and only if it does not strand a vlan on a network of four addresses: the stored record of each user is the network in memory, vlans differ and lie above the start, and below the end where that is above the start, hosts belong to their network |
| Allocation.RunKeeps | nova/compute/network.py:436-564 | in every run all that holds after every operation up to a point exactly when none before it stranded a vlan |
| Allocation.AllocateKeeps | nova/compute/network.py:502-513 | an allocation gives the lowest free address and changes nothing else about hosts, or fails and changes none; it is out of addresses only when the whole range is held; on networks of four addresses a user's first one fails and leaves the new vlan unsaved |
| Allocation.NextVlanIs | nova/compute/network.py:426-431 | the next vlan is one above the highest given out and the start, and there is none when that is the end |
| Allocation.AllocateExactly | nova/compute/network.py:476-513 | a user unknown to the manager is refused; a new one gets the next vlan and the block of the pool of its number, or the failure of the one used up; the address given lies from the fourth to the third from the end |
| Allocation.CloudpipeKeeps | nova/compute/network.py:496-500 | a cloudpipe request gives the address at index 2 and changes nothing else about hosts |
| Allocation.DeallocateKeeps | nova/compute/network.py:515-527 | a deallocation succeeds exactly when somebody holds the address and takes away that alone |
| Allocation.RestartKeeps | nova/compute/network.py:436-455 | a new controller on the store has every network exactly as it was |
| Allocation.HeldOnce | nova/compute/network.py:110-120 | no address is held by two users |
| Allocation.NeverReissued | nova/compute/network.py:476-513 | in every run, restarts included and networks of any size, an address held is not given out again before it is deallocated |
| Allocation.SeparateExactly | nova/compute/network.py:375-379 | users' networks have different vlans and share no address in all runs if and only if networks have more than four addresses |
| Allocation.SmallNetworksCollide | nova/compute/network.py:476-513 | with networks of four addresses two users asking around a restart end up on one vlan and one subnet |
| NetworkController.PrivateNetwork.AllocateIp | nova/compute/network.py:110-120 | the scan gives the lowest free address and records the host, or leaves the hosts alone |
| NetworkController.PrivateNetwork.DeallocateIp | nova/compute/network.py:122-127 | that host alone is gone; false exactly when the address was not held |
| NetworkController.PrivateNetwork.GetVpnIp | nova/compute/network.py:275-281 | the host at index 2 is the user's, all others stay |
| NetworkController.VlanPool.Next | nova/compute/network.py:416-431 | the vlan above all given out is assigned, or none when that is the end |
| NetworkController.VlanPool.constructor | nova/compute/network.py:382-389 | the pool knows exactly the vlans of the users |
| NetworkController.Controller.GetUsersNetwork | nova/compute/network.py:476-494 | the stored network in a new object, or a new one on the next vlan and stored at once, or the failure |
| NetworkController.Controller.Save | nova/compute/network.py:547-564 | every record, the listed users and the vlans are stored, or the loop stops at a user without a vlan |
| NetworkController.Controller.AllocateAddress | nova/compute/network.py:502-513 | the method is an allocation step of the system |
| NetworkController.Controller.GetCloudpipeAddress | nova/compute/network.py:496-500 | the method is a cloudpipe step of the system |
| NetworkController.Controller.DeallocateAddress | nova/compute/network.py:515-527 | the search loop with its reloads is a deallocation step of the system |
| NetworkController.Controller.constructor | nova/compute/network.py:436-455 | the constructor rebuilds memory from the store as specified and leaves the store unchanged |
| Cloud.StepKeeps | nova/endpoint/cloud.py:384-402 | every step keeps: ids sit at the node that ran them, snapshots only grow on instances nobody terminates, pending ids are the completed and unreported ones |
| Cloud.LaunchedFound | nova/endpoint/cloud.py:226-240 | in every reachable state every launched and never terminated instance is found, if and only if no node is named "pending" |
| Cloud.FoundExactly | nova/endpoint/cloud.py:226-240 | an instance nobody terminated is found exactly when its launch completed or a consumed report listed it |
| Cloud.OnePlace | nova/endpoint/cloud.py:226-233 | an id is listed in one place at a time |
| Cloud.PendingIs | nova/endpoint/cloud.py:545-561 | in every reachable state the pending ids are exactly the launched ones not in any consumed report, if and only if no node is named "pending" |
| Cloud.NeverPendingAgain | nova/endpoint/cloud.py:545-561 | an id that is not pending any more does not become pending again |
| Cloud.AlwaysFoundExactly | nova/endpoint/cloud.py:384-402 | along every run each running instance can always be found exactly when no launch fails after sending some of its instances, if and only if no node is named "pending" |
| Cloud.PendingNodeRun | nova/endpoint/cloud.py:545-561 | with a node named "pending": a launch, its report and the consumption of it lose a completed instance |
| Cloud.HalfLaunchLost | nova/endpoint/cloud.py:384-402 | a launch that fails after sending some of its instances leaves one that is not found |
| Cloud.PendingNodeForgets | nova/endpoint/cloud.py:545-561 | a report under the node name "pending" wipes out the pending instances |
| Cloud.LaunchAdds | nova/endpoint/cloud.py:390-401 | a launch adds its instances to the pending ones and leaves all else as it is |
| Cloud.ReportReplaces | nova/endpoint/cloud.py:545-559 | a report becomes the whole entry of its node, what it lists is no longer pending, and other nodes keep their entries |
| Cloud.LastReportCounts | nova/endpoint/cloud.py:545-559 | when all reports have been consumed, each node that reported is listed with its last report |
| Cloud.DestroyedForgotten | nova/endpoint/cloud.py:545-559 | once its node has destroyed an instance and reported, and the report was consumed, the instance is not found |
| CloudController.CloudController.RunInstances | nova/endpoint/cloud.py:384-402 | all instances become pending when every address was given, none otherwise; those before the failure were sent all the same |
| CloudController.PendingAre | nova/endpoint/cloud.py:390-397 | the pending entry of a launch has exactly its ids, each with the owner and state 0 |
| CloudController.CloudController.UpdateState | nova/endpoint/cloud.py:545-561 | the loop removes exactly the reported ids from the pending ones and replaces the node's entry |
| CloudController.CloudController.GetById | nova/endpoint/cloud.py:226-233 | a place that lists the id, and none exactly when no place does |
| CloudController.CloudController.TerminateInstance | nova/endpoint/cloud.py:448-462 | an unknown id is not found, a pending instance is refused, otherwise the request goes to a node that lists it |
| CloudController.Node.RunInstance | nova/compute/node.py:117-129 | a new id is added with its description, a known one refused |
| CloudController.Node.TerminateInstance | nova/compute/node.py:132-140 | the id is gone, all others stay; an unknown id is an error |
| CloudController.Node.DescribeInstances | nova/compute/node.py:109-114 | the snapshot is the whole table |
| CloudController.Node.ReportState | nova/compute/node.py:96-106 | the report names the node and carries its whole table |
| CloudController.LaunchStep | nova/endpoint/cloud.py:384-402 | running instances is a launch step of the system: the table and the messages to the nodes |
| CloudController.RunOnStep | nova/compute/node.py:117-129 | a node taking a message to run an instance is a step of the system |
| CloudController.ReportStep | nova/compute/node.py:96-106 | a node reporting its state is a step of the system |
| CloudController.ConsumeStep | nova/fakerabbit.py:33-48 | consuming the oldest report is a step of the system: the table and the queue |
| CloudController.TerminateStep | nova/endpoint/cloud.py:448-462 | a request to terminate that reaches a node is a step of the system, any other changes nothing |
| CloudController.DestroyedStep | nova/compute/node.py:132-140 | a node finishing a termination is a step of the system |
| Prefixes.ShortestUniquePrefixes | nova/contrib/python-gflags/gflags.py:1208-1242 | for each name the shortest non-empty prefix that starts no other name, the whole name when it is a prefix of or equal to another; it fails exactly when a name is empty |
| Prefixes.NamesAre | nova/contrib/python-gflags/gflags.py:1211-1217 | the names are those of the flags and, behind `no`, those of the boolean ones |
| Prefixes.EmptyNameFails | nova/contrib/python-gflags/gflags.py:1208-1242 | a single flag without a name makes it fail |
| Prefixes.NeighboursSuffice | nova/contrib/python-gflags/gflags.py:1219-1241 | a non-empty prefix of a name in sorted order starts another name exactly when it starts a neighbour |
| Prefixes.LcpBetween | nova/contrib/python-gflags/gflags.py:1219-1241 | in sorted order a name further away shares no more than one in between |
| Prefixes.SortIs | nova/contrib/python-gflags/gflags.py:1211-1217 | sorting orders the names and keeps each as often as it occurs |
| FlagFiles.FileLines | nova/contrib/python-gflags/gflags.py:1273-1327 | expansion terminates for every finite set of files, cyclic inclusion too, and the list of files read only grows |
| FlagFiles.ExpansionReadsReachable | nova/contrib/python-gflags/gflags.py:1273-1327 | expansion fails exactly when a reachable file has an illegal directive, and otherwise reads exactly the reachable files |
| FlagFiles.FileReadsReachable | nova/contrib/python-gflags/gflags.py:1273-1327 | the same behind files read before with all they include |
| FlagFiles.ArgumentsReadReachable | nova/contrib/python-gflags/gflags.py:1363-1394 | a whole command line fails exactly when a file reachable from those its directives name has an illegal directive, or when its last directive lacks its file, with the error of that order, and otherwise reads exactly the reachable files |
| FlagFiles.ExpansionReadsOnce | nova/contrib/python-gflags/gflags.py:1306-1317 | no file is read twice |
| FlagFiles.FileKept | nova/contrib/python-gflags/gflags.py:1296-1327 | every useful line of every file read appears exactly once |
| FlagFiles.FileOrdered | nova/contrib/python-gflags/gflags.py:1296-1327 | the useful lines of every file read keep their order in the expansion |
| FlagFiles.LinesInOrder | nova/contrib/python-gflags/gflags.py:1296-1327 | lines give their output one after the other, each knowing the files read by those before it |
| FlagFiles.StandsInPlace | nova/contrib/python-gflags/gflags.py:1308-1327 | between the output of the lines before a line and of those behind it stands its own text, or the lines of the file it includes when that was not read before |
| FlagFiles.OnlyDirectivesCut | nova/contrib/python-gflags/gflags.py:1363-1394 | arguments keep their order, and cutting out exactly the directives, each with the argument it takes, leaves the arguments kept |
| FlagFiles.NoDirectiveLeft | nova/contrib/python-gflags/gflags.py:1363-1394 | where nothing stops the scan, no directive is among the arguments kept |
| FlagFiles.ArgumentLinesKept | nova/contrib/python-gflags/gflags.py:1363-1394 | the lines put in front are exactly the useful lines of all files read, each as often as its file was read |
| FlagFiles.ArgumentLinesOrdered | nova/contrib/python-gflags/gflags.py:1363-1394 | among the lines put in front, those of every file read keep their order |
| FlagFiles.ExpandedArranged | nova/contrib/python-gflags/gflags.py:1363-1394 | the expanded command line can be cut so that the arguments kept are at the end and, in front of them, the lines each directive contributed, later directives first |
| FlagFiles.IncludeLines | nova/contrib/python-gflags/gflags.py:1259-1271 | both forms of an including line name the file behind `=`, blanks stripped and `~` expanded |
| FlagFiles.OtherLines | nova/contrib/python-gflags/gflags.py:1304-1316 | comments and blank lines are ignored, and a directive without its file is illegal in a file |
| FlagFiles.UsefulExactly | nova/contrib/python-gflags/gflags.py:1304-1326 | every line that is no comment, no directive and not all blanks is a flag, stripped |
| FlagFiles.StopsThere | nova/contrib/python-gflags/gflags.py:1382-1392 | behind `--`, or without GNU order behind an argument without a dash, nothing is expanded |
| FlagFiles.OneDirective | nova/contrib/python-gflags/gflags.py:1366-1381 | each of the four forms of one directive among ordinary arguments puts its file's lines in front of all of them, and a bare one at the end is the error |
| FlagFiles.CommandLineWins | nova/contrib/python-gflags/gflags.py:1377-1394 | of two values of a flag the one in the file comes first and the one on the command line last, wherever the directive stands |
| FlagFiles.FlagReader.GetFlagFileLines | nova/contrib/python-gflags/gflags.py:1273-1327 | the recursive method with its shared list of parsed files computes the specified lines and files, or the error |
| FlagFiles.FlagReader.ReadFlagsFromFiles | nova/contrib/python-gflags/gflags.py:1363-1394 | the result is the useful lines of all files reached and then the arguments without the directives; the lines of a later directive stand before those of an earlier one; it is an error exactly when a reachable file has an illegal directive or the last directive lacks its file |

## Left out

- Texts of the AMQP fields are their UTF-8 octets: whether they decode is modelled, the Unicode characters are not, nor is the writer's encoding of a Unicode object.
- Timestamps are seconds since the epoch; the local time zone is not modelled, so the last second a date-time can hold is the one of the epoch's zone. The second before the epoch, which `time.mktime` of Python 2.6 and earlier cannot give, is written like any other.
- Decimals in tables keep their numeric value; NaN, infinities and normal forms of `Decimal` are not modelled.
- Properties.GenericContent.LoadProperties: uses a second map for what was received, where the source overwrites its one attribute `properties`.
- Properties.PropertiesRoundTrip: where a table property is present behind a bit property, that the set does not come back is not stated; the shifted octets might spell the same table in another way, as a value of an unknown type repeats the one before.
- Demux.Connection.WaitMethod: dispatching on channel 0 is delivery and a handler that returns or raises; what handlers do besides, and everything after one has closed the connection, is not modelled.
- Sockets, SSL, login and tuning, threads, logging: the receive calls of the transport are a list of chunks.
- Mock comparators, signatures, side effects, return values and attribute mocking: a call is an opaque value with equality.
- Numerals follow `int` and `long` of Python 2: blanks, a sign, `0x` in base 16 and a final `L` for `long`; digits of other scripts in Unicode texts are not modelled.
- IpText.CompressedRoundTrip: is about a single address; the `/prefix` that follows a network's text is not modelled.
- Reverse DNS names, `iptype`, network addition and the string forms in binary, decimal and hexadecimal of IPy.
- Host addresses of a network are numbers; their texts stand for them one to one by `IpText.DottedRoundTrip`.
- The public network: associating, disassociating and releasing public addresses, and the branch of `deallocate_address` for them.
- User deletion and with it the recycling of vlans, which leaves the deleted user's entry in place.
- Looking a user's network up without allocating: in the source it always follows an allocation, which has saved the vlan.
- VPN addresses and ports, interfaces, `iptables`, `dnsmasq` and the files behind the store.
- The messages of `CloudController` are one object, `Bus`, in place of the exchanges and queues of the message broker.
- Cloud.LaunchedFound: a node neither crashes nor loses its table, and a message is delivered at most once, in the order of the queue for reports and in any order for the others.
- The other topics of `update_state` (volumes), console output, volumes and rebooting.
- FlagFiles.FlagReader.GetFlagFileLines: after an error the list of files read is only known to have grown; warnings printed are not modelled.
- The getopt call, flag parsing proper, help and XML output of gflags.
