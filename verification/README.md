# JBD battery bridge: a Dafny model of its protocols

The repository is firmware for an ESP32: it polls JBD battery management systems over Bluetooth Low Energy and
publishes what they report over MQTT. It carries its own copies of the Bluetooth stack (NimBLE-Arduino with tinycrypt)
and of the MQTT client (PubSubClient). This project models the parts whose correctness is not visible from one body,
and proves properties of them that hold for every input, every run or every interleaving.

| module | what it models |
|---|---|
| `AesField`, `AesTables`, `AesColumns`, `AesCipher`, `AesKeys`, `AesStandard`, `AesBuffers` | AES-128 of tinycrypt: field arithmetic, tables, cipher and inverse cipher, key expansion, all of it byte by byte as in FIPS 197, and the in-place buffer code |
| `MqttFraming`, `MqttMessages`, `MqttKeepAlive`, `MqttClient` | the MQTT 3.1.1 client: packet framing, PUBLISH and CONNECT, the keep-alive machine, and the class with its buffer |
| `AdvFields`, `AdvServices`, `AdvertisedDevice`, `AdvBuilder`, `AdvPacker`, `AdvOutcome` | Bluetooth advertising data: the structures, the numbering of service UUIDs, the reader, the builder, the packer of `start`, and what goes over the air |
| `ScanResults`, `ScanOutcome` | the results of a scan: the handler, and what they are in terms of the reports alone |
| `ClientConnection` | a blocking `connect()` interleaved with host events |
| `JbdFrames`, `JbdScheduler` | the JBD protocol: frames, checksum, request scheduler |
| `AttValue` | the growable attribute value and the GATT write |
| `Bytes` | bytes, optional values and concatenation, shared by the others |

The form is the same throughout. A class or array method follows the source statement by statement and is proved
against a function on values; the properties are lemmas about that function, and what it does is also stated without
it, in the bytes of the formats and the events of a run. Integers have the width of the source where it matters: 8-bit
counters, 16-bit lengths and 32-bit clocks wrap as they do there.

Where the code does not keep what one would expect, the code is modelled as it is and the exact condition is proved:

- `getServiceUUID` skips UUIDs when a further list of a kind is longer than those before it together and does not
  repeat them (`AdvServices.EnumeratesIffInStep`, `AdvServices.SkippedExample`).
- The packer refuses an advertisement that would fit when 30 or 31 bytes are taken, there is no scan response, and the
  transmission power does not help: the length of the name wraps (`AdvPacker.PlacedFits`, `AdvPacker.NamelessRefused`).
  The wrapped length stays for the next start (`AdvPacker.AfterRefusal`).
- A name that was moved to the scan response stays there in later starts, and is read instead of a later name that is
  empty or not marked complete (`AdvOutcome.NameReceived`).
- The packer counts manufacturer data of one byte, which the host then leaves out (`AdvPacker.CountedIsEncoded`).
- A link lost between the MTU event and the end of `connect()` leaves the client established without a connection until
  a host reset (`ClientConnection.StuckExactly`, `ClientConnection.StuckUntilHostReset`).
- A will QoS above 3 spills into other connect flags, and 3 is not a QoS (`MqttMessages.ConnectRoundTrip`).
- A PUBLISH of fewer than two bytes makes the reader take bytes of the next packet (`MqttFraming.TakenExactly`).
- The battery protocol does not protect the type, the high checksum byte and the end byte
  (`JbdFrames.SingleChangeDetected`), and a frame that comes in one piece is not seen until the next one
  (`JbdFrames.ReassembledIffGoodSplit`).
- When the 32-bit counter of cell requests wraps, the next hardware request comes early (`JbdScheduler.PollingStep`).
- An advertised field that is empty and the last one is not read (`AdvFields.ReadBack`).
- `NimBLEAttValue` does not check the length of its initial value (`AttValue.NimBLEAttValue.FromBytes`).

## Model

| member | source | states |
|---|---|---|
| `AesField.DoubleMultiplies` | lib/NimBLE-Arduino/src/nimble/ext/tinycrypt/src/utils.c:59-62 | doubling a byte is multiplication by 02 in GF(2^8), reduced by the AES polynomial (section 4.2.1 of FIPS 197) |
| `AesField.MacrosMultiply` | lib/NimBLE-Arduino/src/nimble/ext/tinycrypt/src/aes_decrypt.c:67-71 | the doubling macros multiply by 02, 03, 09, 0b, 0d and 0e, for every byte |
| `AesField.Distributes` | lib/NimBLE-Arduino/src/nimble/ext/tinycrypt/src/aes_decrypt.c:67-71 | multiplication by the matrix coefficients distributes over a sum of four products, from additivity of each macro |
| `AesTables.SubstitutionInverse` | lib/NimBLE-Arduino/src/nimble/ext/tinycrypt/src/aes_decrypt.c:37-60 | the two substitution tables undo each other in both orders, on all 256 entries |
| `AesTables.SBoxIsAffineOfInverse` | lib/NimBLE-Arduino/src/nimble/ext/tinycrypt/src/aes_encrypt.c:37-60 | the table is what section 5.1.1 of FIPS 197 defines: the affine map of the multiplicative inverse |
| `AesColumns.RowsAreMatrixProducts` | lib/NimBLE-Arduino/src/nimble/ext/tinycrypt/src/aes_decrypt.c:73-79 | the unrolled rows of both mult_row_column routines are the matrix products of sections 5.1.3 and 5.3.3 of FIPS 197 |
| `AesColumns.MixColumnInverse` | lib/NimBLE-Arduino/src/nimble/ext/tinycrypt/src/aes_decrypt.c:81-90 | the two matrices are mutually inverse on every column |
| `AesCipher.ShiftTables` | lib/NimBLE-Arduino/src/nimble/ext/tinycrypt/src/aes_encrypt.c:147-156 | the written-out byte moves of shift_rows and inv_shift_rows are the row rotations of FIPS 197 |
| `AesCipher.ShiftRowsInverse` | lib/NimBLE-Arduino/src/nimble/ext/tinycrypt/src/aes_decrypt.c:118-127 | the two row shifts undo each other |
| `AesCipher.SubBytesInverse` | lib/NimBLE-Arduino/src/nimble/ext/tinycrypt/src/aes_decrypt.c:104-111 | the two substitutions undo each other on every block |
| `AesCipher.MixColumnsInverse` | lib/NimBLE-Arduino/src/nimble/ext/tinycrypt/src/aes_decrypt.c:81-90 | mixing and unmixing the columns undo each other on every block |
| `AesCipher.AddRoundKeyInverse` | lib/NimBLE-Arduino/src/nimble/ext/tinycrypt/src/aes_decrypt.c:92-102 | adding a round key twice changes nothing |
| `AesCipher.DecryptTracksEncrypt` | lib/NimBLE-Arduino/src/nimble/ext/tinycrypt/src/aes_decrypt.c:146-151 | after n rounds of decrypting a cipher block the state is the one encryption had after the substitution and row shift that follow its first 9 - n rounds |
| `AesCipher.EncryptTracksDecrypt` | lib/NimBLE-Arduino/src/nimble/ext/tinycrypt/src/aes_encrypt.c:174-179 | the same pairing of rounds in the other direction |
| `AesCipher.DecryptEncrypt` | lib/NimBLE-Arduino/src/nimble/ext/tinycrypt/src/aes_decrypt.c:129-164 | for every block and every schedule the inverse cipher undoes the cipher |
| `AesCipher.EncryptDecrypt` | lib/NimBLE-Arduino/src/nimble/ext/tinycrypt/src/aes_encrypt.c:158-191 | for every block and every schedule the cipher undoes the inverse cipher |
| `AesKeys.RotWordRotates` | lib/NimBLE-Arduino/src/nimble/ext/tinycrypt/src/aes_encrypt.c:62-65 | rotword is a rotation of the four bytes by one |
| `AesKeys.SubWordSubstitutes` | lib/NimBLE-Arduino/src/nimble/ext/tinycrypt/src/aes_encrypt.c:67-68 | subword substitutes each of the four bytes |
| `AesKeys.RconstDoubles` | lib/NimBLE-Arduino/src/nimble/ext/tinycrypt/src/aes_encrypt.c:72-75 | each round constant is the double of the one before, starting at 1 |
| `AesKeys.ExpansionIsSchedule` | lib/NimBLE-Arduino/src/nimble/ext/tinycrypt/src/aes_encrypt.c:85-96 | the expansion starts with the key and obeys the recurrence everywhere |
| `AesKeys.NextWordCancels` | lib/NimBLE-Arduino/src/nimble/ext/tinycrypt/src/aes_encrypt.c:91-95 | the step of the recurrence undoes itself |
| `AesKeys.Rewinds` | lib/NimBLE-Arduino/src/nimble/ext/tinycrypt/src/aes_encrypt.c:90-96 | running the recurrence backwards from any four consecutive words of a schedule gives its first four |
| `AesKeys.WindowDeterminesSchedule` | lib/NimBLE-Arduino/src/nimble/ext/tinycrypt/src/aes_encrypt.c:90-96 | two schedules that agree on four consecutive words, anywhere, are equal |
| `AesKeys.KeyRecovered` | lib/NimBLE-Arduino/src/nimble/ext/tinycrypt/src/aes_encrypt.c:85-96 | the key is computed back from any four consecutive words of its schedule |
| `AesKeys.ExpansionInjective` | lib/NimBLE-Arduino/src/nimble/ext/tinycrypt/src/aes_encrypt.c:70-99 | different keys have different schedules |
| `AesStandard.RconstIsPower` | lib/NimBLE-Arduino/src/nimble/ext/tinycrypt/src/aes_encrypt.c:72-75 | round constant i is 02 to the power i - 1 in GF(2^8), in the first byte of its word |
| `AesStandard.NextWordIsStandard` | lib/NimBLE-Arduino/src/nimble/ext/tinycrypt/src/aes_encrypt.c:91-95 | one step of the recurrence, byte by byte as in section 5.2 of FIPS 197: every fourth word adds the substituted bytes 1, 2, 3, 0 of the word before and the round constant, the others add the word before |
| `AesStandard.ExpansionIsStandard` | lib/NimBLE-Arduino/src/nimble/ext/tinycrypt/src/aes_encrypt.c:85-96 | all 44 words of the expansion of every key are those bytes, and the first four are the key |
| `AesStandard.AddedByte` | lib/NimBLE-Arduino/src/nimble/ext/tinycrypt/src/aes_encrypt.c:101-111 | byte i of the sum with round key n is byte i plus byte i modulo 4 of word 4n + i / 4 |
| `AesStandard.MixedByte` | lib/NimBLE-Arduino/src/nimble/ext/tinycrypt/src/aes_encrypt.c:124-141 | byte by byte, what substitution, row shift and column mixing make of a block: a product of four substituted bytes with 02 03 01 01 |
| `AesStandard.RoundsAreStandard` | lib/NimBLE-Arduino/src/nimble/ext/tinycrypt/src/aes_encrypt.c:172-181 | after every n of the first nine rounds the state is, byte by byte, that of section 5.1 of FIPS 197, with words 4n to 4n + 3 added after round n |
| `AesStandard.CipherIsStandard` | lib/NimBLE-Arduino/src/nimble/ext/tinycrypt/src/aes_encrypt.c:158-191 | the cipher is ten such rounds, the last without the mixing, and uses each of the eleven round keys once, ascending |
| `AesStandard.InverseIsStandard` | lib/NimBLE-Arduino/src/nimble/ext/tinycrypt/src/aes_decrypt.c:129-164 | ten such rounds of what the inverse cipher gives are its input, for every block and schedule |
| `AesBuffers.LoadWord` | lib/NimBLE-Arduino/src/nimble/ext/tinycrypt/src/aes_encrypt.c:85-88 | one big-endian word of the key |
| `AesBuffers.LaterWord` | lib/NimBLE-Arduino/src/nimble/ext/tinycrypt/src/aes_encrypt.c:91-95 | one later word is the next word of the recurrence |
| `AesBuffers.SetEncryptKey` | lib/NimBLE-Arduino/src/nimble/ext/tinycrypt/src/aes_encrypt.c:70-99 | the two loops leave the words of the schedule in the array, each the bytes that section 5.2 of FIPS 197 gives |
| `AesBuffers.AddRoundKeyTo` | lib/NimBLE-Arduino/src/nimble/ext/tinycrypt/src/aes_encrypt.c:101-111 | every byte i of the block is replaced by its sum with byte i modulo 4 of word 4r + i / 4 |
| `AesBuffers.SubBytesIn` | lib/NimBLE-Arduino/src/nimble/ext/tinycrypt/src/aes_encrypt.c:113-120 | the loop replaces every byte of the block, once |
| `AesBuffers.InvSubBytesIn` | lib/NimBLE-Arduino/src/nimble/ext/tinycrypt/src/aes_decrypt.c:104-111 | the same for the inverse table |
| `AesBuffers.ShiftRowsIn` | lib/NimBLE-Arduino/src/nimble/ext/tinycrypt/src/aes_encrypt.c:147-156 | the block is replaced by its shifted rows, through a second array |
| `AesBuffers.InvShiftRowsIn` | lib/NimBLE-Arduino/src/nimble/ext/tinycrypt/src/aes_decrypt.c:118-127 | the inverse shift in place |
| `AesBuffers.MultRowColumnInto` | lib/NimBLE-Arduino/src/nimble/ext/tinycrypt/src/aes_encrypt.c:124-130 | one column of the output is the matrix product of the input column, the others are unchanged |
| `AesBuffers.MixColumnsIn` | lib/NimBLE-Arduino/src/nimble/ext/tinycrypt/src/aes_encrypt.c:132-141 | the block is replaced by its mixed columns |
| `AesBuffers.InvMultRowColumnInto` | lib/NimBLE-Arduino/src/nimble/ext/tinycrypt/src/aes_decrypt.c:73-79 | one column of the output is the inverse matrix product of the input column |
| `AesBuffers.InvMixColumnsIn` | lib/NimBLE-Arduino/src/nimble/ext/tinycrypt/src/aes_decrypt.c:81-90 | the block is replaced by its unmixed columns |
| `AesBuffers.Encrypt` | lib/NimBLE-Arduino/src/nimble/ext/tinycrypt/src/aes_encrypt.c:158-191 | the output buffer, which may be the input buffer, holds the ten rounds of FIPS 197 of the input, under the words of the schedule in ascending order |
| `AesBuffers.Decrypt` | lib/NimBLE-Arduino/src/nimble/ext/tinycrypt/src/aes_decrypt.c:129-164 | the output buffer, which may be the input buffer, holds the block whose ten rounds of FIPS 197 are the input |
| `AesBuffers.RoundTrips` | lib/NimBLE-Arduino/src/nimble/ext/tinycrypt/src/aes_decrypt.c:129-164 | under one expanded key, decrypting what was encrypted in place restores the buffer, and the other way around |
| `MqttFraming.DecodeEncode` | lib/PubSubClient/src/PubSubClient.cpp:557-579 | the length digits that are written decode to the length, whatever follows (section 2.2.3 of MQTT 3.1.1) |
| `MqttFraming.TakenExactly` | lib/PubSubClient/src/PubSubClient.cpp:312-368 | a call takes exactly one packet if and only if it is not a PUBLISH of fewer than two bytes |
| `MqttFraming.NeverLosesSync` | lib/PubSubClient/src/PubSubClient.cpp:312-368 | on any run of well-formed packets each call takes exactly one, whole if it fits the buffer and as nothing if it does not |
| `MqttFraming.FifthDigitDrops` | lib/PubSubClient/src/PubSubClient.cpp:322-328 | a fourth length digit that announces another drops the connection, and only that |
| `MqttFraming.PartTimesOut` | lib/PubSubClient/src/PubSubClient.cpp:312-368 | a packet that has not arrived in full is waited for, wherever it is cut |
| `MqttMessages.CStringReads` | lib/PubSubClient/src/PubSubClient.cpp:398-400 | the string read up to the first NUL is the text before it |
| `MqttMessages.PublishLayout` | lib/PubSubClient/src/PubSubClient.cpp:455-469 | where topic length, topic and payload of a published packet are, and its first byte: 30, or 31 if retained |
| `MqttMessages.PublishRoundTrip` | lib/PubSubClient/src/PubSubClient.cpp:448-472 | a published packet is well formed, is read whole by a peer with the same buffer size, and gives back topic and payload |
| `MqttMessages.PublishReaction` | lib/PubSubClient/src/PubSubClient.cpp:395-418 | every PUBLISH of section 3.3 of MQTT 3.1.1, of every QoS, brings its topic and payload to the callback, and QoS 1 is acknowledged with 40 02 and its id |
| `MqttMessages.OtherReactions` | lib/PubSubClient/src/PubSubClient.cpp:419-425 | of all other packets a PINGREQ is answered with d0 00, a PINGRESP is noted, and the rest is ignored |
| `MqttMessages.SplitJoin` | lib/PubSubClient/src/PubSubClient.cpp:213-229 | the connect flags are packed without overlap: the fields of section 3.1.2.3 of MQTT 3.1.1 come out as put in |
| `MqttMessages.FlagsDecode` | lib/PubSubClient/src/PubSubClient.cpp:213-229 | what a server reads from the flags, for every will QoS: modulo 4, with the higher bits of it set in the other flags |
| `MqttMessages.ConnectLayout` | lib/PubSubClient/src/PubSubClient.cpp:208-253 | what a server reads from a CONNECT packet, for all arguments |
| `MqttMessages.ConnectBytes` | lib/PubSubClient/src/PubSubClient.cpp:196-235 | the bytes of a CONNECT packet before the strings, as section 3.1 of MQTT 3.1.1 has them, and the client id |
| `MqttMessages.ConnectRoundTrip` | lib/PubSubClient/src/PubSubClient.cpp:196-253 | it is exactly the id, will, user, password, keep-alive and session flag that were given, if and only if there is no will or its QoS is at most 2 |
| `MqttKeepAlive.PingsOverEveryRun` | lib/PubSubClient/src/PubSubClient.cpp:370-434 | over every run of the keep-alive machine: while connected, pingOutstanding holds exactly if a PINGREQ was sent that no PINGRESP has answered, two PINGREQs always have an answer between them, and the two times are those of the last packet in and out |
| `MqttKeepAlive.LoopKeepsAlive` | lib/PubSubClient/src/PubSubClient.cpp:373-386 | a loop that stays connected leaves neither time more than the keep-alive time back; with nothing outstanding it sends a PINGREQ if and only if one of them was, and with a PINGREQ outstanding it gives up if and only if one of them was |
| `MqttKeepAlive.PingsWhenIdle` | lib/PubSubClient/src/PubSubClient.cpp:373-386 | the same over every run, in terms of the last packets in and out of the run |
| `MqttKeepAlive.SilentBrokerDropped` | lib/PubSubClient/src/PubSubClient.cpp:373-377 | over every run: if nothing was read since a PINGREQ, the first loop more than the keep-alive time later drops the connection; the clock wraps at 32 bits |
| `MqttClient.PubSubClient.Connected` | lib/PubSubClient/src/PubSubClient.cpp:684-701 | reports and records a lost connection |
| `MqttClient.PubSubClient.ReadByte` | lib/PubSubClient/src/PubSubClient.cpp:288-299 | takes the next byte, or fails |
| `MqttClient.PubSubClient.ReadLength` | lib/PubSubClient/src/PubSubClient.cpp:322-334 | the digit loop computes the decoded length and stores the digits |
| `MqttClient.PubSubClient.ReadPacket` | lib/PubSubClient/src/PubSubClient.cpp:312-368 | the bytes taken, the bytes in the buffer and the state after every outcome of one packet read |
| `MqttClient.PubSubClient.ReadBody` | lib/PubSubClient/src/PubSubClient.cpp:347-367 | takes exactly the rest of the packet; keeps it if it fits, otherwise gives 0 |
| `MqttClient.PubSubClient.WriteString` | lib/PubSubClient/src/PubSubClient.cpp:670-681 | appends the length-prefixed string and touches nothing before it |
| `MqttClient.PubSubClient.BuildHeader` | lib/PubSubClient/src/PubSubClient.cpp:557-579 | the header bytes end just before the body and encode its length; the body is untouched |
| `MqttClient.PubSubClient.Send` | lib/PubSubClient/src/PubSubClient.cpp:581-603 | the whole packet goes out in order, or as much as the network takes; the result says which |
| `MqttClient.PubSubClient.Publish` | lib/PubSubClient/src/PubSubClient.cpp:448-472 | the wire gets exactly the PUBLISH packet if connected and it fits, and nothing otherwise; the keep-alive state after each outcome |
| `MqttClient.PubSubClient.CheckedString` | lib/PubSubClient/src/PubSubClient.h:86 | a string is written exactly if it fits the buffer |
| `MqttClient.PubSubClient.WriteConnect` | lib/PubSubClient/src/PubSubClient.cpp:199-251 | the body of CONNECT, or refusal if and only if some string does not fit; no write leaves the buffer |
| `MqttClient.PubSubClient.AwaitConnack` | lib/PubSubClient/src/PubSubClient.cpp:257-279 | connected if and only if a four-byte packet with a zero last byte arrives; otherwise closed, with the state of each failure |
| `MqttClient.Connack` | lib/PubSubClient/src/PubSubClient.cpp:257-279 | a CONNACK of section 3.2 of MQTT 3.1.1 connects if and only if its return code is zero, and otherwise the code becomes the state |
| `MqttClient.OtherSizeRefused` | lib/PubSubClient/src/PubSubClient.cpp:264-276 | no packet of another size connects, and the state stays |
| `MqttClient.PubSubClient.Connect` | lib/PubSubClient/src/PubSubClient.cpp:181-285 | exactly one CONNECT packet is sent if it fits and nothing if it does not; the state after every outcome, and never connected after a failure |
| `MqttClient.PubSubClient.MemMove` | lib/PubSubClient/src/PubSubClient.cpp:398 | an overlapping move to the front copies the old bytes |
| `MqttClient.PubSubClient.TerminateTopic` | lib/PubSubClient/src/PubSubClient.cpp:397-400 | moving the topic over its own length and ending it with NUL loses no byte of it and keeps the payload |
| `MqttClient.PubSubClient.HandlePublish` | lib/PubSubClient/src/PubSubClient.cpp:395-418 | the callback gets topic and payload of the packet; QoS 1 is acknowledged with its id |
| `MqttClient.PubSubClient.KeepAliveCheck` | lib/PubSubClient/src/PubSubClient.cpp:373-386 | a PINGREQ, the bytes c0 00, is sent if and only if more than the keep-alive time has passed since the last packet in or out and none is outstanding; the connection is dropped if and only if it has and one is; otherwise nothing changes |
| `MqttClient.PubSubClient.HandleRead` | lib/PubSubClient/src/PubSubClient.cpp:392-425 | the packet in the buffer is reacted to; wire, callbacks and keep-alive state after it |
| `MqttClient.PubSubClient.HandlePacket` | lib/PubSubClient/src/PubSubClient.cpp:387-430 | one packet is read and reacted to; wire, callbacks and keep-alive state after it |
| `MqttClient.PubSubClient.LoopStep` | lib/PubSubClient/src/PubSubClient.cpp:370-434 | loop() refines the keep-alive machine, takes one packet, and delivers and answers exactly what it calls for |
| `MqttClient.HeardInPacket` | lib/PubSubClient/src/PubSubClient.cpp:392-425 | what the machine hears in every well-formed packet |
| `MqttClient.AnswerTo` | lib/PubSubClient/src/PubSubClient.cpp:407-424 | what is sent back for every well-formed packet, byte by byte |
| `MqttClient.PubSubClient.Loop` | lib/PubSubClient/src/PubSubClient.cpp:370-434 | loop() delivers and answers exactly what one packet calls for; on a listening client a PINGREQ goes out if and only if a time was too far back and none was outstanding, and a loop that stays connected leaves neither time too far back |
| `MqttClient.CStringMoved` | lib/PubSubClient/src/PubSubClient.cpp:398-400 | a text with a NUL after it reads as a string wherever it stands |
| `MqttClient.PublishedIsDelivered` | lib/PubSubClient/src/PubSubClient.cpp:448-472 | the reaction of a client to what another one published is the delivery of that topic and payload |
| `MqttClient.PublishReachesPeer` | lib/PubSubClient/src/PubSubClient.cpp:395-417 | end to end over two clients: every NUL-free topic and payload that publish() sends reaches the callback of the peer unchanged, after the deliveries of whatever well-formed packets were still unread there |
| `MqttClient.RunCalls` | lib/PubSubClient/src/PubSubClient.cpp:370-434 | over every run of loop, publish, connect and settings on a new client, with anything on the network: while connected, pingOutstanding holds exactly if a PINGREQ was sent that nothing has answered, two PINGREQs always have an answer between them, and the two times are those of the last packet in and out |
| `MqttClient.FirstPacket` | lib/PubSubClient/src/PubSubClient.cpp:312-368 | what follows a well-formed packet does not change what is done about it |
| `AdvFields.EncodeAppend` | lib/NimBLE-Arduino/src/NimBLEAdvertising.cpp:759-765 | structures are laid out one after the other |
| `AdvFields.ReadBack` | lib/NimBLE-Arduino/src/NimBLEAdvertisedDevice.cpp:629-689 | a payload of structures is read back as exactly those structures, but for an empty one at its end |
| `AdvFields.ReadPast` | lib/NimBLE-Arduino/src/NimBLEAdvertisedDevice.cpp:629-689 | the walk passes whole structures whatever bytes follow them |
| `AdvFields.DamagedIsRead` | lib/NimBLE-Arduino/src/NimBLEAdvertisedDevice.cpp:640-685 | it ends at a structure that is cut off, and it reads a length of zero as an empty structure and then its kind as a length |
| `AdvFields.SeekStops` | lib/NimBLE-Arduino/src/NimBLEAdvertisedDevice.cpp:675-679 | counting stops exactly when the count reaches the index, and the 8-bit count has not wrapped there |
| `AdvFields.SeekFirst` | lib/NimBLE-Arduino/src/NimBLEAdvertisedDevice.cpp:675-679 | with index 0 the search finds the first structure of a kind |
| `AdvFields.SeekNth` | lib/NimBLE-Arduino/src/NimBLEAdvertisedDevice.cpp:667-679 | with index n it finds the n-th one, if there are that many |
| `AdvServices.ChunkAt` | lib/NimBLE-Arduino/src/NimBLEAdvertisedDevice.cpp:421-424 | where the i-th UUID of a list is |
| `AdvServices.PickedOfKind` | lib/NimBLE-Arduino/src/NimBLEAdvertisedDevice.cpp:398-424 | within one kind of list every number gives its UUID, if every list that goes on beyond the number of UUIDs before it repeats itself with that period |
| `AdvServices.EnumeratesIffInStep` | lib/NimBLE-Arduino/src/NimBLEAdvertisedDevice.cpp:387-428 | getServiceUUID enumerates every listed UUID, in order, if and only if every list that goes on beyond the number of UUIDs in those of its kind before it repeats itself with that period |
| `AdvServices.InStepEnumerates` | lib/NimBLE-Arduino/src/NimBLEAdvertisedDevice.cpp:387-428 | the half of that which callers use |
| `AdvServices.PeriodicIfNotLonger` | lib/NimBLE-Arduino/src/NimBLEAdvertisedDevice.cpp:417-419 | for a further list without repeats the condition is that it is not longer than those before it together |
| `AdvServices.OneOfEachIsInStep` | lib/NimBLE-Arduino/src/NimBLEAdvertisedDevice.cpp:417-419 | one structure of each kind is a special case of the condition |
| `AdvServices.SkippedExample` | lib/NimBLE-Arduino/src/NimBLEAdvertisedDevice.cpp:417-424 | one UUID in a list and two in the next of the same kind: the second UUID is never given, the third twice |
| `AdvServices.SameUuidExactly` | lib/NimBLE-Arduino/src/NimBLEUUID.cpp:305-335 | two UUIDs are equal if and only if they have the same bytes or one is the 128-bit form of the other, with the bytes of the Bluetooth base UUID written out |
| `AdvServices.ShortFormsAreSame` | lib/NimBLE-Arduino/src/NimBLEUUID.cpp:308-330 | every UUID of two or four bytes equals its 128-bit form, in both orders |
| `AdvServices.OneShortForm` | lib/NimBLE-Arduino/src/NimBLEUUID.cpp:305-335 | a 128-bit UUID equals at most one UUID of each shorter width |
| `AdvServices.ListedExactly` | lib/NimBLE-Arduino/src/NimBLEAdvertisedDevice.cpp:387-428 | the service UUIDs are exactly what stands at multiples of 2, 4 and 16 bytes in structures of kinds 2 to 7 |
| `AdvertisedDevice.NimBLEAdvertisedDevice.SetPayload` | lib/NimBLE-Arduino/src/NimBLEAdvertisedDevice.cpp:785-792 | an advertisement replaces the payload, a scan response is appended |
| `AdvertisedDevice.NimBLEAdvertisedDevice.FindAdvField` | lib/NimBLE-Arduino/src/NimBLEAdvertisedDevice.cpp:629-689 | the walk over any payload, well formed or not, counts and finds what the list of its structures says, with 8-bit counts, and never reads outside it |
| `AdvertisedDevice.NimBLEAdvertisedDevice.GetName` | lib/NimBLE-Arduino/src/NimBLEAdvertisedDevice.cpp:181-194 | the first complete name, or else the first short one, or nothing |
| `AdvertisedDevice.NameIs` | lib/NimBLE-Arduino/src/NimBLEAdvertisedDevice.cpp:181-194 | that is the first structure of kind 9 wherever it stands, or without one the first of kind 8 |
| `AdvertisedDevice.NimBLEAdvertisedDevice.GetManufacturerData` | lib/NimBLE-Arduino/src/NimBLEAdvertisedDevice.cpp:145-156 | the first manufacturer data, or nothing |
| `AdvertisedDevice.NimBLEAdvertisedDevice.GetURI` | lib/NimBLE-Arduino/src/NimBLEAdvertisedDevice.cpp:163-174 | the first URI, or nothing |
| `AdvertisedDevice.NimBLEAdvertisedDevice.FindServiceData` | lib/NimBLE-Arduino/src/NimBLEAdvertisedDevice.cpp:337-364 | the place of a service data field, numbered over the three widths; none if and only if there are too few |
| `AdvertisedDevice.NimBLEAdvertisedDevice.GetServiceData` | lib/NimBLE-Arduino/src/NimBLEAdvertisedDevice.cpp:266-279 | the service data at an index, without its UUID |
| `AdvertisedDevice.NimBLEAdvertisedDevice.GetServiceUUID` | lib/NimBLE-Arduino/src/NimBLEAdvertisedDevice.cpp:387-428 | for every payload, the UUID that the index arithmetic selects |
| `AdvertisedDevice.NimBLEAdvertisedDevice.GetServiceUUIDCount` | lib/NimBLE-Arduino/src/NimBLEAdvertisedDevice.cpp:436-447 | for every payload, the entries of all lists in 8 bits; the number of listed UUIDs if the lists hold whole ones and fewer than 256 |
| `AdvertisedDevice.NimBLEAdvertisedDevice.IsAdvertisingService` | lib/NimBLE-Arduino/src/NimBLEAdvertisedDevice.cpp:455-464 | for every payload, true if and only if some number gives an equal UUID; for lists in step, if and only if some UUID that stands in a structure of kind 2 to 7 equals the given one |
| `AdvertisedDevice.FindsShortForm` | lib/JbdBms/JbdBms.cpp:529 | the way the battery client asks: a device that lists a UUID in two bytes is found by its 128-bit form |
| `AdvBuilder.WithBredrUnsup` | lib/NimBLE-Arduino/src/NimBLEAdvertising.cpp:800-805 | sets one bit and keeps the others |
| `AdvBuilder.NimBLEAdvertisementData.AddData` | lib/NimBLE-Arduino/src/NimBLEAdvertising.cpp:759-765 | a field is added whole or, if it would exceed 31 bytes, not at all |
| `AdvBuilder.NimBLEAdvertisementData.SetName` | lib/NimBLE-Arduino/src/NimBLEAdvertising.cpp:837-842 | adds a complete name |
| `AdvBuilder.NimBLEAdvertisementData.SetShortName` | lib/NimBLE-Arduino/src/NimBLEAdvertising.cpp:993-998 | adds a short name |
| `AdvBuilder.NimBLEAdvertisementData.SetManufacturerData` | lib/NimBLE-Arduino/src/NimBLEAdvertising.cpp:813-818 | adds manufacturer data |
| `AdvBuilder.NimBLEAdvertisementData.SetURI` | lib/NimBLE-Arduino/src/NimBLEAdvertising.cpp:825-830 | adds a URI |
| `AdvBuilder.NimBLEAdvertisementData.SetAppearance` | lib/NimBLE-Arduino/src/NimBLEAdvertising.cpp:785-790 | adds the appearance, low byte first |
| `AdvBuilder.NimBLEAdvertisementData.SetFlags` | lib/NimBLE-Arduino/src/NimBLEAdvertising.cpp:800-806 | adds the flags with BR/EDR marked as not supported |
| `AdvBuilder.NimBLEAdvertisementData.AddTxPower` | lib/NimBLE-Arduino/src/NimBLEAdvertising.cpp:1004-1010 | adds the transmission power |
| `AdvBuilder.NimBLEAdvertisementData.SetPreferredParams` | lib/NimBLE-Arduino/src/NimBLEAdvertising.cpp:1018-1027 | adds the connection interval range, low bytes first |
| `AdvBuilder.NimBLEAdvertisementData.SetServices` | lib/NimBLE-Arduino/src/NimBLEAdvertising.cpp:908-948 | adds a list of UUIDs, of kind 3, 5 or 7 if complete and 2, 4 or 6 if not, or nothing if one of them has another width |
| `AdvBuilder.NimBLEAdvertisementData.SetServiceData` | lib/NimBLE-Arduino/src/NimBLEAdvertising.cpp:956-986 | adds service data after its UUID, of kind 16, 20 or 21 |
| `AdvBuilder.BuiltIsRead` | lib/NimBLE-Arduino/src/NimBLEAdvertising.cpp:759-1027 | whatever values are set, the payload is at most 31 bytes and is read as exactly the fields that were added, but for an empty one at the end |
| `AdvBuilder.ServiceDataAsSet` | lib/NimBLE-Arduino/src/NimBLEAdvertisedDevice.cpp:337-364 | service data of kinds 16, 20 and 21 is read as it was set, at the index that counts the narrower ones and those set before it |
| `AdvBuilder.Receive` | lib/NimBLE-Arduino/src/NimBLEAdvertisedDevice.cpp:181-194 | end to end: a receiver of the payload reads name, manufacturer data, URI and every service data as they were added |
| `AdvPacker.SizeOfAll` | lib/NimBLE-Arduino/src/nimble/nimble/host/src/ble_hs_adv.c:228-451 | the size of what the host lays out: the count of the packer less three bytes for manufacturer data of one byte, which the host leaves out |
| `AdvPacker.CountedIsEncoded` | lib/NimBLE-Arduino/src/NimBLEAdvertising.cpp:425-452 | so the count of the packer is the encoded size if and only if the manufacturer data is not one byte long |
| `AdvPacker.GreedyNext` | lib/NimBLE-Arduino/src/NimBLEAdvertising.cpp:456-466 | one more UUID of a width keeps its list greedy: taken if it fits, refused if it does not |
| `AdvPacker.PackingIsExact` | lib/NimBLE-Arduino/src/NimBLEAdvertising.cpp:454-512 | after the loop the length is the counted size and at most 31 if the fixed fields are; of each width the first UUIDs are included; the list is marked complete if and only if all are; and if not all are, the next one does not fit |
| `AdvPacker.PlacedFits` | lib/NimBLE-Arduino/src/NimBLEAdvertising.cpp:514-543 | after the name was placed the advertisement fits 31 bytes if and only if the name fits; or the rest does and the name goes to the scan response or is a null pointer; or two bytes are left after the transmission power is dropped |
| `AdvPacker.CutNameFills` | lib/NimBLE-Arduino/src/NimBLEAdvertising.cpp:534-542 | a name that is cut fills the advertisement, unless not one byte of it fits |
| `AdvPacker.NamelessRefused` | lib/NimBLE-Arduino/src/NimBLEAdvertising.cpp:539-541 | 30 bytes, a name of no length and no scan response: the length wraps to 255, and the advertisement, which fits, is sent if and only if the name is a null pointer |
| `AdvPacker.AfterRefusal` | lib/NimBLE-Arduino/src/NimBLEAdvertising.cpp:530-542 | a later start after such a refusal fills all the room there is from the memory at the name, however short the name was |
| `AdvPacker.NimBLEAdvertising.FixedLength` | lib/NimBLE-Arduino/src/NimBLEAdvertising.cpp:427-452 | the 8-bit sum of the counted sizes of the fixed fields |
| `AdvPacker.NimBLEAdvertising.PackService` | lib/NimBLE-Arduino/src/NimBLEAdvertising.cpp:455-511 | one turn of the loop |
| `AdvPacker.NimBLEAdvertising.PackServices` | lib/NimBLE-Arduino/src/NimBLEAdvertising.cpp:454-512 | the loop over the service UUIDs computes the packing |
| `AdvPacker.NimBLEAdvertising.PlaceName` | lib/NimBLE-Arduino/src/NimBLEAdvertising.cpp:514-543 | both sets of fields after the name was kept, moved or cut |
| `AdvPacker.NimBLEAdvertising.StartData` | lib/NimBLE-Arduino/src/NimBLEAdvertising.cpp:425-614 | from any state between two starts: an advertisement is sent if and only if the exact condition holds, it is the encoded fields, the scan response always fits, and the fields that are left for the next start |
| `AdvPacker.SeenByScanner` | lib/NimBLE-Arduino/src/NimBLEAdvertisedDevice.cpp:387-428 | what a scanner reads from a sent advertisement: exactly the included UUIDs, each with one number, and exactly the placed name |
| `AdvOutcome.SentInOrder` | lib/NimBLE-Arduino/src/nimble/nimble/host/src/ble_hs_adv.c:228-451 | what a scanner reads from a sent advertisement: every field that was given, under its kind and in the order of the kinds, and nothing else |
| `AdvOutcome.NamePlaced` | lib/NimBLE-Arduino/src/NimBLEAdvertising.cpp:514-543 | the name stays whole where it fits; or else its first 29 bytes go to the scan response, marked complete if and only if they are all; or else the advertisement keeps what fits without the transmission power |
| `AdvOutcome.OthersStay` | lib/NimBLE-Arduino/src/NimBLEAdvertising.cpp:514-543 | placing the name changes no other field but the transmission power |
| `AdvOutcome.NameOfBoth` | lib/NimBLE-Arduino/src/NimBLEAdvertisedDevice.cpp:181-194 | which of two names a scanner reads when the scan response is appended to the advertisement |
| `AdvOutcome.NameReceived` | lib/NimBLE-Arduino/src/NimBLEAdvertising.cpp:514-558 | what is read of the name from both packets after it was placed |
| `AdvOutcome.NameOverAir` | lib/NimBLE-Arduino/src/NimBLEAdvertising.cpp:425-575 | end to end over two devices: from a sent advertisement and its scan response getName gives the bytes of the name that were placed, wherever they were placed, except that a name left in the scan response by an earlier start is read under the exact condition that it is complete and the own one is not, or the own one is empty |
| `AdvPacker.AdvertiseTo` | lib/NimBLE-Arduino/src/NimBLEAdvertisedDevice.cpp:455-464 | end to end over two devices: isAdvertisingService answers true if and only if an included UUID equals the given one, and getName gives the placed name |
| `ScanResults.EveryScanStores` | lib/NimBLE-Arduino/src/NimBLEScan.cpp:58-196 | over every run of reports, completions, starts, erasures, clearings and host resets, in any order: stored addresses differ, the limit is kept, each payload is the last advertisement and all scan responses since, of those that were not ignored |
| `ScanResults.StepKeeps` | lib/NimBLE-Arduino/src/NimBLEScan.cpp:58-196 | every one of those events keeps that |
| `ScanResults.ScanIsRun` | lib/NimBLE-Arduino/src/NimBLEScan.cpp:310-383 | from a fresh start on, results and reports are those of the reports heeded since, whatever was before |
| `ScanResults.DiscoverKeeps` | lib/NimBLE-Arduino/src/NimBLEScan.cpp:64-162 | one report keeps that |
| `ScanResults.EveryScanCounts` | lib/NimBLE-Arduino/src/NimBLEScan.cpp:136-159 | over every sequence of reports of one scan, with duplicates filtered: a device was reported once if it is marked so, and otherwise never |
| `ScanResults.ReportedOnce` | lib/NimBLE-Arduino/src/NimBLEScan.cpp:163-179 | one scan inside any run, from a fresh start on, reports every device at most once and, once completed, every stored device exactly once and nothing else |
| `ScanOutcome.StoresAdvertisers` | lib/NimBLE-Arduino/src/NimBLEScan.cpp:87-122 | over every sequence of reports: stored are the devices that advertised, in the order of their first advertisements, all of them or as many as the limit allows |
| `ScanOutcome.AdvertisersAre` | lib/NimBLE-Arduino/src/NimBLEScan.cpp:104-111 | those are, without repeats, exactly the addresses of the reports that are not scan responses |
| `ScanOutcome.EveryDeviceRemembers` | lib/NimBLE-Arduino/src/NimBLEScan.cpp:117-154 | every stored device has the type of its first advertisement, and is marked as reported if and only if it is due: the scan is passive, or no scan response can follow that type, or one has |
| `ScanOutcome.ToldWhenDue` | lib/NimBLE-Arduino/src/NimBLEScan.cpp:136-154 | with duplicates filtered, while the scan goes on, exactly the stored devices that are due have been told, once each |
| `ScanOutcome.EachReportTold` | lib/NimBLE-Arduino/src/NimBLEScan.cpp:136-154 | with duplicates wanted, which report is told, for every report after every sequence of reports |
| `ScanOutcome.NobodyTold` | lib/NimBLE-Arduino/src/NimBLEScan.cpp:136 | without callbacks nobody is told |
| `ScanOutcome.HeldWhileWaiting` | lib/NimBLE-Arduino/src/NimBLEScan.cpp:104-159 | with results not stored: a device is held if and only if an active scan waits for its scan response, and which report is told, for every report after every sequence |
| `ScanOutcome.CompletesUnstored` | lib/NimBLE-Arduino/src/NimBLEScan.cpp:163-179 | and the completion tells of those still waiting, once each, and leaves no device |
| `ScanOutcome.HeardFromLast` | lib/NimBLE-Arduino/src/NimBLEScan.cpp:133-134 | the payload that is kept is all data from the device since its last advertisement |
| `ScanOutcome.ErasesExactly` | lib/NimBLE-Arduino/src/NimBLEScan.cpp:466-476 | erasing removes the device with the address and no other |
| `ScanOutcome.IgnoringSince` | lib/NimBLE-Arduino/src/NimBLEScan.cpp:327-330 | over every run: reports are ignored if and only if there was a fresh start or a host reset with no end of a start and no sync since |
| `ScanOutcome.HeedsAll` | lib/NimBLE-Arduino/src/NimBLEScan.cpp:65-85 | without those, the reports heeded are exactly those whose address is not on the ignored list |
| `ScanOutcome.ScanFindsAll` | lib/NimBLE-Arduino/src/NimBLEScan.cpp:104-122 | one scan inside any run, without a limit: a device is stored if and only if an advertisement from it was heeded |
| `ScanOutcome.ScanFindsUpToLimit` | lib/NimBLE-Arduino/src/NimBLEScan.cpp:107-110 | with a limit from 1 to 254, as many are stored as advertised, up to the limit |
| `ScanOutcome.ScanTellsAll` | lib/NimBLE-Arduino/src/NimBLEScan.cpp:136-175 | with callbacks and duplicates filtered, every device with an advertisement heeded has been told exactly once when the scan is completed, and no other |
| `ScanOutcome.ScanTellsWhenDue` | lib/NimBLE-Arduino/src/NimBLEScan.cpp:136-154 | and while it goes on, exactly those that are due |
| `ScanResults.UnreportedCounts` | lib/NimBLE-Arduino/src/NimBLEScan.cpp:169-175 | the completion reports exactly the stored devices that were not reported before |
| `ScanResults.NimBLEScan.Lookup` | lib/NimBLE-Arduino/src/NimBLEScan.cpp:90-100 | finds the first device with the address |
| `ScanResults.NimBLEScan.Erase` | lib/NimBLE-Arduino/src/NimBLEScan.cpp:466-476 | removes the first device with the address, if there is one, and keeps the rest in order |
| `ScanResults.NimBLEScan.ClearResults` | lib/NimBLE-Arduino/src/NimBLEScan.cpp:511-516 | no device is left |
| `ScanResults.NimBLEScan.CallBackIfDue` | lib/NimBLE-Arduino/src/NimBLEScan.cpp:143-154 | calls back now or waits for the scan response |
| `ScanResults.NimBLEScan.ReportDevice` | lib/NimBLE-Arduino/src/NimBLEScan.cpp:136-159 | calls back and drops the device as the settings say |
| `ScanResults.NimBLEScan.Receive` | lib/NimBLE-Arduino/src/NimBLEScan.cpp:87-134 | finds or stores the device and updates its payload; what is stored after each outcome |
| `ScanResults.NimBLEScan.HandleDisc` | lib/NimBLE-Arduino/src/NimBLEScan.cpp:65-162 | the handler on devices in memory refines the pure step on every report |
| `ScanResults.NimBLEScan.HandleDiscComplete` | lib/NimBLE-Arduino/src/NimBLEScan.cpp:163-179 | the completion loop refines the pure step |
| `ScanResults.NimBLEScan.StartBegin` | lib/NimBLE-Arduino/src/NimBLEScan.cpp:327-330 | results are ignored while a new scan is set up |
| `ScanResults.NimBLEScan.StartEnd` | lib/NimBLE-Arduino/src/NimBLEScan.cpp:354-383 | a scan that starts afresh starts with no results; a failed or continued one keeps them |
| `ScanResults.NimBLEScan.OnHostReset` | lib/NimBLE-Arduino/src/NimBLEScan.cpp:482-484 | results are ignored until the host is synced |
| `ScanResults.NimBLEScan.OnHostSync` | lib/NimBLE-Arduino/src/NimBLEScan.cpp:491-492 | and heeded again |
| `ClientConnection.StepKeeps` | lib/NimBLE-Arduino/src/NimBLEClient.cpp:931-1212 | every phase of connect() and every host event keeps the invariant |
| `ClientConnection.EveryRunKeeps` | lib/NimBLE-Arduino/src/NimBLEClient.cpp:188-330 | so it holds in every interleaving |
| `ClientConnection.SeenExactly` | lib/NimBLE-Arduino/src/NimBLEClient.cpp:931-1212 | for every state and step: which wake-up with which result, which callback and which handle follow |
| `ClientConnection.HandleNeverReplaced` | lib/NimBLE-Arduino/src/NimBLEClient.cpp:986-1008 | the connection handle is never replaced by another: it goes to none in between |
| `ClientConnection.LegalAlternates` | lib/NimBLE-Arduino/src/NimBLEClient.cpp:978-979 | onConnect and onDisconnect alternate, starting with onConnect |
| `ClientConnection.LegalWokenOnce` | lib/NimBLE-Arduino/src/NimBLEClient.cpp:1204-1210 | between the start of an attempt and its wake-up there is no other wake-up |
| `ClientConnection.EveryInterleaving` | lib/NimBLE-Arduino/src/NimBLEClient.cpp:188-330 | in every interleaving of connect() with host events: callbacks alternate, an attempt is woken at most once, and the other claims of the invariant |
| `ClientConnection.AttemptSucceeds` | lib/NimBLE-Arduino/src/NimBLEClient.cpp:187-328 | an attempt that nothing disturbs ends established, with the handle of the connection, woken once and then onConnect |
| `ClientConnection.AttemptFails` | lib/NimBLE-Arduino/src/NimBLEClient.cpp:263-310 | one that is refused, fails or times out leaves the client free for the next |
| `ClientConnection.StuckIsReachable` | lib/NimBLE-Arduino/src/NimBLEClient.cpp:324-325 | a link lost after the MTU event and before the thread resumes leaves the client established without a connection |
| `ClientConnection.StuckUntilHostReset` | lib/NimBLE-Arduino/src/NimBLEClient.cpp:196-200 | from there no event changes the client, and connect() refuses, until a host reset is reported: exactly that event |
| `ClientConnection.StuckExactly` | lib/NimBLE-Arduino/src/NimBLEClient.cpp:188-330 | of all phases and events only the end of connect() leads there, and it does if and only if the handle was lost after a wake-up with success |
| `ClientConnection.NimBLEClient.ConnectBegin` | lib/NimBLE-Arduino/src/NimBLEClient.cpp:196-220 | the first phase on the object refines the machine; it refuses exactly when busy |
| `ClientConnection.NimBLEClient.ConnectRequest` | lib/NimBLE-Arduino/src/NimBLEClient.cpp:227-288 | the request phase |
| `ClientConnection.NimBLEClient.ConnectWait` | lib/NimBLE-Arduino/src/NimBLEClient.cpp:290-305 | the wait ends by notification or time-out |
| `ClientConnection.NimBLEClient.ConnectTimedOut` | lib/NimBLE-Arduino/src/NimBLEClient.cpp:290-303 | clean-up after a time-out |
| `ClientConnection.NimBLEClient.ConnectFinish` | lib/NimBLE-Arduino/src/NimBLEClient.cpp:305-330 | the last phase; its result |
| `ClientConnection.NimBLEClient.HandleGapEvent` | lib/NimBLE-Arduino/src/NimBLEClient.cpp:931-1213 | the event handler on the object, which writes the result into the slot of the waiting thread, refines the machine |
| `JbdFrames.Checksum` | lib/JbdBms/JbdBms.cpp:252-265 | the loop and the complement give the byte that makes the covered bytes add up to zero |
| `JbdFrames.ChecksumOk` | lib/JbdBms/JbdBms.cpp:268-289 | accepts if and only if start and status are right and the covered bytes and the low checksum byte add up to zero modulo 256 |
| `JbdFrames.ExampleAccepted` | lib/JbdBms/JbdBms.cpp:350-351 | the cell packet shown in the source is accepted |
| `JbdFrames.SumUpdated` | lib/JbdBms/JbdBms.cpp:257-260 | changing one byte changes the sum by the difference |
| `JbdFrames.SingleChangeDetected` | lib/JbdBms/JbdBms.cpp:268-289 | changing one byte of an accepted frame, other than the length, gets it rejected if and only if it is the start, the status, a data byte or the low checksum byte |
| `JbdFrames.Collector.Store` | lib/JbdBms/JbdBms.cpp:366-374 | the copy loops |
| `JbdFrames.Collector.CollectPacket` | lib/JbdBms/JbdBms.cpp:356-388 | one notification on the static buffer refines the pure step; the packet check sees exactly the frame |
| `JbdFrames.LaterFragments` | lib/JbdBms/JbdBms.cpp:371-381 | fragments after the first are appended until one ends in the end byte |
| `JbdFrames.ReassembledIffGoodSplit` | lib/JbdBms/JbdBms.cpp:356-388 | a frame is put together by its last fragment and not before if and only if it has at least two fragments and only the last of those after the first ends in the end byte |
| `JbdFrames.NoiseDropped` | lib/JbdBms/JbdBms.cpp:356-388 | any run of notifications that do not start a frame is dropped while no frame is held |
| `JbdFrames.FramesReassembled` | lib/JbdBms/JbdBms.cpp:356-388 | any run of such frames is put together frame by frame, and the state returns to empty |
| `JbdFrames.CollectFrame` | lib/JbdBms/JbdBms.cpp:356-388 | the collector on one such frame: no notification but the last says yes, the packet check sees exactly the frame, and the buffer ends empty |
| `JbdFrames.CollectFrames` | lib/JbdBms/JbdBms.cpp:356-388 | the collector on any run of such frames |
| `JbdScheduler.PollingStep` | lib/JbdBms/JbdBms.cpp:764-781 | each due tick moves one step along the polling cycle, except the one that wraps the request counter, which jumps to the hardware request |
| `JbdScheduler.PollingRun` | lib/JbdBms/JbdBms.cpp:754-781 | over every polling run: ticks are at least the refresh time apart, and the requests follow the cycle of ten basic and cell pairs and one hardware request if and only if the 32-bit counter does not wrap before the last of them |
| `JbdScheduler.TicksExactly` | lib/JbdBms/JbdBms.cpp:754-757 | over every polling run, a call ticks if and only if the refresh time has passed since the tick before, on a clock that wraps |
| `JbdScheduler.ConnectRun` | lib/JbdBms/JbdBms.cpp:802-805 | the same for the run that CONNECT starts |
| `JbdScheduler.CommandRunsOnce` | lib/JbdBms/JbdBms.cpp:787-796 | a command from outside runs in the next due tick and only there; polling resumes with basic data |
| `JbdScheduler.DisconnectEnds` | lib/JbdBms/JbdBms.cpp:797-801 | after DISCONNECT nothing happens any more |
| `JbdScheduler.OthersRepeat` | lib/JbdBms/JbdBms.cpp:806-811 | over every run, a paused client ticks without a request and stays paused |
| `JbdScheduler.RequestPackets` | lib/JbdBms/JbdBms.cpp:836-862 | the three request packets, byte by byte |
| `JbdScheduler.RequestChecksum` | lib/JbdBms/JbdBms.cpp:836-862 | the constant request packets carry the right checksum |
| `JbdScheduler.JbdBms.Notified` | lib/JbdBms/JbdBms.cpp:391-396 | a notification counts an error or clears the count |
| `JbdScheduler.JbdBms.Process` | lib/JbdBms/JbdBms.cpp:754-814 | process() refines the scheduler; a packet is sent if and only if the refresh time has passed and one of the three polled commands is in place, and it is the one of that command; how the packet counter changes |
| `JbdScheduler.JbdBms.SetBMS` | lib/JbdBms/JbdBms.cpp:896-900 | starts or pauses polling |
| `JbdScheduler.JbdBms.SetCharge` | lib/JbdBms/JbdBms.cpp:902-912 | sets or clears bit 0 only and asks for a MOSFET command |
| `JbdScheduler.JbdBms.SetDischarge` | lib/JbdBms/JbdBms.cpp:914-924 | sets or clears bit 1 only |
| `JbdScheduler.JbdBms.SetBalanceEnable` | lib/JbdBms/JbdBms.cpp:950-958 | sets or clears bit 2 only and asks for a BALANCE command |
| `JbdScheduler.JbdBms.SetChargeBalance` | lib/JbdBms/JbdBms.cpp:960-968 | sets or clears bit 1 only |
| `AttValue.RunStaysBounded` | lib/NimBLE-Arduino/src/NimBLEAttValue.h:380-444 | over every run of operations the value stays within its maximum |
| `AttValue.AppendsConcatenate` | lib/NimBLE-Arduino/src/NimBLEAttValue.h:410-444 | a run of appends adds the concatenation, if it fits |
| `AttValue.NimBLEAttValue.constructor` | lib/NimBLE-Arduino/src/NimBLEAttValue.h:312-319 | an empty value with the maximum capped at 512 and a zero terminator |
| `AttValue.NimBLEAttValue.FromBytes` | lib/NimBLE-Arduino/src/NimBLEAttValue.h:321-326 | a given value; within the maximum exactly if the caller sees to it |
| `AttValue.NimBLEAttValue.SetValue` | lib/NimBLE-Arduino/src/NimBLEAttValue.h:380-408 | replaces the bytes or changes nothing; grows the buffer only when needed; keeps the terminator |
| `AttValue.NimBLEAttValue.AppendData` | lib/NimBLE-Arduino/src/NimBLEAttValue.h:410-444 | extends the bytes or changes nothing; keeps capacity and terminator |
| `AttValue.NimBLEAttValue.DeepCopy` | lib/NimBLE-Arduino/src/NimBLEAttValue.h:355-367 | becomes a copy in a buffer of its own and leaves the source as it is |
| `AttValue.HandleWrite` | lib/NimBLE-Arduino/src/NimBLECharacteristic.cpp:293-320 | a write stores exactly the concatenation of the buffer chain, or refuses it and changes nothing |

## Left out

- MqttClient.PubSubClient.Loop: requires that a whole PUBLISH that fits the buffer has its topic and message id inside the packet (`Sound`); the client does not check this, and then moves or reads bytes that are not of the packet, which is not modelled. The same holds for `HandlePublish`, `HandleRead` and `HandlePacket`. Callbacks that publish, or change the buffer, are not modelled.
- MqttClient.RunCalls: stops before a loop over such a PUBLISH.
- MqttClient.PubSubClient.ReadByte: yields the next byte that has arrived or fails; how long it waits for one is not modelled.
- MqttClient.PubSubClient.AwaitConnack: takes the bytes that arrive before the socket time-out as a parameter.
- MqttClient.PubSubClient.Publish: the length check does not wrap at 32 bits, which needs a payload of almost 4 GB.
- MqttClient.PublishReachesPeer: what is unread on the socket of the peer are whole well-formed packets, and its loops are calls at one time; a partial write is covered by `MqttClient.PubSubClient.Publish`.
- JbdFrames.Collector.CollectPacket: requires that the fragments of a frame fit the 44-byte buffer and that a complete frame is as long as its length byte says; the source checks neither, and what it then writes or reads is not modelled. What the handler for the packet's type returns is a parameter.
- JbdFrames.SingleChangeDetected: leaves the length byte out, because a changed length moves the place of the checksum.
- AdvertisedDevice.NimBLEAdvertisedDevice.GetServiceUUID: requires an index below 255; at 255 the 8-bit index wraps to 0.
- AdvertisedDevice.NimBLEAdvertisedDevice.IsAdvertisingService: the second half is stated for lists of whole UUIDs, fewer than 256 of them, in step; without that it holds of the UUIDs that numbers give.
- AdvertisedDevice.NimBLEAdvertisedDevice.FindServiceData: requires an index below 255, for the same reason.
- AdvPacker.NimBLEAdvertising.StartData: service UUIDs are set and have 16, 32 or 128 bits; a failing allocation and the answers of the controller are not modelled, and custom advertisement data skips this part of `start`. What memory holds after a name is part of the name that is given.
- AdvertisedDevice.FindsShortForm: the condition is that of `IsAdvertisingService`.
- AttValue.NimBLEAttValue.DeepCopy: requires two different objects; self-assignment and move assignment are not modelled.
- AttValue.HandleWrite: allocation always succeeds, and the onWrite callbacks are not called.
- ScanResults.NimBLEScan.HandleDisc: legacy advertising only, with fixed settings; the list of ignored addresses is a parameter, and freeing devices is not modelled.
- ClientConnection.EveryInterleaving: one application thread, atomic events, and the setting of the established flag together with onConnect as one step; secureConnection, disconnect timers and deleting the client are not modelled.
- AesBuffers.Encrypt: null arguments and the clearing of the state are not modelled, and nothing is said about timing.
- The Stream forwarding of readPacket, subscribe, unsubscribe, publish_P, beginPublish and transfers in pieces (MQTT_MAX_TRANSFER_SIZE).
- The decoding of battery data (cell median, current, error texts), the MOSFET and balance packets (they are built, but sending them is commented out) and pairing.
- getServiceData by UUID, target addresses, appearance and interval getters, extended advertising.
- WiFi, web server, file system, LED and serial code, and NimBLE services other than those named.
