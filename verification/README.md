# Verified models of the PX4 host tooling

Dafny models of the algorithms behind PX4's host-side scripts, with proofs of what those scripts are for. Every
loop and every stateful object of the modelled code is a method or a class here, proved against a specification;
the theorems are then proved about the specifications, for all inputs, all runs and all answers of the other side.

| Part | Modules | Main results |
|---|---|---|
| ULog streaming | `ULogReceiver`, `ULogDelivery`, `ULogSender` | `Delivery`, `EndToEnd`: what any lossy delivery of any sender run leaves in the file |
| Firmware upload | `Crc32`, `SerialLink`, `BootloaderProtocol`, `BootloaderDevice`, `UploadSequence`, `UploadOutcome`, `UploadVerified`, `UploadSuccess`, `HonestDevice` | `ProgramBothWays`, `DoUpload`, `BootedDeviceHolds`, `BootedDeviceVerified`, `UploadSucceeds`, `HonestUpload`, `BurstDetected` |
| uORB generation | `Fnv1a`, `UorbDefinitions`, `UorbPadding`, `Decimal` | `OrderAll`, `GetFieldDefinitions`, `DecodeAllInverts`, `PaddedSound`, `DeeplyPadded`, `EmbeddedSize`, `OneCharacterChangesId` |
| Parameters | `ParamText`, `ParamParser`, `ParamReading`, `ParamRoundTrip`, `ParamTidy`, `ParamIrregular`, `ParamInstances`, `Whitespace` | `PrintParse`, `ComesBackExactly`, `BareDefinition`, `DefineSpelled`, `DefineShape`, `BitmaskValidates`, `FillText` |
| Actuator outputs | `TimerGroups`, `ActuatorOutputs`, `ActuatorAgreement`, `ActuatorNames`, `ReverseRange` | `GroupsTile`, `GeneratorsAgree`, `CollectEntries`, `ReverseBits`, `ReverseMask` |
| Text transformations | `ReviewFixes`, `DiffRegions`, `DiffHunks`, `EventMessages`, `EventArguments` | `SuggestionsApplyFixes`, `RegionPerHunk`, `ShiftReads`, `SplitJoin` |
| CI targets | `TargetGroups`, `TargetNames` | `GroupTargets`, `OneGroup`, `SeveralGroups`, `MiscGroups`, `NamesDiffer` |
| Shared | `Basics` | the option type and bytes |

How the outside world appears:

- The serial device is a function of the trace so far (`SerialLink.Device`): which bytes come in, when the port
  breaks. Time-outs are the case that too few bytes came. What the upload methods promise holds for every such device.
  What is said of the flash holds for every device whose answers come in order (`BootloaderDevice.Queues`), however
  late, on a port that may break; slow devices are among them (`SlowQueues`). That an upload succeeds is proved for
  every device that answers dependably (`UploadSuccess.Dependable`) and does what it acknowledges; `HonestDevice` is
  one.
- The packets that reach the log receiver are any sequence of indices into the sender's stream.
- Files, the board, the difflib script and the acknowledgement of a log packet are parameters or arbitrary choices.
- Exceptions are `None`, `Failed`, `Raised` or `false` results.

Where the code differs from what one would expect of it, the model follows the code:

- `check_sequence` treats a distance of exactly 2^15 differently depending on which number is larger;
  `CheckSequenceExact` says for which pairs it is right.
- The receiver's guarantee needs no reliable header section: only the first packet has to arrive first.
- `_try_sync` raises the silicon errata error inside a block that catches every exception, so an errata answer during
  the erase ends in a time-out.
- The size check compares the metadata field `image_size`, not the length of the image, with the flash size;
  `SizeCheckMisses` and `PaddingOverruns` say exactly when more is programmed than the flash holds.
- A bootloader that does not answer VERIFY_SIG counts as one without signatures, so the boot goes on.
- A NUL inside a field text makes the field records ambiguous (`NulIsAmbiguous`).
- The diff walk loses an insertion after the last kept line (`TrailingInsertionLost`).
- A string literal that ends in an escaped backslash is not seen to end (`BackslashSwallowsComma`).
- Shifting placeholders rewrites `{007` to `{7` even with offset 0 (`LeadingZerosDropped`); `ShiftByZero` says exactly
  which messages stay as they are.
- The parameter parser drops dots after a short text, type letters after a default value, blank lines around a long
  text, blanks around texts and tags and blanks after the description of a value or bit (not before it).
  `ComesBackExactly`: the definitions that come back unchanged are exactly those that are `Tidy`.
- The parameter script refuses modules that the metadata script takes (`OnlyMetadata`); the condition in
  `GeneratorsAgree` is exact.
- A uORB struct that embeds another counts it with its fields unsorted, while the other's own header sorts them. The
  two sizes can differ (`EmbeddedSizeDiffers`); `EmbeddedSize` says exactly when they do.
- The message for a too long parameter prefix says 10, the check says 9.
- A manufacturer called `misc` can get groups with the names of those that the small manufacturers share;
  `NamesDiffer` says exactly when.

## Model

| member | source | states |
|---|---|---|
| `ULogReceiver.CheckSequenceExact` | Tools/mavlink_ulog_streaming.py:171-186 | for true numbers up to 2^15 apart the 16-bit check accepts exactly the newer ones, except on one half of the pairs at distance 2^15, and counts exactly the numbers skipped |
| `ULogReceiver.LogStreaming.constructor` | Tools/mavlink_ulog_streaming.py:36-56 | a new receiver has nothing pending, nothing stored and no last sequence |
| `ULogReceiver.LogStreaming.WriteUlogMessages` | Tools/mavlink_ulog_streaming.py:224-233 | the loop stores the whole length-prefixed messages at the front of the data and returns the rest |
| `ULogReceiver.LogStreaming.ProcessStreamedUlogData` | Tools/mavlink_ulog_streaming.py:189-221 | one accepted packet: header, dropout record, pending message and rest are stored as the specification says, whose records `RecordFirst` and whose only exception `TooShortExactly` spell out; on the exception nothing changes |
| `ULogReceiver.LogStreaming.ResumeMessage` | Tools/mavlink_ulog_streaming.py:206-221 | the pending message is continued or a new one awaited |
| `ULogReceiver.LogStreaming.ReadMessage` | Tools/mavlink_ulog_streaming.py:144-167 | acknowledge, accept only newer packets, count drops, note the end of the header section |
| `ULogReceiver.LogStreaming.ReadMessages` | Tools/mavlink_ulog_streaming.py:77-102 | a run over any packets ends in the state the specification gives |
| `ULogDelivery.SplitAt` | Tools/mavlink_ulog_streaming.py:224-233 | splitting bytes that start at message k yields exactly the whole messages and keeps the start of the next one |
| `ULogDelivery.SlicesMeet` | Tools/mavlink_ulog_streaming.py:206-221 | slicing the data at the message start loses and repeats nothing, even beyond the end |
| `ULogDelivery.NextInSync` | Tools/mavlink_ulog_streaming.py:206-221 | the next packet keeps the pending bytes a prefix of one message, or one complete message, and the file a list of whole messages |
| `ULogDelivery.NextStillLost` | Tools/mavlink_ulog_streaming.py:206-221 | waiting for a message start, a packet without one changes nothing |
| `ULogDelivery.NextFound` | Tools/mavlink_ulog_streaming.py:206-221 | waiting for a message start, a packet with one brings the receiver back in step |
| `ULogDelivery.Flush` | Tools/mavlink_ulog_streaming.py:189-205 | on a loss a complete pending message is stored and an incomplete one dropped |
| `ULogDelivery.Gap` | Tools/mavlink_ulog_streaming.py:189-221 | a packet after a loss leaves file and pending bytes in step with the messages that arrived whole |
| `ULogDelivery.Rejected` | Tools/mavlink_ulog_streaming.py:144-169 | a late or repeated packet changes no state, only its acknowledgement is sent again |
| `ULogDelivery.Accepted` | Tools/mavlink_ulog_streaming.py:171-186 | a newer packet is accepted and exactly the packets in between are counted as dropped, across wrap-around |
| `ULogDelivery.RunFrom` | Tools/mavlink_ulog_streaming.py:144-233 | the invariant of the receiver over every run; the dropout records it adds and the acknowledgements it sends are those computed from the arrivals alone |
| `ULogDelivery.FileReadable` | Tools/mavlink_ulog_streaming.py:224-233 | the receiver's own splitter reads everything it stored back, with nothing left over |
| `ULogDelivery.DropoutSays` | Tools/mavlink_ulog_streaming.py:198-202 | the record for n lost packets is the one message with type byte 79 and the two-byte little-endian payload 10 n |
| `ULogDelivery.RecordFirst` | Tools/mavlink_ulog_streaming.py:189-205 | in any state, a packet behind a loss writes the dropout record directly behind what the file held, unless the header section is still going on |
| `ULogDelivery.TooShortExactly` | Tools/mavlink_ulog_streaming.py:189-197 | the exception is raised exactly for an accepted packet of less than 16 bytes while no header was stored |
| `ULogDelivery.Delivery` | Tools/mavlink_ulog_streaming.py:144-233 | for every stream and every loss, repetition and delay after the first packet: the file is the header and whole messages, each a dropout record or a sender message; the sender's are exactly those whose every packet was accepted, in order and once (the last may be pending); the dropout records are, in order, one for every accepted packet that skips others once an accepted packet was unacknowledged, each with the number skipped, at most 25; every packet that asks for it is acknowledged whenever it arrives; accepted packets plus dropouts are the span; without dropouts file plus pending bytes are the bytes sent |
| `ULogSender.LogWriter.StartLog` | src/modules/logger/log_writer_mavlink.cpp:65-80 | sequence, data and offset start anew |
| `ULogSender.LogWriter.StopLog` | src/modules/logger/log_writer_mavlink.cpp:82-86 | the data is dropped and nothing more is published |
| `ULogSender.LogWriter.PublishMessage` | src/modules/logger/log_writer_mavlink.cpp:130-188 | the published packet carries its piece of the stream with its true first message offset; a missing acknowledgement stops the log |
| `ULogSender.LogWriter.SendSome` | src/modules/logger/log_writer_mavlink.cpp:101-113 | one round of the copying loop |
| `ULogSender.LogWriter.WriteMessage` | src/modules/logger/log_writer_mavlink.cpp:88-116 | a message goes into the stream; every packet it publishes is full, 249 bytes, and asks for an acknowledgement exactly in reliable mode; a failure stops the log; the class invariant is kept |
| `ULogSender.LogWriter.SetNeedReliableTransfer` | src/modules/logger/log_writer_mavlink.cpp:118-128 | switching reliable transfer off publishes exactly the bytes that are left, as one acknowledged packet, and otherwise nothing is published |
| `ULogSender.PublishedStream` | src/modules/logger/log_writer_mavlink.cpp:65-188 | whatever was written, the published packets are those of a stream with true offsets and gapless numbers |
| `ULogSender.EndToEnd` | Tools/mavlink_ulog_streaming.py:144-233 | `Delivery` for the packets the sender really publishes: file, sender messages, dropout records, acknowledgements and counts |
| `Crc32.TableIsEightSteps` | Tools/px4_uploader.py:393-410 | the table look-up is eight steps of the reflected polynomial (section 8 of RFC 1952) |
| `Crc32.UpdateCrc` | Tools/px4_uploader.py:393-410 | the byte loop of the library computes the bit-by-bit register |
| `Crc32.CheckValue` | Tools/px4_uploader.py:393-410 | the published check value: the digits 1 to 9 give CBF43926 |
| `Crc32.WordBytes` | Tools/px4_uploader.py:1106-1131 | the reported checksum is four bytes, the lowest first |
| `Crc32.FirmwareCrc` | Tools/px4_uploader.py:393-410 | the conditioning cancels: the result is the register from 0, without final xor, over image and 0xFF padding |
| `Crc32.PaddedMeans` | Tools/px4_uploader.py:393-410 | the checksum is over the image and 0xFF up to the flash size |
| `Crc32.RegisterInjective` | Tools/px4_uploader.py:393-410 | different registers stay different over the same bytes |
| `Crc32.BurstDetected` | Tools/px4_uploader.py:1106-1131 | contents that differ only within four consecutive bytes, so in particular in one byte, have different checksums |
| `SerialLink.Link.Send` | Tools/px4_uploader.py:488-509 | a command goes out once or the port is broken; what comes back is queued |
| `SerialLink.Link.Recv` | Tools/px4_uploader.py:511-552 | exactly the asked bytes in order, or a time-out with fewer, or a broken port; no byte is lost |
| `BootloaderProtocol.PadImage` | Tools/px4_uploader.py:377-381 | the image is padded with 0xFF to the next multiple of four and otherwise kept |
| `BootloaderProtocol.ProgramsCover` | Tools/px4_uploader.py:1037-1080 | the chunks are the image, none is empty or longer than 252 bytes, and for a padded image each length is a multiple of four |
| `BootloaderProtocol.ChunksFull` | Tools/px4_uploader.py:1037-1080 | chunk i is sent by command i, and all chunks but the last have 252 bytes |
| `BootloaderProtocol.AllAcks` | Tools/px4_uploader.py:765-786 | the window loop accepts exactly INSYNC and OK for every chunk |
| `BootloaderProtocol.Bootloader.GetSync` | Tools/px4_uploader.py:684-724 | it succeeds exactly when INSYNC and OK are what was read; failure means something else came or the port broke |
| `BootloaderProtocol.Bootloader.ValidateSyncWindow` | Tools/px4_uploader.py:750-786 | success means every acknowledgement of the window was read; failure that some was missing or wrong |
| `BootloaderProtocol.Bootloader.ProgramChunk` | Tools/px4_uploader.py:1046-1062 | one chunk is sent and the outstanding ones never exceed the window |
| `BootloaderProtocol.Bootloader.Program` | Tools/px4_uploader.py:1025-1080 | on success every chunk was sent in order and acknowledged, all answers are read, at most 256 chunks were ever outstanding; it fails only if the port broke or a chunk was not acknowledged |
| `BootloaderProtocol.Bootloader.FlushWindow` | Tools/px4_uploader.py:1062-1069 | the rest of the last window is read |
| `BootloaderProtocol.Bootloader.TrySync` | Tools/px4_uploader.py:726-748 | a failed attempt, errata included, reads as not yet |
| `BootloaderProtocol.Bootloader.Erase` | Tools/px4_uploader.py:978-1023 | success means the right erase command was sent and acknowledged; failure is a broken port or a time-out, and then the device did not deliver an acknowledgement within the given number of polls |
| `BootloaderProtocol.Bootloader.VerifyCrc` | Tools/px4_uploader.py:1086-1133 | passes exactly when the checksum was asked for, reported and acknowledged, and is that of image and padding; it fails only if the device did not deliver that answer |
| `BootloaderProtocol.Bootloader.VerifyRead` | Tools/px4_uploader.py:1135-1183 | passes exactly when all chunks were asked for and the acknowledged answers are the image; it fails only if the device did not deliver those answers |
| `BootloaderProtocol.Bootloader.Verify` | Tools/px4_uploader.py:1185-1199 | checksum from protocol 3 on, read-back before |
| `BootloaderProtocol.Bootloader.VerifySignature` | Tools/px4_uploader.py:1201-1276 | passes exactly on OK, on no answer, and on INVALID for an unsigned image; it fails only if the port broke or the device delivered something else |
| `BootloaderProtocol.Bootloader.TryBoot` | Tools/px4_uploader.py:1282-1320 | one attempt: it counts as a reboot exactly if the port went away or the command was acknowledged |
| `BootloaderProtocol.Bootloader.Boot` | Tools/px4_uploader.py:1282-1333 | REBOOT is the first thing sent and the only one, at most three times; success means an acknowledgement, a vanished port or a re-enumeration, and giving up means all attempts were made; from protocol 3 on one acknowledged REBOOT is enough, and anything else means that the device did not acknowledge it |
| `BootloaderDevice.AcksMeanAll` | Tools/px4_uploader.py:750-786 | the answers to n chunks read as n acknowledgements only if each of them is one |
| `BootloaderDevice.FlashHolds` | Tools/px4_uploader.py:1071-1080 | a device that acknowledged every chunk holds exactly the chunks |
| `BootloaderDevice.SlowQueues` | Tools/px4_uploader.py:1000-1020 | a device that answers only when it is ready, on a port that may break, is one of those below |
| `BootloaderDevice.ProgramFresh` | Tools/px4_uploader.py:1037-1080 | for every device whose answers come in order, at any delay and on a port that may break: success means every chunk is acknowledged, the flash is the image and no answer is unread; failure that the port broke or acknowledgements are missing |
| `BootloaderDevice.ProgramPrompt` | Tools/px4_uploader.py:1037-1080 | a device that answers at once is programmed exactly if it acknowledges every chunk |
| `BootloaderDevice.ProgramBothWays` | Tools/px4_uploader.py:1037-1080 | windowed and per-chunk runs behind two lines with different delays and failures: whichever succeed send the same commands and leave the same flash, the image; with prompt answers both succeed or both fail |
| `UploadSequence.SelectFirmware` | Tools/px4_uploader.py:2008-2040 | the first firmware for the board, or a single forced one, or none |
| `UploadSequence.SizeCheckMisses` | Tools/px4_uploader.py:2068-2073 | among firmwares that pass the checks exactly those with image_size <= flash size < image length write past the flash |
| `UploadSequence.SizeCheckMissesOne` | Tools/px4_uploader.py:2068-2073 | such a firmware |
| `UploadSequence.PaddingOverruns` | Tools/px4_uploader.py:377-381 | with a true image_size the padding alone writes past the flash exactly if the data reaches into an incomplete last word |
| `UploadSequence.BootedSafely` | Tools/px4_uploader.py:2059-2122 | a trace that went through erase, program, verification and signature check is ready to boot |
| `UploadSequence.Prepare` | Tools/px4_uploader.py:2059-2110 | success means erase, program, verification and, for a signed image, signature check each passed in this order; failure that the stage reached did not get what it waits for; no REBOOT is sent |
| `UploadSequence.DoUpload` | Tools/px4_uploader.py:2042-2123 | nothing is erased or programmed unless errata and size checks passed; REBOOT comes only after an acknowledged erase, the whole image, a passed verification and no bad signature answer; success means that it came right behind these milestones or that the port went away then; a firmware that fails the checks sends nothing, and any other failure is a stage that did not get what it waits for |
| `UploadSequence.UploadToPort` | Tools/px4_uploader.py:1867-1910 | the same with board match or a forced single file before anything is sent: success means that the chosen firmware went through all milestones and REBOOT |
| `UploadOutcome.FlashKept` | Tools/px4_uploader.py:1086-1276 | commands that neither erase nor program leave the flash alone |
| `UploadOutcome.ProgrammedAfterErase` | Tools/px4_uploader.py:978-1080 | an erase acknowledged at any time and acknowledged programming leave exactly the image, and every answer was read |
| `UploadOutcome.BootedDeviceHolds` | Tools/px4_uploader.py:2042-2123 | a device that stored what it acknowledged holds exactly the firmware image when REBOOT is sent, however late its answers came |
| `UploadOutcome.CrcRejects` | Tools/px4_uploader.py:1106-1131 | the checksum check rejects every flash content that differs within four consecutive bytes |
| `UploadVerified.ReadbackPassed` | Tools/px4_uploader.py:1135-1183 | a passed read-back of a device that reads out what it holds means that it holds the image |
| `UploadVerified.ChecksumPassed` | Tools/px4_uploader.py:1086-1133 | a passed checksum is the checksum of what the device holds |
| `UploadVerified.BootedDeviceVerified` | Tools/px4_uploader.py:2042-2123 | a device that acknowledges everything but may store something else: at REBOOT after a read-back it holds the image, after a checksum it does not differ from the padded image only within four consecutive bytes |
| `UploadSuccess.PromptDependable` | Tools/px4_uploader.py:684-724 | a device that answers at once is dependable |
| `UploadSuccess.SlowDependable` | Tools/px4_uploader.py:1000-1020 | a device that keeps the uploader waiting only during an erase, and not beyond its polls, is dependable |
| `UploadSuccess.NeverStuck` | Tools/px4_uploader.py:2042-2123 | on a dependable, obliging device that holds what was programmed no stage of an upload is ever without what it waits for |
| `UploadSuccess.UploadSucceeds` | Tools/px4_uploader.py:1867-1910 | for every such device, every list of firmwares with one for the board, every protocol revision and both ways of programming, the upload succeeds with REBOOT behind all milestones |
| `HonestDevice.HonestGood` | Tools/px4_uploader.py:978-1276 | a bootloader that stores what it is sent and answers from its flash is such a device |
| `HonestDevice.HonestUpload` | Tools/px4_uploader.py:1867-1910 | every upload to it succeeds, however long it erases within the polls |
| `Fnv1a.Hash32` | Tools/msg/px_generate_uorb_topic_helper.py:210-218 | the loop computes the 32-bit hash of section 2 of draft-eastlake-fnv |
| `Fnv1a.PublishedValues` | Tools/msg/px_generate_uorb_topic_helper.py:210-218 | the published values for the empty text and for foobar, and the event id of the latter |
| `Fnv1a.MixInjective` | Tools/msg/px_generate_uorb_topic_helper.py:210-218 | one round keeps different low 24 bits different |
| `Fnv1a.OneCharacterChangesId` | Tools/px4events/srcparser.py:5-31 | changing one character always changes the 24-bit event id |
| `Fnv1a.OneCharacterChangesHash` | Tools/msg/px_generate_uorb_topic_helper.py:210-226 | and the 32-bit hash |
| `UorbDefinitions.NotOnPath` | Tools/msg/px_generate_uorb_compressed_fields.py:63-74 | on an acyclic map the recursion never meets a name it is inside of |
| `UorbDefinitions.Ordering.constructor` | Tools/msg/px_generate_uorb_compressed_fields.py:50-61 | no definition is completed at first |
| `UorbDefinitions.Ordering.GetOrderedList` | Tools/msg/px_generate_uorb_compressed_fields.py:63-74 | the flag-setting depth-first search ends, lists what was not completed below the name once, dependencies first, and completes exactly that |
| `UorbDefinitions.OrderAll` | Tools/msg/px_generate_uorb_compressed_fields.py:211-217 | after the reversal every definition is listed exactly once, before all its dependencies |
| `UorbDefinitions.PackIds` | Tools/msg/px_generate_uorb_compressed_fields.py:77-106 | the id bytes, or a failed assertion |
| `UorbDefinitions.PackDependencies` | Tools/msg/px_generate_uorb_compressed_fields.py:77-106 | for every dependency in order the main id of the definition it names, or a failed assertion exactly if one is undefined or out of range |
| `UorbDefinitions.PackDefinition` | Tools/msg/px_generate_uorb_compressed_fields.py:77-106 | one record, or a failed assertion |
| `UorbDefinitions.GetFieldDefinitions` | Tools/msg/px_generate_uorb_compressed_fields.py:77-106 | it succeeds exactly if every definition has fewer than 255 ids and dependencies and ids of 16 bits; read back, there is one record per name with the topic ids, the fields and, dependency by dependency, the main id of the definition named |
| `UorbDefinitions.EncodeAt` | Tools/msg/px_generate_uorb_compressed_fields.py:77-106 | where every byte of a record is: counts, little-endian ids, fields, one NUL |
| `UorbDefinitions.ReadBack` | Tools/msg/px_generate_uorb_compressed_fields.py:77-106 | the encoded records are read back as the definitions have them |
| `UorbDefinitions.DecodeOneInverts` | Tools/msg/px_generate_uorb_compressed_fields.py:77-106 | a record in front of anything decodes to itself exactly when its text has no NUL |
| `UorbDefinitions.DecodeAllInverts` | Tools/msg/px_generate_uorb_compressed_fields.py:77-106 | the concatenated records decode to the list exactly when no text has a NUL |
| `UorbDefinitions.NulIsAmbiguous` | Tools/msg/px_generate_uorb_compressed_fields.py:77-106 | with a NUL two different lists have one encoding |
| `UorbPadding.AddPaddingBytes` | Tools/msg/px_generate_uorb_topic_helper.py:229-277 | the in-place insertion loop gives the padded list, its size and its end padding |
| `UorbPadding.PadField` | Tools/msg/px_generate_uorb_topic_helper.py:242-266 | one turn of the loop |
| `UorbPadding.PaddedSound` | Tools/msg/px_generate_uorb_topic_helper.py:229-277 | for every nested field list the size is a multiple of eight and the sum of all parts, every embedded struct starts at a multiple of eight, the original fields are there in order |
| `UorbPadding.DeeplyPadded` | Tools/msg/px_generate_uorb_topic_helper.py:229-277 | embedded structs at every depth of nesting, and every element of their arrays, start at absolute offsets that are multiples of eight |
| `UorbPadding.PaddedSize` | Tools/msg/px_generate_uorb_topic_helper.py:229-277 | the struct size is the bytes of the fields plus the fill of every run of builtins |
| `UorbPadding.EmbeddedSize` | Tools/msg/px_generate_uorb_topic_helper.py:259-263 | the size counted for an embedded struct is that of its own header exactly if its runs of builtins waste no more than all builtins together would, and never less |
| `UorbPadding.EmbeddedSizeDiffers` | Tools/msg/px_generate_uorb_topic_helper.py:259-263 | a struct that is counted with 24 bytes and has 16 |
| `UorbPadding.SortedPadded` | Tools/msg/px_generate_uorb_topic_helper.py:156-163 | with builtins first in descending size each is naturally aligned and at most one padding field is inserted |
| `Decimal.ParsePrint` | Tools/px4events/srcparser.py:53-56 | a printed number reads back as itself |
| `Decimal.PrintParse` | Tools/px4events/srcparser.py:53-56 | digits are printed as they were read exactly if they have no leading zero |
| `ParamText.SortSorts` | Tools/module_config/generate_params.py:109-112 | enumeration values are printed in numeric order, none added or lost |
| `ParamText.BitsInRange` | Tools/migrate_c_params.py:289-295 | every bit's value lies between 0 and the printed maximum |
| `ParamText.FullMask` | Tools/module_config/generate_params.py:113-119 | with bits 0..N-1 the printed maximum is 2^N-1 |
| `ParamText.TagsInOrder` | Tools/module_config/generate_params.py:107-136 | the group, the tags of the kind and then decimal, increment, category, volatile, min, max, unit and reboot_required, those there are |
| `ParamText.PrintTags` | Tools/module_config/generate_params.py:107-136 | the tag loop yields the tag lines, or raises for a bitmask without bits |
| `ParamInstances.PrintInstances` | Tools/module_config/generate_params.py:138-168 | one text per instance, with its default value and its numbers filled in, or a failed assertion |
| `ParamInstances.PrintParameters` | Tools/module_config/generate_params.py:81-169 | a section prints as the texts of all its instances in order, Ethernet parameters skipped without Ethernet |
| `ParamInstances.FillText` | Tools/module_config/generate_params.py:153-168 | replacing the instance variable in the printed text is replacing it in the definition |
| `ParamInstances.FillVariable` | Tools/module_config/generate_params.py:153-168 | a text is filled in variable by variable, and text without a dollar sign stays as it is |
| `ParamInstances.InstanceMeans` | Tools/module_config/generate_params.py:138-168 | instance i has the i-th default value where there are several, the instance number in its name and the label number in its texts |
| `ParamInstances.InstancesAt` | Tools/module_config/generate_params.py:138-168 | there are as many instances as asked for, in order |
| `ParamInstances.SectionInOrder` | Tools/module_config/generate_params.py:81-169 | the parameters of a section keep their order, all instances of one before the next |
| `ParamInstances.InstanceName` | Tools/module_config/generate_params.py:166-168 | instance i of a numbered parameter is named with start + i |
| `ParamParser.SourceParser.constructor` | Tools/migrate_c_params.py:92-93 | no groups at first |
| `ParamParser.SourceParser.Parse` | Tools/migrate_c_params.py:95-238 | the line loop ends as the state machine does, storing parameters by group; what a definition line stores is said by `BareDefinition` and `DocumentedDefinition` |
| `ParamReading.FeedLine` | Tools/migrate_c_params.py:104-108 | the text is taken line by line, empty lines ignored |
| `ParamReading.PrintedContent` | Tools/migrate_c_params.py:117-125 | a printed comment line has its stripped text as content and does not end the comment |
| `ParamReading.TagRead` | Tools/migrate_c_params.py:135-137 | a printed tag is read as its name and its stripped text |
| `ParamReading.EntryRead` | Tools/migrate_c_params.py:138-147 | a key and a description come apart at the first space |
| `ParamReading.ReadTags` | Tools/migrate_c_params.py:135-151 | all tags of a definition, enumeration values and bits in order, explicit limits overriding those of a bitmask |
| `ParamRoundTrip.ReadLong` | Tools/migrate_c_params.py:126-165 | the long text is collected over its lines, paragraph breaks kept |
| `ParamRoundTrip.DefineMatched` | Tools/migrate_c_params.py:188-190 | the printed definition line matches with its type, name and default value |
| `ParamRoundTrip.FeedDefinition` | Tools/migrate_c_params.py:103-238 | one printed definition is read as its parameter and added to its group |
| `ParamRoundTrip.PrintParse` | Tools/migrate_c_params.py:103-238 | parsing the printed text of any list of well-formed definitions gives their parameters per group in order |
| `ParamRoundTrip.GroupedMeans` | Tools/migrate_c_params.py:233-236 | a group holds exactly the parameters of its definitions, in order |
| `ParamTidy.LongExact` | Tools/migrate_c_params.py:126-165 | a long text of any number of paragraphs comes back unchanged exactly if it is tidy |
| `ParamTidy.AlwaysBack` | Tools/migrate_c_params.py:197-228 | name, type, flags, the set of fields and what a definition does not have always come back, and every tag comes back stripped |
| `ParamTidy.ComesBackExactly` | Tools/migrate_c_params.py:103-238 | group, default value, short and long text, category, every other tag, enumeration values and bits come back as they were exactly if the definition is tidy |
| `ParamTidy.DotDropped` | Tools/migrate_c_params.py:202-212 | a short text that ends in a dot does not come back |
| `ParamTidy.LeadingBlankKept` | Tools/migrate_c_params.py:138-147 | a blank before a description does |
| `ParamTidy.BitmaskValidates` | Tools/migrate_c_params.py:289-298 | read back as numbers, every bit of a printed bitmask has a description and passes the range check exactly if limits given by hand admit it |
| `ParamIrregular.DefineSpelled` | Tools/migrate_c_params.py:188-190 | a definition line matches in every spelling, with its type, name and default value |
| `ParamIrregular.DefineShape` | Tools/migrate_c_params.py:188-190 | and no other line does |
| `ParamIrregular.CutTypeMeans` | Tools/migrate_c_params.py:198-200 | a number loses the small letters at its end, any other default value stays |
| `ParamIrregular.BareDefinition` | Tools/migrate_c_params.py:197-237 | with no comment just finished a definition line adds exactly one parameter to the miscellaneous group, with the line's name, type and cut default value, its name as short text and nothing else, whatever comment was read before |
| `ParamIrregular.BareBehindPrinted` | Tools/migrate_c_params.py:197-237 | so does a definition line behind any printed list of definitions |
| `ParamIrregular.DetachedComment` | Tools/migrate_c_params.py:197-237 | and one that another line separates from its comment |
| `ParamIrregular.DocumentedDefinition` | Tools/migrate_c_params.py:202-236 | right behind a comment a definition line raises for a short text of several lines or more than 150 characters, is refused for an unknown tag, and otherwise adds the parameter with exactly what the comment says to the comment's group |
| `ParamIrregular.CommentStarts` | Tools/migrate_c_params.py:109-115 | a comment start begins anew, whatever went before |
| `ParamIrregular.StarlessLine` | Tools/migrate_c_params.py:172-175 | a line without a star breaks a comment off |
| `ParamIrregular.EndBehindText` | Tools/migrate_c_params.py:116-178 | the end of a comment may stand behind its last text, and what follows it is ignored |
| `ParamIrregular.TextLine` | Tools/migrate_c_params.py:152-168 | what a text line changes in each state |
| `ParamIrregular.Undescribed` | Tools/migrate_c_params.py:138-147 | a value or bit without a description raises |
| `ParamIrregular.StripMeans` | Tools/migrate_c_params.py:104-108 | exactly the blanks at both ends are stripped |
| `ParamInstances.PrintAndParse` | Tools/module_config/generate_params.py:81-169 | printer and parser together: what is parsed are the instances, per group in order |
| `TimerGroups.FindMatchingBrackets` | Tools/module_config/output_groups_from_timer_config.py:14-29 | the first opening bracket and the first closing one that brings the depth to zero, or none exists |
| `TimerGroups.BracketsMatch` | Tools/module_config/output_groups_from_timer_config.py:14-29 | unless a closing bracket comes first, the two are a matching pair |
| `TimerGroups.RunsTile` | Tools/module_config/output_groups_from_timer_config.py:133 | the timer runs tile the channels, none empty, neighbours different |
| `TimerGroups.RunsUnique` | Tools/module_config/output_groups_from_timer_config.py:133 | no other runs do |
| `TimerGroups.TimersKnown` | Tools/module_config/output_groups_from_timer_config.py:133 | the timer groups exist exactly if every timer is declared and its DShot support is known |
| `TimerGroups.GetOutputGroups` | Tools/module_config/output_groups_from_timer_config.py:141-228 | the loop over counters and labels gives the layout, or raises |
| `TimerGroups.GroupsTile` | Tools/module_config/output_groups_from_timer_config.py:130-228 | for every board the groups tile 1..N with one timer and one type each, the timer parameter is numbered by the timer's first declaration, spin direction is offered exactly with DShot, the group label names the first and the last label number, labels of each type count 1, 2, 3, ... in channel order; refused exactly when there is no channel, a timer is unknown, a run mixes types or a type has no name |
| `ActuatorOutputs.AddGroup` | Tools/module_config/generate_params.py:226-335 | the loops over function groups and standard parameters add one entry per parameter of the group, or raise exactly if the prefix is too long, a group is missing or limits do not fit 16 bits |
| `ActuatorOutputs.GetActuatorOutputParams` | Tools/module_config/generate_params.py:193-335 | the self-extending worklist ends and collects the parameters of all plain groups it meets, or raises |
| `ActuatorOutputs.ListChannels` | Tools/module_config/generate_actuators_metadata.py:214-257 | the channels of one group and the names of their parameters |
| `ActuatorOutputs.GetActuatorOutput` | Tools/module_config/generate_actuators_metadata.py:169-287 | the other worklist ends and lists the channels of all plain groups it meets |
| `ActuatorAgreement.WorkInOrder` | Tools/module_config/generate_params.py:193-224 | the walk meets the given plain groups first and then, generator by generator, the made ones |
| `ActuatorAgreement.GeneratedInherits` | Tools/module_config/generate_params.py:201-224 | a generator makes at least one group, all with its prefix, limits and function groups |
| `ActuatorAgreement.WorkAcceptable` | Tools/module_config/generate_params.py:193-316 | everything the walk meets passes the script's checks exactly if every given group does |
| `ActuatorAgreement.WorkAlike` | Tools/module_config/generate_actuators_metadata.py:169-197 | both scripts meet the same groups in the same order up to names, or both raise |
| `ActuatorAgreement.GeneratorsAgree` | Tools/module_config/generate_actuators_metadata.py:169-287 | the parameter script succeeds exactly when the metadata script does and every given group has a short enough prefix, limits that fit 16 bits and known function groups; then for every prefix and every parameter name the created instance numbers are the listed parameter indices, in order |
| `ActuatorAgreement.OnlyMetadata` | Tools/module_config/generate_params.py:312-316 | a module that only the metadata script takes |
| `ActuatorNames.PrefixMeans` | Tools/module_config/generate_params.py:61-67 | the prefix variable stands for PWM_AUX on boards with an I/O processor and for PWM_MAIN on others; any other variable is refused and any other prefix kept |
| `ActuatorNames.NameMeans` | Tools/module_config/generate_params.py:69-78 | the same for channel names in both scripts |
| `ActuatorNames.ParamNamesMean` | Tools/module_config/generate_params.py:267-334 | a group has the function parameter and those of the disarmed, minimum, center, maximum and failsafe values it gives, under exactly these names |
| `ActuatorNames.CollectEntries` | Tools/module_config/generate_params.py:193-334 | under every name there is exactly one entry per group that has the parameter, in the order of the groups, with its start numbers, count and channel name |
| `ActuatorNames.DescribeMeans` | Tools/module_config/generate_actuators_metadata.py:214-257 | a subgroup has its prefix, its channels numbered from both start numbers on, and the same parameters |
| `ReverseRange.CollectChannelBits` | Tools/module_config/generate_params.py:338-345 | the nested loops give the dictionary of bits in its order |
| `ReverseRange.BitsMatchChannels` | Tools/module_config/generate_params.py:338-345 | no bit occurs twice, and bit b exists exactly if channel b+1 does |
| `ReverseRange.BitTexts` | Tools/module_config/generate_params.py:338-345 | the text of a bit is the name and the label number of its channel, by the last group that has the channel |
| `ReverseRange.BitsInOrder` | Tools/module_config/generate_params.py:338-345 | channels 1..N in order give bits 0..N-1 in order, each with the label of its channel |
| `ReverseRange.PrefixNumbers` | Tools/module_config/generate_params.py:193-256 | the one generator of a prefix numbers its channels 1..N, whatever other groups the module has |
| `ReverseRange.ReverseBits` | Tools/module_config/generate_params.py:338-359 | a prefix that belongs to one generator on N channels has function parameters 1..N and the reverse bits 0..N-1 in this order |
| `ReverseRange.ReverseMask` | Tools/module_config/generate_params.py:347-359 | its reverse-range parameter prints with the maximum 2^N-1, is read back, and every bit passes the validator |
| `ReviewFixes.SortSorts` | Tools/ci/clang-tidy-fixes-to-review.py:209 | the sort is by descending offset and keeps every fix |
| `ReviewFixes.SortStable` | Tools/ci/clang-tidy-fixes-to-review.py:209 | fixes at one offset keep their order |
| `ReviewFixes.CalculateReplacements` | Tools/ci/clang-tidy-fixes-to-review.py:206-218 | the loop splices the sorted fixes one after the other |
| `ReviewFixes.SplicingSubstitutes` | Tools/ci/clang-tidy-fixes-to-review.py:206-218 | for separate fixes the result is the simultaneous substitution, whatever their order |
| `DiffRegions.ScanRegions` | Tools/ci/clang-tidy-fixes-to-review.py:356-451 | the diff walk yields the regions of the specification |
| `DiffRegions.RegionsRebuild` | Tools/ci/clang-tidy-fixes-to-review.py:371-451 | for every diff the regions are disjoint, increasing and inside the source, and rebuild the changed text exactly if the diff does not end in a bare insertion |
| `DiffHunks.RegionPerHunk` | Tools/ci/clang-tidy-fixes-to-review.py:356-451 | there is exactly one region per hunk: the deleted lines with the inserted text, or for a bare insertion the kept line behind it with the insertion in front |
| `DiffRegions.SuggestionsApplyFixes` | Tools/ci/clang-tidy-fixes-to-review.py:206-451 | accepting every region of any diff applies all fixes at once, under the same condition |
| `DiffRegions.TrailingInsertionLost` | Tools/ci/clang-tidy-fixes-to-review.py:434-435 | a line added at the end of the file yields no region |
| `EventMessages.ShiftPrintedArguments` | Tools/px4events/srcparser.py:43-58 | the rewriting loop ends although the text grows, and gives the shifted message |
| `EventMessages.ShiftWrites` | Tools/px4events/srcparser.py:43-58 | the result is the message's tokens with every placeholder raised and every other token untouched |
| `EventMessages.ShiftReads` | Tools/px4events/srcparser.py:43-58 | read again, every placeholder is raised exactly once |
| `EventMessages.ShiftTwice` | Tools/px4events/srcparser.py:43-58 | shifting by a and then by b is shifting by a+b |
| `EventMessages.ShiftByZero` | Tools/px4events/srcparser.py:43-58 | shifting by zero leaves a message alone exactly if no placeholder has a leading zero |
| `EventMessages.LeadingZerosDropped` | Tools/px4events/srcparser.py:43-58 | the digits 007 become 7 |
| `EventMessages.SameArguments` | Tools/px4events/srcparser.py:60-70 | every placeholder stands for the argument it stood for |
| `EventMessages.Event.constructor` | Tools/px4events/srcparser.py:21-27 | a new event has no texts and no arguments |
| `EventMessages.Event.PrependArguments` | Tools/px4events/srcparser.py:60-70 | arguments go in front, both texts are shifted by their number, and the message keeps referring to the same arguments |
| `EventMessages.Event.PrependTwice` | Tools/px4events/srcparser.py:60-70 | two calls are one call with both lists |
| `EventArguments.ParseArguments` | Tools/px4events/srcparser.py:310-338 | the scanning loop gives the trimmed pieces between top-level commas |
| `EventArguments.PiecesJoin` | Tools/px4events/srcparser.py:310-338 | for every text the untrimmed pieces, joined by commas, are the text |
| `EventArguments.SplitJoin` | Tools/px4events/srcparser.py:310-338 | joining and splitting gives a list back exactly if its arguments are trimmed, all but the last leave brackets and strings closed, and none has a top-level comma |
| `EventArguments.SplitBalanced` | Tools/px4events/srcparser.py:310-338 | any trimmed, balanced arguments come back, commas in brackets and strings included |
| `EventArguments.BackslashSwallowsComma` | Tools/px4events/srcparser.py:324 | a string ending in an escaped backslash does not |
| `TargetGroups.Chunks` | Tools/ci/generate_board_targets_json.py:76-79 | the parts are the cuts of the array at the multiples of the size |
| `TargetGroups.ChunksMerged` | Tools/ci/generate_board_targets_json.py:83-89 | the parts with a short last one merged back; `PartsMean` says what they are |
| `TargetGroups.PartsMean` | Tools/ci/generate_board_targets_json.py:76-89 | order and content kept, every part but the last of the given size, none empty or more than four too long, and of several the last has at least five elements or took up a short one |
| `TargetGroups.FillBuckets` | Tools/ci/generate_board_targets_json.py:316-324 | every target is in a bucket of its chip family, none lost or added, and each bucket holds what the list of its manufacturer has of the family |
| `TargetGroups.GatherManufacturers` | Tools/ci/generate_board_targets_json.py:345-352 | the targets of a chip family by manufacturer, or pooled as nxp, in the order of the given lists |
| `TargetGroups.SortSorts` | Tools/ci/generate_board_targets_json.py:371 | manufacturers are taken in name order, no target lost |
| `TargetGroups.EmitChunks` | Tools/ci/generate_board_targets_json.py:388-454 | one group per part, in order, with its number, its chip family, its targets and their count |
| `TargetGroups.EmitChip` | Tools/ci/generate_board_targets_json.py:363-428 | the groups of a chip family are, in name order, one per manufacturer with enough but not too many targets, numbered ones for a manufacturer with too many, and at the end the misc groups of all others; each has exactly the targets the given lists have, counted right and within the limit |
| `TargetGroups.Partition` | Tools/ci/generate_board_targets_json.py:329-435 | the families with groups of their own and the special ones together are everything, nothing twice |
| `TargetGroups.GroupTargets` | Tools/ci/generate_board_targets_json.py:315-454 | the emitted groups are those of the chip families present, in name order, laid out as above, and then the special ones; they hold exactly the given targets, as often as given; every `len` is its target count, positive and at most the split limit plus 4; a group holds one chip family |
| `TargetNames.ConfigMeans` | Tools/ci/generate_board_targets_json.py:316-340 | a target without a chip family is native, a family without its own split limit has the default one, special and rp2040 are the special families |
| `TargetNames.ShareMeans` | Tools/ci/generate_board_targets_json.py:316-352 | a manufacturer's share of a family is what its list has of it, and in the NXP families what all lists have |
| `TargetNames.OneGroup` | Tools/ci/generate_board_targets_json.py:371-385 | with more targets than the lower limit, or in an NXP family, and not more than the split limit there is a group of the manufacturer's name with exactly its targets |
| `TargetNames.OnlyGroup` | Tools/ci/generate_board_targets_json.py:371-428 | no two groups of a family have one name if it is that of a manufacturer not called misc |
| `TargetNames.SeveralGroups` | Tools/ci/generate_board_targets_json.py:386-401 | with more than the split limit there are consecutive groups, numbered from 0 on, that concatenate to its targets |
| `TargetNames.MiscGroups` | Tools/ci/generate_board_targets_json.py:402-428 | the groups at the end concatenate to the targets of all others, in name order |
| `TargetNames.NamesDiffer` | Tools/ci/generate_board_targets_json.py:371-428 | all group names of a family differ exactly if no manufacturer called misc has as its own group, or groups, what the others share |

## Left out

- Serial, USB and MAVLink transport, time and sleeping: only their outcomes (bytes, time-outs, a broken port) appear.
- Board identification, OTP and serial number reads, port detection, the GCS release command, progress output.
- zlib's implementation beyond the CRC-32 definition, base64, decompression and signature cryptography.
- The heatshrink compression of the field records and the C++ files written from them.
- Variable-length arrays, `string` fields and cyclic message nesting in uORB messages.
- ULogSender.LogWriter.WriteMessage: whether an acknowledgement comes is an arbitrary choice; the MAVLink module's
  retransmission between sender and receiver is part of the arbitrary delivery in `EndToEnd`.
- `difflib.Differ`: any valid keep, delete, insert script stands for its output; hunk filtering and comment bodies are
  not modelled.
- ParamParser.SourceParser.Parse: `PX4_PARAM_DEFINE` and `#define` lines, the `board` tag and the sorting of the groups
  for output are not modelled; the patterns are matched without backtracking, which differs from the regular
  expressions only for a default value made of tab characters.
- Conversion of parsed texts to numbers in the YAML writer, and the rest of the validator (default against limits,
  names longer than 16 characters, duplicates).
- ActuatorOutputs.GetActuatorOutputParams: descriptions, function values and default values of the created parameters
  are not stated, only their names, instances and channel names; per-timer parameters appear as names in `GroupsTile`.
- ActuatorOutputs.GetActuatorOutput: labels, conditions, actions, custom and configuration parameters of a subgroup are
  not stated, only its prefix, channels and standard parameters.
- TimerGroups.GetOutputGroups: of a timer parameter only the name is stated, of the DShot actions only their presence.
- Keys that the YAML schema requires are taken to be there; groups that share one dictionary by a YAML alias are not
  modelled.
- Regular expressions that extract timers and channels from a timer configuration: the channel list is the input.
- EventMessages.ShiftPrintedArguments: digits are the ASCII ones; the parsing of event comments and calls around the
  argument list is not modelled.
- ULogReceiver.LogStreaming.ReadMessages: the start time-out, the stop request and the handling of COMMAND_ACK are not
  modelled, only what the loop does with the packets.
- UploadSequence.UploadToPort: opening, identifying and closing the port are not modelled, only what is sent in between.
- TargetGroups.GroupTargets: container, runner and cache fields of a group, the grouping of targets for other platforms
  and the order of the special targets are not stated.
- TargetNames.NamesDiffer: for chip labels without a dash that are not only digits, as all are.
- Validation, plotting, documentation and HIL scripts of the repository, and all flight code except the log stream
  writer.
