# Suzu: a model of its audio path and of its retries

Suzu receives an HTTP/2 request body that carries Opus packets, turns it into an Ogg Opus stream,
sends that stream to a speech service and writes the service's results back to the client. When
the service fails it may start another attempt on the same body. This project models that path and
proves what it keeps.

`dafny verify dfyconfig.toml` checks everything. One module per file:

| module | what it is about |
|---|---|
| `Bytes` | bytes, fixed-width integers, little- and big-endian encodings |
| `Weights` | what little- and big-endian fields stand for, by the weight of each byte |
| `Crc` | the page checksum: long division over GF(2), the bit-serial register, the table-driven loop, error detection |
| `CrcValues` | the generator and the start of the table as numbers |
| `OggPage` | the layout of a page (section 6 of RFC 3533), a parser for streams of pages, the round trip |
| `Opus` | packet durations from the TOC byte (sections 3.1 and 3.2 of RFC 6716) |
| `OggWriter` | the writer object: headers (sections 5.1 and 5.2 of RFC 7845), granules, RTP clock, the rewrite in `Close` |
| `Framing` | the 20-byte frame header and the one-shot parse of a byte string |
| `Deframer` | the header option: frames from arbitrarily cut chunks, on slices that share backing arrays |
| `Opus2Ogg` | the consumer goroutine, from audio channel to pipe |
| `Pipeline` | the goroutines and unbuffered channels as a state machine; its invariant |
| `PipelineRuns` | whole runs: prefix safety, schedule independence, termination, the end-to-end result |
| `Goroutines` | the loops of the small goroutines, and the stages run one after the other |
| `Transcribe` | the start of a transcription: first audio, then the connection, then the rest |
| `Speech`, `SpeechRuns` | the request handler: retries, counter, client output |
| `Attempts` | several attempts that share one audio channel, each with a pipe of its own |
| `AttemptRuns` | what the steps of overlapping attempts do over whole runs: cancellation, connections, reads, crashes, loss |
| `AttemptFrames` | the audio pages of all attempts against the frames of the body |

## How the program is represented

- A `uint32` checksum is a string of 32 bits, so `<<` and `^` are exact. `uint64` granules,
  `uint32` sequence numbers and timestamps are integers reduced modulo 2^64 and 2^32 where the
  program wraps. A `byte` conversion is a remainder modulo 256. `int(uint32)` is taken to be exact,
  as on a 64-bit platform.
- Where a Go `select` may take the context's case, a method draws an arbitrary choice that is
  possible only in a `cancellable` run; a file that is not `reliable` may fail after any part of a
  write. Every result therefore covers all outcomes, and the stronger clauses are for runs where
  neither happens.
- Timers, cancellation, scheduling and the answers of the speech service are arbitrary events.
  A serial number is an arbitrary constant of each writer.
- The `silent` mark on a packet exists in the model only; no step depends on it.
- The body of each method follows the program's loop. It is proved against a function, and the
  promised properties are proved about that function.
- `codecs.OpusPacket.Unmarshal` of pion/rtp is not part of this model. It is taken to fail exactly
  on an empty payload and otherwise to hand the payload through.

## Where the code does not do what one would expect

Each of these is modelled as the code has it, with the exact condition under which the expected
property holds.

- `createPage` stores the segment count in one byte (`oggwriter.go:161`), while the header option
  lets payloads of up to 16777215 bytes pass (`options.go:13`). A stream of pages can be read back
  if and only if every payload has at most 65024 bytes (`OggPage.PageStreamRoundTrip`,
  `PipelineRuns.BodyToStream`).
- `Close` steps back over a header with a single lacing value (`oggwriter.go:230`) and writes the
  page anew with the writer's granule (`oggwriter.go:240`), which is 1 before the first packet
  while the comment header has granule 0. The closed file reads back as intended if and only if
  there is a packet, every packet has at most 65024 bytes, and the last one fewer than 255
  (`OggWriter.ClosedStreamReadsBack`, `OggWriter.Record`). `OggWriter.CloseRewrites` gives the
  condition for any file of pages and any granule, `OggWriter.ClosedShape` how far a longer page is
  written late, and `OggWriter.HeadersClosed` what is read back from a file without packets.
- With Ogg file output, `opus2ogg` closes the pipe before the writer's deferred `Close` runs
  (`handler.go:418-488`). The end-of-stream page reaches the file, which is in front of the pipe
  in the multi-writer, but the write as a whole fails, so the file itself is never closed
  (`Opus2Ogg.Run`).
- `writeHeaders` counts a page only after it is written (`oggwriter.go:122-140`), unlike `Write`. If
  the pipe fails under a header page that the file has already got, `Close` marks that page with
  granule 1 and the sequence number before its own, 2^32 - 1 for the first page
  (`Opus2Ogg.FileEnds`, `Opus2Ogg.Run`). At any later failure of the pipe the file ends as the closed
  stream of all packets consumed.
- `WriteRTP` takes timestamp 1 for "no packet yet" (`oggwriter.go:201`). Granules follow the true
  clock if and only if no time passes after a packet whose wire timestamp is 1
  (`OggWriter.ClockExact`); `OggWriter.ClockUnwraps` says how much is lost otherwise.
- The identification header keeps the low byte of the 16-bit channel count (`oggwriter.go:114`); it
  reads back if and only if the count is below 256 (`OggWriter.IdHeaderFields`).
- `Write` reads the first payload byte, and the second for code 3, unchecked
  (`oggwriter_ext.go:7,18`). A one-byte code-3 packet ends the consumer in a crash, which is an
  outcome of its own here.
- After a failed connection the program waits and then closes a reader that `Handle` has not
  returned (`handler.go:180`, `amazon_transcribe_v2_handler.go:128-135`): a panic. With the code as
  written the setting of MaxRetry decides: the handler can panic if and only if MaxRetry is at least
  1, and a first connection refused with a retryable error is enough (`SpeechRuns.PanicsExactly`,
  `SpeechRuns.PanicReached`). `guardedClose` in the model stands for the intended "close it if there
  is one"; both versions are covered, with their own tight bounds on the number of attempts.
- Bytes that a body read returns together with an error, the end of the body included, are dropped
  (`handler.go:532-540`). The channel carries the whole body if and only if that read has no data
  (`PipelineRuns.ReaderCarriesBody`), and all frames arrive if and only if the dropped bytes belong
  to the incomplete frame at the end (`PipelineRuns.FramesCutShort`, `PipelineRuns.EndToEnd`).
- After a retry the goroutine of the previous attempt may still receive from the shared channel.
  Delivery across attempts is not free of loss: `AttemptRuns.LossHappens` is a run in which a
  cancelled attempt takes a packet while the next one waits. `Attempts` and `AttemptFrames` prove
  what does hold.

## Model

| member | source | states |
|---|---|---|
| `Crc.BitSerialDivides` | oggwriter.go:261-277 | a register that shifts one message bit at a time holds the remainder of schoolbook polynomial division by x^32 + 0x04c11db7, for every message and start state |
| `Crc.ShiftNLinear` | oggwriter.go:266-273 | any number of shift steps commutes with xor |
| `Crc.ShiftNInjective` | oggwriter.go:266-273 | any number of shift steps is one-to-one on 32-bit states |
| `Crc.BitSerialBlock` | oggwriter.go:173-176 | up to 32 message bits may be added to the register at once and then shifted through |
| `CrcValues.GeneratorValue` | oggwriter.go:263 | the 32 bits of the generator are, byte by byte, 0x04c11db7 |
| `Crc.GenerateChecksumTable` | oggwriter.go:261-277 | the nested loop fills all 256 entries, entry i with eight shift steps of i placed in the top byte |
| `CrcValues.TableStart` | oggwriter.go:265-274 | entry 1 of the table is 0x04c11db7: bits go in most significant first, without reflection |
| `Crc.TableStep` | oggwriter.go:173-176 | one table lookup does the work of eight bit-serial steps, for every register and byte |
| `Crc.ComputeChecksum` | oggwriter.go:173-176 | the table-driven loop returns the long-division remainder of the message times x^32, for every byte string; zero start, no reflection, no final xor |
| `Crc.BurstDetected` | oggwriter.go:173-176 | two messages that differ only inside a window of at most 32 bits, at any bit alignment, leave the same register exactly when they are equal |
| `Crc.ErrorDetected` | oggwriter.go:173-176 | different byte strings of equal length that differ only inside four consecutive bytes have different checksums |
| `OggPage.LacingIsOnePacket` | oggwriter.go:163-169 | under the rule that a lacing value below 255 ends a packet, the segment table stands for exactly one packet of the payload's size, ending on its page, also for multiples of 255 |
| `OggPage.PageLayout` | oggwriter.go:149-178 | the bytes of a page by offset: "OggS", version 0, header type, then granule, serial and sequence number by the weights of their bytes, segment count, segment table, payload |
| `OggPage.StoredChecksum` | oggwriter.go:173-178 | bytes 22 to 25 are the checksum over the page with a zero field, least significant byte first |
| `OggPage.PageFound` | handler_test.go:26-50 | a page is found exactly where "OggS" is followed by all the bytes its segment table announces; which error is reported otherwise |
| `OggPage.DecodeEncode` | oggwriter.go:149-181 | a page of at most 65024 payload bytes decodes to its header type, granule, serial, sequence number and payload, and its checksum verifies with the field zeroed |
| `OggPage.PageLengthOfEncode` | oggwriter.go:161 | how long a parser takes any written page to be: its true length up to 65024 payload bytes, and otherwise what the wrapped segment count says |
| `OggPage.ParseLoop` | handler_test.go:23-66 | the offset loop of the reference parser finds the same pages, or the same error, as the recursive reading of the format |
| `OggPage.ParseAfterPages` | oggwriter.go:149-181 | parsing undoes writing for any pages that fit, and continues unharmed behind them |
| `OggPage.OversizedPageLost` | oggwriter.go:161 | behind a page that does not fit, whatever follows it, a parse fails or the first page it finds has a payload of another length |
| `OggPage.UnfitLost` | oggwriter.go:161 | pages that do not all fit never read back, in front of any bytes, not even as the beginning of a longer stream |
| `OggPage.PrefixReadsBack` | oggwriter.go:149-181 | a stream cut off between pages reads back as a given stream if and only if nothing is missing and every page fits |
| `OggPage.PageStreamRoundTrip` | oggwriter.go:149-181 | a written sequence of pages reads back as itself, with all checksums valid, if and only if every payload has at most 65024 bytes |
| `OggPage.CorruptionDetected` | oggwriter.go:173-178 | damage inside four consecutive bytes outside the checksum field makes a valid page's stored checksum fail |
| `Opus.GranulePositionIsTable` | oggwriter_ext.go:45-64 | for every TOC byte the switch gives the frame size that RFC 6716 lists for the configuration, at 48 samples a millisecond |
| `Opus.DurationByCode` | oggwriter_ext.go:7-25 | for every configuration, stereo bit and second byte: one frame for code 0, two for codes 1 and 2, the low six bits of the second byte for code 3, each of the length RFC 6716 lists |
| `Opus.ReadableExactly` | oggwriter_ext.go:7-18 | what can be read: any packet of two bytes or more, and one byte unless its code is 3 |
| `Opus.SilentDuration` | handler.go:557-559 | the silent packet is one readable frame of 960 samples |
| `OggWriter.IdHeaderFields` | oggwriter.go:108-118 | the identification header reads back: version 1, pre-skip 3840, sample rate, no gain, mapping 0, and the channel count if and only if it is below 256 |
| `OggWriter.CommentHeaderFields` | oggwriter.go:128-133 | the comment header is consumed exactly by a reader that follows its length fields |
| `OggWriter.AudioPageAt` | oggwriter_ext.go:5-30 | page k of a run of writes carries packet k, sequence number start + k modulo 2^32, and the granule of everything up to its end |
| `OggWriter.StreamPositions` | oggwriter_ext.go:5-30 | over a whole stream within 64 bits: sequence numbers count pages modulo 2^32, header granules are 0, audio granules are 1 plus the samples so far, never decrease and rise by at most 63 frames of 2880 |
| `OggWriter.HeaderTypes` | oggwriter.go:122-136 | over a whole stream: header type 2 on the first page and 0 on all others; "OpusHead" is on the first page and "OpusTags" on the second; marking the last page sets type 4 there and changes nothing else |
| `OggWriter.OggStreamSnoc` | oggwriter_ext.go:5-30 | writing one more packet appends one page to the bytes of the stream and changes nothing before it |
| `OggWriter.ClockUnwraps` | oggwriter.go:200-205 | across any number of 32-bit wraps the granule is 1 plus the true elapsed ticks, less the ticks that followed a packet with wire timestamp 1 |
| `OggWriter.ClockExact` | oggwriter.go:200-205 | the granule equals 1 plus the true elapsed ticks if and only if no time passes after a packet with wire timestamp 1 |
| `OggWriter.ClockLoses` | oggwriter.go:200-205 | an input that loses time: timestamps 1 and 961 leave the granule at 1, while 2 and 962 give 961 |
| `OggWriter.RtpPageAt` | oggwriter.go:200-208 | over a whole RTP recording: page k has the k-th packet with a payload, header type 0, the next sequence number and the granule of the clock up to it |
| `OggWriter.WrittenExactly` | oggwriter.go:188-190 | the packets written are those with a payload, in their order |
| `OggWriter.ClosedShape` | oggwriter.go:229-243 | the end-of-stream page starts as many bytes late as the last page has lacing values beyond one; the file grows by that many bytes; the payload read back is the last one |
| `OggWriter.EosChangesTwoFields` | oggwriter.go:240 | the page `Close` writes has the last page's length, and changes nothing outside header type and checksum if and only if the writer's granule is still that page's |
| `OggWriter.LateHeader` | oggwriter.go:230 | a page written late is never parsed as an end-of-stream page at the place where the last page began |
| `OggWriter.CloseRewrites` | oggwriter.go:213-248 | for any file of pages and any granule of the writer: earlier pages stay; the closed file parses to the same pages with the last one marked if and only if the earlier pages fit, the last payload has fewer than 255 bytes, and the granule is the last page's |
| `OggWriter.ClosedStreamReadsBack` | oggwriter.go:213-248 | a written and closed stream reads back with its last page marked if and only if there is a packet, every packet fits into a page, and the last has fewer than 255 bytes |
| `OggWriter.HeadersClosed` | oggwriter.go:240 | a file closed before its first packet is read back with granule 1 on the comment header's page, so not as the header pages with the second one marked |
| `OggWriter.File.Write` | oggwriter.go:252-259 | a write to an open file overwrites at its position or fails after a part of the data; on a closed file it does nothing |
| `OggWriter.OverwriteExactly` | oggwriter.go:230-241 | a write at a position replaces the bytes from there on, byte by byte, and lengthens the file only if it must |
| `OggWriter.OggWriter.NewWithoutHeader` | patch/oggwriter.go.patch:35-54 | without an output there is no writer; otherwise a new one has a correct checksum table, sequence number 0, granule 1 and the "no timestamp" mark |
| `OggWriter.OggWriter.CreatePage` | oggwriter.go:149-181 | filling the buffer in place gives exactly the encoded page; only the remembered payload size changes |
| `OggWriter.OggWriter.WriteToStream` | oggwriter.go:252-259 | without a stream it fails; a multi-writer's second part gets nothing unless the first has got all of it; a failed write leaves at most a part of the data behind |
| `OggWriter.OggWriter.WriteHeaders` | oggwriter.go:108-143 | both header pages are appended to every output and the sequence number moves by two; after a failure each output has only a prefix of them, the pipe never more than the file, and the sequence number counts the pages written in full |
| `OggWriter.OggWriter.Write` | oggwriter_ext.go:5-30 | the packet's page is appended to every output with the granule moved on by its duration; after a failure only a prefix of it is there, and granule and sequence number advance all the same |
| `OggWriter.OggWriter.WriteRTP` | oggwriter.go:184-210 | nil is refused, an empty payload changes nothing, any other packet appends its page with the granule of the unwrapped clock, or a prefix of it on failure |
| `OggWriter.OggWriter.Close` | oggwriter.go:213-248 | with a file, single or in front of a multi-writer: its last bytes are replaced by the end-of-stream page, or it is left alone when it is too short; the file is closed only if the whole write succeeds. Without a file a single stream is closed and a multi-writer, which has no Close, is not. In every case the writer lets go of all of them |
| `OggWriter.Record` | oggwriter.go:47-83 | a whole recording to a file, headers, any number of packets and close: it reads back as the stream with its last page marked if and only if there is a packet, every packet fits into a page, and the last has fewer than 255 bytes |
| `OggWriter.RecordRtp` | oggwriter.go:184-210 | a whole RTP recording: packets without payload leave no trace, every page carries the granule of the unwrapped clock, for any timestamps |
| `Framing.ParseFrames` | options.go:84-186 | the greedy parse of a byte string leaves an incomplete frame of fewer than 20 + 16777215 bytes, or stops at a header that announces more than 16777215 |
| `Framing.HeaderLayout` | options.go:114-120 | the length is in bytes 16 to 19, most significant first; a header announces too much if and only if byte 16 is not zero; a frame is there if and only if all its bytes are |
| `Framing.WireLayout` | options.go:114-118 | a frame by offset: 16 bytes, the length with its most significant byte first, the payload of at most 16777215 bytes |
| `Framing.ParseExtends` | options.go:106-186 | parsing may stop anywhere and go on with more bytes from the unparsed rest alone |
| `Framing.ParseWire` | options.go:114-118 | parsing undoes framing for any valid frames and continues behind them |
| `Framing.ParseSound` | options.go:84-186 | for every byte string the frames found and the rest are together exactly the input, and the rest holds no further frame |
| `Deframer.FeedRefinesOneShot` | options.go:92-186 | handling one more chunk, of any size, emits exactly what it adds to the one-shot parse of the concatenated input |
| `Deframer.Buffered` | options.go:105-112 | while the stage runs no byte is lost: input is the emitted frames followed by the buffer, an incomplete frame of fewer than 20 + 16777215 bytes |
| `Deframer.StoppedForGood` | options.go:96-103 | after an error or an oversized header no further input changes what is emitted |
| `Deframer.FailureEnds` | options.go:96-103 | an upstream error is passed on and is the last thing emitted |
| `Deframer.Append` | options.go:106 | Go's append, in place or reallocating, at any capacity: contents are concatenated and no byte before the old end changes |
| `Deframer.SendKeeps` | options.go:137-141 | sending a sub-slice and reslicing the buffer keeps all sent frames in front of the buffer in a shared array |
| `Deframer.AppendApart` | options.go:106 | an append leaves the bytes of every frame already sent as they were |
| `Deframer.FirstFrame` | options.go:105-146 | the first pass over a buffer emits a prefix of the frames due; afterwards the chunk is done, stopped at an oversized header, or cut short by cancellation |
| `Deframer.NextFrames` | options.go:149-184 | the inner loop emits the remaining frames of the chunk and terminates, zero-length frames included |
| `Deframer.ReadPacketWithHeader` | options.go:78-190 | for every chunking the stage emits the one-shot parse of the concatenation, then one too-large error or the upstream error; cancellation leaves a prefix; every slice sent still holds its frame at the end |
| `Opus2Ogg.ConsumeAllAppend` | handler.go:460-488 | what the consumer makes of a channel does not depend on how its history is split |
| `Opus2Ogg.SinkGrows` | handler.go:425-488 | bytes written to the pipe are never taken back, whatever arrives later |
| `Opus2Ogg.HeadersFirst` | handler.go:446-455 | the two header pages come first in whatever a started consumer has written |
| `Opus2Ogg.Put` | handler.go:452-455 | writing one packet keeps pipe and file equal to the stream of all packets consumed; a file that does not fail has the packet's page even if the pipe fails; an unreadable packet crashes |
| `Opus2Ogg.Serve` | handler.go:425-488 | over any channel history the pipe gets a prefix of the reference stream; outputs that do not fail get the stream of exactly the packets consumed, and without cancellation all of it, with the reference's reason to stop; a file that does not fail gets the whole stream of the packets consumed even if the pipe fails behind the headers |
| `Opus2Ogg.FileEnds` | oggwriter.go:213-248 | what the final rewrite makes of the file: the closed stream of the packets consumed, or after a pipe failure under the headers that header page, marked, with granule 1 and the sequence number before its own |
| `Opus2Ogg.Leave` | handler.go:418-488 | on the way out the pipe is closed and gets nothing more, the file is rewritten and stays open |
| `Opus2Ogg.Run` | handler.go:388-492 | the goroutine with outputs that may fail separately, a pipe that the context may close under any write, and an optional file: the pipe gets a prefix of the reference stream, without failures and cancellation all of it; a file that does not fail ends as the closed stream of the packets consumed, of which the pipe has a prefix, unless the pipe failed under the headers |
| `Pipeline.EraseAppend` | options.go:47-71 | removing the timer's packets distributes over concatenation |
| `Pipeline.InitKeeps` | handler.go:501-512 | the invariant holds for the freshly built chain of stages in all four configurations |
| `Pipeline.TickDelivers` | options.go:47-71 | whenever the silent option waits its timer may fire, and [252, 255, 254] can be the next packet the consumer gets, the input being left where it is |
| `Pipeline.OnlySilentTicks` | options.go:47-54 | no packet of the timer comes from anywhere else, and none while a packet is being sent |
| `Pipeline.CancelStops` | options.go:62-67 | the request may be cancelled at any moment; from then on, and only then, the consumer and every stage at a select with the context's case may return, dropping what they were to send |
| `Pipeline.NextKeeps` | options.go:37-190 | every action of every goroutine, timer and context keeps the invariant: each stage has passed on a prefix of what its input so far calls for, and all of it unless aborted |
| `Pipeline.RunKeeps` | handler.go:501-512 | the invariant holds after every run, of any length and interleaving |
| `PipelineRuns.SilenceIsTransparent` | options.go:47-71 | in every interleaving of timers, input and cancellation, what reaches the consumer without the timer's packets is a prefix of the sequential reference |
| `PipelineRuns.SilentGranule` | options.go:47-71 | in every interleaving, however the run ended, the granule reached is that of the real packets written plus 960 for each packet of the timer |
| `PipelineRuns.BytesArePrefix` | handler.go:388-492 | at any moment of any run without silent packets, cancelled or not, the bytes written are a prefix of those the sequential reference writes for any continuation of the body |
| `PipelineRuns.ClosedMeansAll` | handler.go:501-555 | in a run that is not cancelled, a closed audio channel has delivered everything the reference delivers, and besides that only packets of the timer |
| `PipelineRuns.SilenceKeepsEnd` | options.go:47-71 | the packets of the timer never end the consumer: with and without them it stops for the same reason |
| `PipelineRuns.FinishedMeansReference` | handler.go:388-492 | in a run that is not cancelled, a consumer that has returned has the reference's reason to stop and, but for the packets of the timer, the reference's packets, whatever the schedule was |
| `PipelineRuns.Wakes` | options.go:37-190 | while a stage or the consumer waits for input, some goroutine before it can act without a timer, with or without the silent option |
| `PipelineRuns.CancelWakes` | options.go:37-190 | after a cancellation the first stage that has not returned can return |
| `PipelineRuns.Progress` | handler.go:501-512 | no deadlock in any configuration, cancelled or not: unless the consumer, and after a cancellation every stage, has returned, some goroutine can act without a timer |
| `PipelineRuns.UsesUp` | options.go:37-190 | every action uses up the cancellation, a tick, a read, a pending item or a receiving stage, in a lexicographic order |
| `PipelineRuns.RunToRest` | handler.go:501-512 | under an arbitrary scheduler, with any finite number of timer ticks and a cancellation at any moment, the pipeline comes to rest: the consumer returns and, if cancelled, every stage returns and closes its channel |
| `PipelineRuns.RunToEnd` | handler.go:501-512 | without cancellation the outcome is that of the sequential reference for every schedule and any finite number of ticks, up to the packets of the timer |
| `PipelineRuns.ReaderCarriesBody` | handler.go:515-555 | the reader's channel carries all bytes of the body, in any cut, but those read together with the error, and then the error; it carries all bytes if and only if there are none of those |
| `PipelineRuns.AllBytesIsAll` | handler.go:531-540 | the bytes of a body are the data of all its reads, the failing one included |
| `PipelineRuns.ReaderItems` | handler.go:531-551 | every packet of the reader is the data of one read and none is empty; an error is the last item |
| `PipelineRuns.FramesCutShort` | handler.go:532-540 | a byte string of frames without its last bytes parses to a prefix of the frames; to all of them if and only if no more is missing than the incomplete frame at the end |
| `PipelineRuns.ConsumesPackets` | handler.go:425-488 | over packets followed by an error the consumer writes those up to the first that is empty or unreadable, and stops there or at the error |
| `PipelineRuns.StreamReadsBack` | handler.go:388-492 | the stream of the first n packets reads back as the stream of all of them if and only if none is missing and each fits into a page |
| `PipelineRuns.BodyToStream` | handler.go:388-492 | for every body, well formed or not, in every cut: of all its bytes but those read with the error, the packets up to the first unwritable one come out as a stream that parses to OpusHead, OpusTags and exactly those payloads if and only if each has at most 65024 bytes; before a first packet nothing is written |
| `PipelineRuns.EndToEnd` | handler.go:388-492 | a body of framed, readable packets, in any cut, gives a stream that parses to the two headers and exactly those packets in order if and only if each has at most 65024 bytes and the bytes read together with the end belong to the incomplete frame; no frames give no bytes |
| `Goroutines.NewPacketReaderOptions` | options.go:23-34 | the list follows the two switches, and the header option always comes before the silent option |
| `Goroutines.ReadPacket` | handler.go:515-555 | the reader's loop emits one item for each read with data and stops at the first error; cancellation leaves a prefix |
| `Goroutines.SilentRunErases` | options.go:47-71 | for any choice of the selects, the silent option's output without its own packets is its input |
| `Goroutines.EveryInterleaving` | options.go:47-71 | every interleaving of the input with packets of the timer, at any places and in any number, is what the option emits for some choice of the selects |
| `Goroutines.SilentPackets` | options.go:37-75 | the loop emits what the selects' choices call for; cancellation leaves a prefix |
| `Goroutines.ReceiveFirstAudioData` | handler.go:598-611 | empty reads are skipped; the first read with data, or the first error, decides |
| `Goroutines.RunInSequence` | handler.go:501-512 | reader, header option and consumer run one after the other give what every schedule of the concurrent pipeline gives, to the pipe and to the Ogg file |
| `Transcribe.Rejection` | amazon_transcribe_v2.go:135-160 | an HTTP error, and nothing else, becomes a service error with its status, to be retried exactly for 429; an operation error, and nothing else, becomes a configuration error; any other error is passed on with its class |
| `Transcribe.Start` | amazon_transcribe_v2.go:115-227 | a stream is asked for if and only if the pipe delivers audio; the service then receives a prefix of the pipe's bytes in non-empty pieces, and all of them when no send fails and nothing is cancelled |
| `Transcribe.Handle` | amazon_transcribe_v2_handler.go:124-138 | one attempt from its audio stream to its result: without audio no stream is asked for and the end or error of the audio is reported; a failed first send is passed on with its class; the counter is reset exactly when a stream has been opened and has taken the first audio |
| `Speech.ServiceHandler.UpdateRetryCount` | amazon_transcribe_v2_handler.go:85-90 | the counter goes up by one and its new value is returned |
| `Speech.ServiceHandler.GetRetryCount` | amazon_transcribe_v2_handler.go:92-94 | the counter's value is returned |
| `Speech.ServiceHandler.ResetRetryCount` | amazon_transcribe_v2_handler.go:96-101 | the counter is set to zero |
| `Speech.ServiceHandler.Handle` | amazon_transcribe_v2_handler.go:124-138 | a success, and nothing else, resets the counter of a handler that resets |
| `Speech.HandleSpeech` | handler.go:133-385 | the nested retry, wait and read loops go through exactly the states of the state machine, for every sequence of events |
| `SpeechRuns.ServiceErrors` | handler.go:164-211 | in every reachable state: a service error is retried if and only if it is marked retryable and the count is below MaxRetry; otherwise the request ends with its code, or with 500 outside 100 to 999 |
| `SpeechRuns.HandleAnswers` | handler.go:146-243 | in every reachable state: a reader starts the reading and resets the count; end and cancellation answer 200; a configuration error, and nothing else, sends a message |
| `SpeechRuns.WaitEvents` | handler.go:172-196 | in every reachable wait: a packet is dropped and the wait goes on, a closed channel ends the request, the timer ends the wait |
| `SpeechRuns.ReadEvents` | handler.go:247-382 | in every reachable state of reading: what each outcome of a read sends, records and leads to; a message goes out exactly for a disconnect that is not retried and for other errors |
| `SpeechRuns.RetryBound` | handler.go:135-197 | with a handler that resets, a run with S successes makes at most (S + 1) * max(0, MaxRetry) + 1 calls of Handle, and the counter stays within 0 and max(0, MaxRetry) |
| `SpeechRuns.UnguardedBound` | handler.go:180 | with the close as written, every call of Handle but the first follows a success, so S successes allow at most S + 1 calls |
| `SpeechRuns.RetryBoundReached` | handler.go:135-197 | for every MaxRetry of at least 1 and every number of successes the bound is reached: the first with the intended close, S + 1 with the close as written |
| `SpeechRuns.PanicReached` | handler.go:165-182 | the input that fails: with the close as written and MaxRetry at least 1, one refused connection and the timer after it end in a panic |
| `SpeechRuns.PanicsExactly` | handler.go:165-182 | some run panics if and only if the close is as written and MaxRetry is at least 1 |
| `SpeechRuns.WaitPanics` | handler.go:172-182 | in every reachable wait the timer leads to the next attempt with the intended close, and to a panic with the close as written, the announced attempt never being made |
| `SpeechRuns.RetryNeedsGuard` | handler.go:172-182 | from the wait after a failed connection another attempt can follow if and only if the close is guarded |
| `SpeechRuns.ReconnectAlwaysContinues` | handler.go:262-308 | with a handler that resets, in every reachable state a disconnect by the service starts another attempt if and only if MaxRetry is at least 1 |
| `SpeechRuns.GivingUp` | handler.go:307-336 | the branch that gives up is reachable if and only if the handler does not reset and MaxRetry is at least 1 |
| `SpeechRuns.ClientOutput` | handler.go:214-382 | in every run the client gets the bytes read from each attempt, in the order of the attempts, then at most one error message, after which nothing is written and no attempt starts |
| `Attempts.NextKeeps` | handler.go:135-243 | every interleaved action of the handler, of old and new attempts and of the service keeps the invariant on what has been received, written and read |
| `AttemptRuns.RetryCancels` | handler.go:181-182 | in every reachable state each attempt but the last is cancelled: its goroutine may return at once, and its pipe may be closed under it |
| `AttemptRuns.HandlerFollowsService` | handler.go:146-172 | results are read of an accepted connection and a retry is waited for after a refused one, always of the last attempt |
| `AttemptRuns.WhoMayAct` | handler.go:135-243 | in every reachable state: a new attempt starts only between attempts, packets are dropped only while waiting to retry, a connection is asked for only after audio |
| `AttemptRuns.CrashExactly` | oggwriter_ext.go:7-18 | the program crashes on a packet too short for its own first byte and on nothing else |
| `AttemptRuns.CrashEndsAll` | oggwriter_ext.go:7-18 | after a crash nothing happens any more |
| `AttemptRuns.ServiceFromRun` | amazon_transcribe_v2.go:118-160 | over any run: a connection is open, refused or never asked for exactly according to the answers and failures in that run |
| `AttemptRuns.ReadDelivers` | amazon_transcribe_v2.go:187-224 | a read of n bytes, at most 10240, delivers the next n bytes of the attempt's own stream; the first one lets the connection be opened |
| `AttemptRuns.Returns` | handler.go:460-468 | at a closed channel, a finished context and a closed pipe the consumer returns and keeps what has been read |
| `AttemptRuns.ReturnedForGood` | handler.go:460-488 | a consumer that has returned receives and writes nothing more, in any run |
| `AttemptRuns.ClosedForGood` | handler.go:464-468 | after the channel is closed nothing is received from it, by anyone, in any run |
| `AttemptRuns.NothingIdle` | handler.go:135-243 | every action changes the state |
| `AttemptRuns.AnyoneMayReceive` | handler.go:460-465 | any waiting consumer may take the next packet, cancelled or not, whatever the handler is doing |
| `AttemptRuns.LossHappens` | handler.go:460-465 | a run in which a packet is lost for the new attempt: the service drops the first connection, the next attempt has started, and the cancelled one takes the packet |
| `Attempts.ReceivedExactlyOnce` | handler.go:172-187 | every packet received from the shared channel is received exactly once, by one attempt or by the drain of a retry wait |
| `Attempts.AttemptsDisjoint` | handler.go:460-465 | attempts use disjoint positions of the channel, and none that was drained, also while an old attempt is still receiving |
| `Attempts.PagesInOrder` | handler.go:423-488 | the audio pages of an attempt are those of an increasing selection of positions, all received by it, missing at most its last one |
| `Attempts.PutGrows` | handler.go:446-455 | what an attempt hands to its pipe for a packet, headers first, is exactly what its own stream grows by |
| `Attempts.OwnStream` | handler.go:423-488 | in every interleaving and down to the byte, with reads that end anywhere: what has been read from an attempt's pipe is a prefix of the stream its consumer alone writes for the packets this attempt received, two headers and the granule starting at 1 again; with the writes still to be read it is all of it until the consumer returns, and all has been read whenever it receives; pages counted as read are there to the end |
| `AttemptFrames.PipelineFromBody` | options.go:37-190 | in every reachable state of the pipeline, what has passed into the shared channel is, but for packets of the timer, a prefix of what the body calls for |
| `AttemptFrames.EveryPageIsAFrame` | handler.go:423-488 | in every interleaving of attempts, each audio page is a packet of the timer or carries the payload of the frame of the body at its place |
| `AttemptFrames.EveryFrameOnce` | handler.go:423-488 | no frame of the body becomes a page twice, neither in two attempts, however they overlap, nor in one; within an attempt pages are in the order of the frames |
| `Attempts.NoConnectionWithoutAudio` | amazon_transcribe_v2.go:118-134 | in every run each connection is preceded by an error-free, non-empty packet received by the same attempt; there are never more connections than packets received |

## Left out

- OggWriter.Record: creating the file and its errors are not modelled; the packets are those `Write` can read.
- OggWriter.RecordRtp: a nil packet, which `WriteRTP` refuses, does not occur in a recording.
- OggWriter.OggWriter.Write: a payload too short for its own TOC byte is excluded here and is a crash in `Opus2Ogg.Put`, where the caller passes it on.
- OggPage.CorruptionDetected: damage that touches the checksum field itself is not covered.
- Opus2Ogg.Run: for one attempt with a file of its own. Every attempt of a connection creates the same path (`handler.go:398-402`), so a later one truncates the file while an earlier goroutine may still write to it; the result holds if no later attempt creates the file before this one has closed its writer. After a crash the deferred `Close` is not modelled; the process ends.
- Attempts.NextKeeps: the machine allows more than the program does (a request may finish and the channel may close at any time), so its results hold for every run of the program; the writes of one packet are handed to the pipe together and read one after the other.
- Attempts.PagesInOrder: says nothing about loss or order across attempts, because a previous attempt may still be receiving.
- AttemptFrames.EveryPageIsAFrame: takes it that the channel delivers what the pipeline passes on, as `AttemptFrames.PipelineFromBody` shows for the pipeline with one consumer.
- Speech.HandleSpeech: the service handler is an environment that answers each call; status lines, headers and the JSON of the error message are reduced to one constructor each, and marshalling never fails.
- Speech.ServiceHandler.Handle: the outcome is a parameter here; `Transcribe.Handle` derives it for AWS.
- Speech.ServiceHandler.UpdateRetryCount: without the mutex; one goroutine uses the counter.
- Goroutines.SilentPackets: the waiting time and the reset of the timer are not modelled; any choice at any select is allowed.
- Transcribe.Start: creating the client is part of the answer of the service; that the buffer of the forwarding loop is reused between sends is not modelled.
- Pipeline.NextKeeps: the write to the pipe is one step with the receipt of the packet; the wait for the pipe's reader, and reads of parts of a page, are in `Attempts`.
- PipelineRuns.RunToRest: for finitely many ticks; with a timer that fires forever the silent option goes on forever.
- HTTP/2, TLS, routing, metrics, logging and configuration.
- The SDK calls and event loops of AWS and GCP, retry targets by error text, `buildMessageV2` and the content filters.
- The GCP, packet dump and test handlers; the GCP handler resets its counter on success too (`speech_to_text_handler.go:138`).
- Random serial numbers and the choice of file names.
