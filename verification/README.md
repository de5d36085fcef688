# Verification of the Moonlight sidecar

Dafny models of five parts of the Moonlight streaming sidecar, with proofs about every input, every
host and every interleaving:

- **Hashing** (`Fips180`, `FipsConstants`, `Sha256Stream`, on `Words32` and `Bytes`). `Fips180` is SHA-256 as FIPS 180-4
  states it, on whole messages: the functions of section 4.1.2, the constants of 4.2.2 and 5.3.3, the
  padding of 5.1.1, the parsing of 5.2.1 and the computation of 6.2.2. `FipsConstants` proves that the
  constants are the fractions of the roots of the first primes. `Sha256Stream` is the packaging
  tool's streaming hasher, with its arrays, its partial buffer and its loops, proved to compute that.
  Words are integers below 2^32; the bit lemmas of `Words32` say that `Xor`, `And`, `Not`, the shift and
  the rotation are the bitwise operations.
- **One session** (`Session`, `SessionSafety`, `SessionTheorems`, `SessionStory`, `SessionRuns`,
  `SessionFailures`, `World`, `Worker`, `Callbacks`, `DecodeUnits`). A transition system: the worker thread, a thread calling `close`, and the C core's callbacks share the stop flag, the
  termination flag, the negotiated format, the global video sink and the channel. One atomic access is
  one step, the outcome of every network or FFI call is free, a panic can happen before any step of
  `run_moonlight` or right after its effect. The theorems quantify over every run and every position in it; `SessionStory`
  says what a run tells, event by event, and why it ended as it did, without the worker's control flow. `Worker` is
  `run_moonlight` and its wrapper as a structured program, with the other actors free to act before each
  statement and a panic free to unwind it; `Callbacks` is `dr_submit` and `close` in the same way. Each is
  proved to make a run of that system, so the theorems hold of it.
- **The wire** (`Framing`, `Proto`, `LockedWriter`, `EndToEnd`, `EndToEndExample`). The message format as two functions,
  the reader and writer proved against them, any number of threads on one locked writer, and the whole
  way from the decode callback to what the host reads.
- **Pairing** (`Text`, `AppList`, `Pairing`, `PairingInSession`). The hex and tag codecs on strings, the app list, and the
  four-phase handshake. The cryptographic primitives are parameters; only the laws in
  `Pairing.Laws` and `Pairing.KeyPair` are used, and only by the theorem about honest hosts. A host is
  any function from the requests so far to a reply. `PairingInSession` says what the handshake's outcome makes
  of the session's prompt.
- **The dispatcher and the pointer** (`Dispatcher`, `Pointer`). The sidecar's main loop with its map of
  sessions, and the differ that turns button masks into presses and releases.

## What the code does that its comments do not say

- `read_message` says that no message means the host closed the pipe cleanly. One to three stray bytes
  before the end of the file also count as clean (`Framing.TruncatedStream`, `Framing.CleanCloseIff`).
- `raw` caps messages at 32 MiB, but narrows the length to 32 bits first. A payload of 2^32 bytes or more
  whose low 32 bits are small passes and desynchronises the reader. `Framing.AcceptedReadsBackIff` is the
  exact condition for one message, `Framing.StreamReadsBackIff` for a stream, and
  `LockedWriter.HostReadsFinishedMessages` for the shared output at any instant.
- `from_hex` accepts a `+` at the start of a pair (`Text.PlusReadsAsHex`). It slices by bytes, so it
  unwinds on input whose first byte pair that is not hex digits cannot be sliced off; `Text.FromHexExactly`
  says exactly when it succeeds, fails and unwinds, and `Text.EuroUnwinds` is an instance. So a host can
  make `pair` unwind instead of returning: `Pairing.HandshakeUnwindsIff` says exactly when,
  `Pairing.BreakingHostExists` gives such a host, and `Pairing.AsciiHostNeverUnwinds` excludes all that
  answer in ASCII.
- `on_pair_finished` is documented to always follow `on_pair_prompt`. It does if and only if the worker
  does not panic between the two (`SessionTheorems.SettledIffPromptNotLost`);
  `SessionFailures.PanicLeavesPromptOpen` is a run that does, and
  `PairingInSession.PromptOpenIffReplyBreaks` says which hosts bring it about.
- Every exit the session initiates is meant to cancel a launched session. A panic before the cancel skips it:
  `SessionTheorems.EveryLaunchIsReleased` says that a launch is released if and only if the worker left
  neither by such a panic nor by the host's termination, and `SessionFailures.PanicLeavesHostBusy` is a run.
- `start_stream` installs the sink before it looks for NULs, and returns early without removing it.
  `SessionFailures.CleansUpIffNoNul` says that this is the only way to leave the sink behind without a
  panic; after one, `SessionTheorems.SinkAfterPanic` says what is left.
- `close` on a map entry is followed by the engine's `Drop`, which closes it again; `Dispatcher.Finish`
  counts both.

## Model

| member | source | states |
|---|---|---|
| Sha256Stream.Sha256.constructor | crates/xtask/src/main.rs:233-243 | a new hasher is the hasher that has absorbed nothing: initial hash value of section 5.3.3, zero buffer |
| Sha256Stream.Sha256.Update | crates/xtask/src/main.rs:245-258 | `update` absorbs exactly the bytes given: every field stays the function of all bytes absorbed that `Valid` fixes, the stale tail of the buffer included, with fewer than 64 bytes pending |
| Sha256Stream.Sha256.Absorb | crates/xtask/src/main.rs:247-257 | one turn of the loop keeps the object a function of the bytes absorbed, with a compression exactly when the buffer fills |
| Sha256Stream.Sha256.CopyIn | crates/xtask/src/main.rs:248-249 | the copy leaves the image of the longer message in the buffer |
| Sha256Stream.Sha256.CompressBlock | crates/xtask/src/main.rs:274-316 | `compress`, in place, is one step of section 6.2.2 on the hash value in `state` |
| Sha256Stream.Sha256.LoadBlock | crates/xtask/src/main.rs:275-283 | the first 16 schedule words are the block's words, big-endian, of section 5.2.1 |
| Sha256Stream.Sha256.ExpandSchedule | crates/xtask/src/main.rs:284-291 | the loop fills in the message schedule of section 6.2.2 step 1 |
| Sha256Stream.Sha256.RunRounds | crates/xtask/src/main.rs:292-312 | the 64 in-place rounds are the recurrence of section 6.2.2 step 3 |
| Sha256Stream.Sha256.RoundStep | crates/xtask/src/main.rs:294-311 | the sequential assignments of one round are the standard's simultaneous ones |
| Sha256Stream.Sha256.AddToState | crates/xtask/src/main.rs:313-315 | the last loop is section 6.2.2 step 4 |
| Sha256Stream.Sha256.PadToLengthField | crates/xtask/src/main.rs:262-265 | the zero loop, driven by the buffer index, ends, and has appended 0x80 and the standard's number of zero bytes |
| Sha256Stream.Sha256.StateBytes | crates/xtask/src/main.rs:267-271 | the output loop writes the hash value big-endian |
| Sha256Stream.Sha256.Finish | crates/xtask/src/main.rs:260-272 | the digest is the standard's for the padded message, after exactly (len + 8) / 64 + 1 compressions in all, with an empty buffer at the end |
| Sha256Stream.Sha256Hex | crates/xtask/src/main.rs:198-210 | however the reads cut the file up, it fails exactly if a read fails, and otherwise the result consists of lower-case hex digits and reads back, as hex, as FIPS 180-4's digest of the whole file, for files below 2^61 bytes |
| Text.ToLowerHexAt | crates/xtask/src/main.rs:209-209 | characters 2i and 2i + 1 of the printed digest are the digits, in 0-9a-f, of the high and the low half of byte i |
| Text.LowerHexRoundTrip | crates/xtask/src/main.rs:209-209 | the printed digest reads back as the bytes it prints |
| Sha256Stream.ChunkIndependence | crates/xtask/src/main.rs:245-258 | two hashers that absorbed the same bytes, cut up in any two ways, agree in `state`, all of `buf`, `buffered` and `len` |
| Sha256Stream.DigestIsStandard | crates/xtask/src/main.rs:260-316 | the digest with the object's compression function is the digest of section 6.2 |
| Sha256Stream.ScheduleSum | crates/xtask/src/main.rs:287-290 | the code's order of the four wrapping additions and the standard's give the same word |
| Fips180.PaddingIsLeast | crates/xtask/src/main.rs:262-265 | the number of zero bytes is section 5.1.1's least solution of l + 1 + k = 448 mod 512 |
| Fips180.PaddedLength | crates/xtask/src/main.rs:260-266 | the padded message is (len + 8) / 64 + 1 whole blocks |
| Fips180.PaddingInjective | crates/xtask/src/main.rs:260-266 | two messages with the same padded bytes are the same message |
| Fips180.WordsBytesInverse | crates/xtask/src/main.rs:267-271 | no information of the hash value is lost in the output bytes |
| Fips180.ChBit | crates/xtask/src/main.rs:295-295 | Ch, bit by bit: the first word chooses between the other two |
| Fips180.MajBit | crates/xtask/src/main.rs:301-301 | Maj, bit by bit: the majority |
| Fips180.BigSigmaBits | crates/xtask/src/main.rs:294-300 | the two large sums, bit by bit: the parity of the bits 2, 13 and 22, or 6, 11 and 25, around the word |
| Fips180.SmallSigmaBits | crates/xtask/src/main.rs:285-286 | the two small sums, bit by bit: the parity of two rotated bits and a shifted one |
| Fips180.ScheduleByIndex | crates/xtask/src/main.rs:275-291 | the schedule by index, with the recurrence of section 6.2.2 in plain addition modulo 2^32 |
| Fips180.CompressByRounds | crates/xtask/src/main.rs:274-316 | one block, by the working variables before each of the 64 rounds and after the last: every round in plain sums modulo 2^32 with its constant and schedule word, and the sums of step 4 |
| Fips180.DigestByBlocks | crates/xtask/src/main.rs:245-272 | the digest by the hash values between the blocks of the padded message, each made from the one before and its block, starting from the initial one |
| Fips180.DigestBytes | crates/xtask/src/main.rs:267-271 | the four bytes of each word of the digest, most significant first |
| Fips180.PaddedBytes | crates/xtask/src/main.rs:260-266 | the padded message byte by byte: message, 0x80, zeros, and eight bytes that read, most significant first, as the length in bits |
| FipsConstants.ConstantsAreCubeRoots | crates/xtask/src/main.rs:221-230 | the i-th of the 64 constants is the first 32 bits of the fraction of the cube root of the i-th prime |
| FipsConstants.InitialValueIsSquareRoots | crates/xtask/src/main.rs:235-238 | the i-th initial word is that of the square root of the i-th prime |
| Words32.XorBit | crates/xtask/src/main.rs:285-301 | `^` bit by bit |
| Words32.AndBit | crates/xtask/src/main.rs:295-301 | `&` bit by bit |
| Words32.NotBit | crates/xtask/src/main.rs:295-295 | `!` bit by bit |
| Words32.RotateBit | crates/xtask/src/main.rs:285-301 | `rotate_right(n)` moves bit i + n (mod 32) to bit i |
| Words32.ShiftBit | crates/xtask/src/main.rs:285-286 | `>> n` moves bit i + n to bit i and fills with zeros |
| Text.FindIsFirst | crates/moonlight-core/src/nvhttp.rs:487-488 | the search finds the first occurrence, and nothing only when there is none |
| Text.XmlTagReads | crates/moonlight-core/src/nvhttp.rs:484-490 | an element whose tags do not occur earlier is read back exactly, whatever surrounds it |
| Text.XmlTagNeedsBoth | crates/moonlight-core/src/nvhttp.rs:487-488 | nothing is read unless both the opening and the closing tag occur |
| Text.TrimExact | crates/moonlight-core/src/nvhttp.rs:126-128 | `trim` takes away white space at both ends, all of it, and nothing else |
| Text.HexRoundTrip | crates/moonlight-core/src/nvhttp.rs:469-482 | from_hex(to_hex(b)) = b for every byte string |
| Text.HexAlphabets | crates/moonlight-core/src/nvhttp.rs:469-480 | both renderings of a digit and its reading, against the two alphabets 0-9A-F and 0-9a-f |
| Text.FromHexExactly | crates/moonlight-core/src/nvhttp.rs:473-482 | on every string: an odd byte length is refused; accepted exactly when every pair is readable; unwinds exactly when, after some readable pairs, the next two bytes do not end on a character boundary; printing back gives the upper-cased input exactly when no pair starts with `+` |
| Text.EuroUnwinds | crates/moonlight-core/src/nvhttp.rs:480-480 | a three-byte character and a letter make the slice unwind |
| Text.AsciiNeverUnwinds | crates/moonlight-core/src/nvhttp.rs:473-482 | no ASCII input unwinds |
| Text.HexDigitsPrintBack | crates/moonlight-core/src/nvhttp.rs:469-482 | an even number of hex digits is accepted and prints back in upper case |
| Text.PlusReadsAsHex | crates/moonlight-core/src/nvhttp.rs:480-480 | `+5` reads as the byte 5, which prints as `05` |
| AppList.BlocksOfJoin | crates/moonlight-core/src/nvhttp.rs:122-124 | splitting recovers every block of a body, after any prefix without the separator |
| AppList.BlocksAreIndependent | crates/moonlight-core/src/nvhttp.rs:122-129 | a block contributes its app or nothing, and never changes what the blocks around it parse to |
| AppList.BlockReads | crates/moonlight-core/src/nvhttp.rs:126-128 | a block with a title and an id element, and anything else around them, parses to that app |
| AppList.ParseU32Exactly | crates/moonlight-core/src/nvhttp.rs:127-127 | `parse::<u32>` accepts exactly an optional `+` and decimal digits with a value below 2^32, and gives that value |
| AppList.BlockExactly | crates/moonlight-core/src/nvhttp.rs:126-128 | a block gives an app if and only if it has that title and an id element whose trimmed text is that number |
| AppList.BlockGivesNone | crates/moonlight-core/src/nvhttp.rs:126-128 | a block without either tag of the title or the id, or with an unreadable id, gives nothing |
| AppList.AppListRoundTrip | crates/moonlight-core/src/nvhttp.rs:122-130 | any list of apps (title without `<`, 32-bit id) rendered after any prefix parses back to the same list in order |
| AppList.AppListTextRoundTrip | crates/moonlight-core/src/nvhttp.rs:122-130 | the same written out in the characters of the markup |
| Pairing.DecryptInverse | crates/moonlight-core/src/nvhttp.rs:445-454 | ECB without padding refuses exactly unaligned data, keeps lengths, and decryption undoes it |
| Pairing.EcbAt | crates/moonlight-core/src/nvhttp.rs:445-454 | each 16-byte block of the result is the cipher of the block at the same place, and of nothing else |
| Pairing.ReplyNeeds200 | crates/moonlight-core/src/nvhttp.rs:311-315 | a reply gets through exactly if its body holds status_code="200", unchanged |
| Pairing.PairingClient.Pair | crates/moonlight-core/src/nvhttp.rs:320-424 | `pair`, statement by statement, sends the requests and returns the outcome of the handshake function the theorems are about, for every host |
| Pairing.RequestsInOrder | crates/moonlight-core/src/nvhttp.rs:320-424 | against any host the requests sent are a prefix of the four phases, in order |
| Pairing.SecretOnlyAfterProof | crates/moonlight-core/src/nvhttp.rs:376-415 | against any host the client's secret goes out only after the three replies, written out, prove the host: the decrypted response is the hash of challenge, certificate signature and server secret, and the certificate in the first reply verifies that secret's signature |
| Pairing.SuccessNeedsBothEnds | crates/moonlight-core/src/nvhttp.rs:331-423 | success means four requests; the trimmed text of the element `paired` is "1" in the first reply whenever four requests went out, and with all four sent, success is exactly that it is "1" in the last |
| Pairing.HandshakeUnwindsIff | crates/moonlight-core/src/nvhttp.rs:320-424 | against any host, `pair` unwinds if and only if the last reply carries, in the field its phase reads, hex that unwinds the decoder |
| Pairing.AsciiHostNeverUnwinds | crates/moonlight-core/src/nvhttp.rs:320-424 | no host that answers in ASCII makes any client unwind |
| Pairing.BreakingHostExists | crates/moonlight-core/src/nvhttp.rs:331-336 | some host makes every client unwind in phase 1 |
| Pairing.HonestHostPairs | crates/moonlight-core/src/nvhttp.rs:320-424 | a host that follows the protocol with the same PIN always brings `pair` to success, through hex, tags, ECB and slicing |
| Pairing.HonestHostRefuses | crates/moonlight-core/src/nvhttp.rs:420-422 | a host that follows the protocol but does not accept the client's proof brings `pair` to an error |
| Pairing.KeysAgree | crates/moonlight-core/src/nvhttp.rs:321-329 | the host derives the client's key from the salt it receives in hex and the same PIN |
| Pairing.HonestHostExists | crates/moonlight-core/src/nvhttp.rs:320-424 | every server has an honest host, so the completeness theorem is about something |
| Pairing.LawsAreConsistent | crates/moonlight-core/src/nvhttp.rs:440-454 | the laws assumed of the primitives can be met |
| Framing.DecodeEncode | crates/moonlight-addon/src/proto.rs:193-212 | a message that fits is read back and the reader stops right behind it |
| Framing.EncodeDecode | crates/moonlight-addon/src/proto.rs:193-212 | whatever is read was consumed as 4 + len >= 5 bytes and `raw` writes those same bytes for it |
| Framing.EncodedBytes | crates/moonlight-addon/src/proto.rs:268-274 | the bytes of a message, one by one: the length n + 1 least significant byte first, the kind, the payload |
| Framing.AcceptedInBytes | crates/moonlight-addon/src/proto.rs:262-267 | what the cap lets through, in numbers: a payload whose length modulo 2^32 is at most 33 554 431 |
| Framing.AcceptedReadsBackIff | crates/moonlight-addon/src/proto.rs:261-276 | an accepted message is framed faithfully if and only if its payload is shorter than 2^32 bytes |
| Framing.NarrowingDesynchronises | crates/moonlight-addon/src/proto.rs:262-264 | beyond 2^32 the reader gets a shorter payload and is left inside the real one |
| Framing.StreamReadsBackIff | crates/moonlight-addon/src/proto.rs:193-276 | what the writer accepts is read back message by message if and only if every payload is shorter than 2^32 bytes |
| Framing.TruncatedStream | crates/moonlight-addon/src/proto.rs:193-212 | a stream cut anywhere yields exactly the messages wholly before the cut, then a clean close if at most three bytes are left over, else an error |
| Framing.WholeBeforeIsLargest | crates/moonlight-addon/src/proto.rs:193-212 | "wholly before the cut" is the largest number of messages whose bytes the cut leaves whole |
| Framing.StreamRoundTrip | crates/moonlight-addon/src/proto.rs:193-276 | any messages that fit are read back in order, then a clean close |
| Framing.EncodingInjective | crates/moonlight-addon/src/proto.rs:261-276 | two message sequences with the same bytes are the same |
| Framing.CleanStreamIsEncoding | crates/moonlight-addon/src/proto.rs:193-212 | every stream read to a clean close is the encoding of what was read, plus at most three stray bytes |
| Framing.CleanCloseIff | crates/moonlight-addon/src/proto.rs:193-212 | a stream closes cleanly on given messages if and only if it is their encoding and at most three stray bytes |
| Framing.CutMessageIff | crates/moonlight-addon/src/proto.rs:193-276 | the first bytes of an accepted message give the message when they are all of it and nothing before, if and only if its payload is shorter than 2^32 bytes or they fall short of what the length field announces |
| Framing.ControlsInOrder | crates/moonlight-addon/src/main.rs:112-128 | repeated `read_control` yields exactly the CONTROL payloads in order, skipping other kinds |
| Framing.NextControlExactly | crates/moonlight-addon/src/main.rs:112-128 | one `read_control`, by what the whole stream holds: its first payload of kind 1 with the rest of them still to come, a clean end, or an error |
| Proto.ReadMessage | crates/moonlight-addon/src/proto.rs:193-212 | the reader, read by read, is the decoding function: message, clean close or error, and where it leaves the stream |
| Proto.ReadControl | crates/moonlight-addon/src/main.rs:112-128 | the loop ends on every stream and returns the next control payload, having consumed at least one message |
| Proto.Writer.Raw | crates/moonlight-addon/src/proto.rs:261-276 | success writes exactly the encoding; a message over the cap writes nothing; an error is reported exactly if a write or the flush failed, and leaves a prefix of the encoding |
| Proto.Writer.WriteFrame | crates/moonlight-addon/src/proto.rs:237-259 | the field by field buffer is the 26-byte header and the data, sent as one FRAME message or refused whole |
| Proto.FrameRoundTrip | crates/moonlight-addon/src/proto.rs:249-257 | the message is of kind 2, and every header field, read at the protocol's offsets, the key flag and the data come back |
| Proto.FrameBytes | crates/moonlight-addon/src/proto.rs:249-257 | which bytes a frame is, absolutely: session and frame id, codec, key flag as 0 or 1, the eight shorts, each least significant byte first at its offset, and the data from byte 26 on |
| Proto.FrameFitsIff | crates/moonlight-addon/src/proto.rs:261-267 | a frame fits exactly when its data is at most 32 MiB - 27 bytes; the writer accepts exactly the frames that fit if and only if the narrowing cast does not let a longer one through, which takes 2^32 - 26 bytes or more |
| LockedWriter.OutputIsWholeMessages | crates/moonlight-addon/src/proto.rs:220-276 | for any threads: whenever the lock is free the output is whole messages in the order the lock was taken, each thread's in its program order |
| LockedWriter.HostReadsFinishedMessages | crates/moonlight-addon/src/proto.rs:214-276 | at every instant, inside a message too, the host reads exactly the messages whose last byte is out, if and only if no payload sent, and none in hand that already shows, is one that the narrowing cast distorts |
| LockedWriter.UndistortedStaysIntact | crates/moonlight-addon/src/proto.rs:261-276 | if no program holds such a payload, none ever shows |
| LockedWriter.RunKeepsInv | crates/moonlight-addon/src/proto.rs:261-276 | at every step the output is the finished messages and the written part of the one in hand |
| LockedWriter.NeverStuck | crates/moonlight-addon/src/proto.rs:268-276 | while a thread has a message left, some thread can step |
| DecodeUnits.Walk | crates/moonlight-core/src/stream.rs:195-206 | the walk along the pointers ends and has concatenated every contribution in list order |
| Callbacks.DrSubmit | crates/moonlight-core/src/stream.rs:189-224 | with the other actors in between, the callback adds one unit to the run: the list's concatenation, the key flag, the codec of the format stored when it was read, let through exactly if the sink is installed when its lock is taken; a null unit adds none |
| Callbacks.Close | crates/moonlight-core/src/session.rs:184-187 | with the other actors in between, `close` clears the sink, and stop is set when it returns |
| SessionTheorems.FormatIsLastSet | crates/moonlight-core/src/stream.rs:166-177 | in every run the negotiated format is what the last `dr_setup` stored; nothing else changes it |
| SessionTheorems.TerminatedIffSinceReset | crates/moonlight-core/src/stream.rs:257-260 | in every run the termination flag is set if and only if the callback has come since `start_stream` last reset it |
| DecodeUnits.ConcatenationSplits | crates/moonlight-core/src/stream.rs:195-206 | splitting the list anywhere splits the bytes there: nothing lost, added or reordered |
| DecodeUnits.ConcatenationLength | crates/moonlight-core/src/stream.rs:195-206 | the unit is as long as the entries that have data and a positive length together |
| DecodeUnits.ConcatenationAt | crates/moonlight-core/src/stream.rs:195-206 | byte j of entry i is the unit's byte at the entry's offset plus j |
| DecodeUnits.HevcIsBit8 | crates/moonlight-core/src/stream.rs:208-212 | the codec is HEVC if and only if bit 8 of the 32-bit format is set |
| SessionSafety.RunKeepsInv | crates/moonlight-core/src/session.rs:93-342 | every state of every run meets the invariants on requests and callbacks, event order, prompts, sink, frames in flight and clean ends |
| SessionSafety.CountsStep | crates/moonlight-core/src/session.rs:262-341 | every step of every actor keeps launches, cancels, ready and closed as the worker's position and its way out require |
| SessionSafety.PromptsStep | crates/moonlight-core/src/session.rs:228-248 | every step keeps prompts and their ends side by side |
| SessionSafety.SinkStep | crates/moonlight-core/src/stream.rs:65-157 | every step keeps the sink as the worker's position and the last `close` require |
| SessionSafety.FifoStep | crates/moonlight-core/src/session.rs:305-338 | every step keeps the units admitted equal to those delivered, in hand and queued, in order |
| SessionTheorems.ClosedOnceAndLast | crates/moonlight-core/src/session.rs:91-116 | `on_closed` happens exactly once, last, when the worker ends, and tells a panic from the rest |
| SessionTheorems.ReadyBeforeFrames | crates/moonlight-core/src/session.rs:302-334 | `on_ready` at most once, after the launch, before any frame |
| SessionTheorems.PairingSettledFirst | crates/moonlight-core/src/session.rs:228-248 | in every run that does not panic between the prompt and its end, each prompt is followed at once by exactly one end, no end comes without a prompt, and a refusal is followed by nothing but `on_closed` |
| SessionTheorems.SettledIffPromptNotLost | crates/moonlight-core/src/session.rs:228-248 | a finished session has settled its pairing in that way if and only if it did not panic between the prompt and its end |
| SessionTheorems.PromptLeftIff | crates/moonlight-core/src/session.rs:93-115 | the prompt is right before the end of the trace if and only if the worker panicked in the pairing call or as the prompt's callback returned |
| PairingInSession.PromptOpenIffReplyBreaks | crates/moonlight-core/src/session.rs:228-248 | a finished session that prompted leaves its prompt open if and only if the host's last reply breaks the hex decoder or the prompt's own callback unwinds |
| PairingInSession.AsciiHostSettlesPrompt | crates/moonlight-core/src/session.rs:228-248 | with a host that answers in ASCII, only the prompt's own callback can leave it open |
| PairingInSession.FinishedTellsOutcome | crates/moonlight-core/src/session.rs:238-247 | `on_pair_finished` tells how the handshake came out, and is not called when it unwinds |
| PairingInSession.HonestHostIsNeverRefused | crates/moonlight-core/src/session.rs:228-248 | a session whose host is honest and has the PIN never reports a refusal |
| SessionFailures.PanicLeavesPromptOpen | crates/moonlight-core/src/session.rs:93-115 | a run, given by its whole trace, that ends with the prompt open |
| SessionTheorems.CancelNeedsLaunch | crates/moonlight-core/src/session.rs:262-341 | no cancel without an earlier launch, and never two of either |
| SessionTheorems.EveryLaunchIsReleased | crates/moonlight-core/src/session.rs:285-341 | when a worker has ended, in whatever way, its launch was followed by a cancel if and only if it left neither by the host's termination nor by a panic short of the cancelling call's effect; in those two cases there was no cancel |
| SessionTheorems.PanickedCancelsIff | crates/moonlight-core/src/session.rs:93-115 | a worker that panicked has attempted a cancel if and only if the panic came out of the cancelling call with its request out |
| SessionFailures.PanicLeavesHostBusy | crates/moonlight-core/src/session.rs:291-341 | a run, given by its whole trace, that launches, panics in `on_ready` (or in the cancelling call, when a NUL leads there), and ends without a cancel and with the sink installed |
| SessionFailures.PanicAfterCancel | crates/moonlight-core/src/session.rs:291-300 | a run, given by its whole trace, that panics with the cancel's request out, and has released the host |
| SessionTheorems.CleanEndNeedsClose | crates/moonlight-core/src/session.rs:249-341 | "session ended" is reported only if `close` was called |
| SessionTheorems.HostEndNeedsTermination | crates/moonlight-core/src/session.rs:310-313 | "host terminated the session" is reported only if the termination callback came while this stream was up, never from a stale flag |
| SessionStory.ReasonIff | crates/moonlight-core/src/session.rs:91-342 | the reason reported by a finished session, exactly: a panic if and only if some step panicked; otherwise a failure if and only if some step failed or the launched session held a NUL, a clean end if and only if stop was found set or the channel disconnected, and the host's termination if and only if its flag was found set |
| SessionStory.StepsInOrder | crates/moonlight-core/src/session.rs:196-342 | whatever the worker is about to do, its step before was the one the program has there and had come out, or found, as that needs: so the stop flag is found unset before the app list, and in every turn of the loop before the termination flag is looked at, and that before the wait |
| SessionStory.FinishedStory | crates/moonlight-core/src/session.rs:196-342 | a session finished without a panic was decided by exactly one step, and its whole trace is written out: what is told by that point, the frames delivered, and the clean-up that step calls for, down to whether a cancel comes |
| SessionStory.RunTold | crates/moonlight-core/src/session.rs:196-342 | at every moment of every run, what a running session has told so far, event by event, from where it is, whether the identity was generated and whether the host knew the client |
| SessionStory.IdentityIffGenerated | crates/moonlight-core/src/session.rs:202-215 | `on_identity_learned` is the first event, and happens once, if and only if the identity was generated, panic or not |
| SessionTheorems.FramesAreAPrefix | crates/moonlight-core/src/session.rs:305-338 | the frames delivered are always a prefix of the units submitted while the sink was installed; in the loop the rest is exactly what is in hand and queued |
| SessionTheorems.NothingQueuedOnceLeft | crates/moonlight-core/src/stream.rs:217-222 | once the worker has left, a send is discarded: the channel takes nothing more in |
| SessionTheorems.UnitsAreTheChainsSubmitted | crates/moonlight-core/src/stream.rs:189-224 | unit by unit, in order, what reaches the sink is the concatenation of the chain submitted, its key flag, and the codec of the format then stored |
| SessionTheorems.AdmittedAreTheChainsSubmitted | crates/moonlight-core/src/stream.rs:189-224 | the units admitted are the chains submitted at the places where the sink was installed, from the actions of the run alone |
| SessionTheorems.SinkAtExit | crates/moonlight-core/src/stream.rs:65-157 | at an exit without a panic the sink is installed if and only if a NUL stopped a launched session and no `close` cleared it since |
| SessionTheorems.SinkAfterPanic | crates/moonlight-core/src/stream.rs:153-157 | after a panic the sink is what the last step left, unless `close` has cleared it since |
| SessionFailures.CleansUpIffNoNul | crates/moonlight-core/src/stream.rs:65-73 | every session that ends without a panic ends with the sink empty if and only if host and versions hold no NUL |
| SessionFailures.NulLeavesSink | crates/moonlight-core/src/stream.rs:65-73 | with a NUL, a run, given by its whole trace, that launches, fails, cancels and ends with the sink installed |
| SessionTheorems.StopSpends | crates/moonlight-core/src/session.rs:249-341 | once stop is set it stays set, and receives, frames and launches still possible never grow while each worker step uses up fuel |
| SessionTheorems.BoundedStop | crates/moonlight-core/src/session.rs:306-341 | once stop is set: at most one more receive and one more frame, at most 14 worker steps to the end, and the worker is never stuck |
| SessionTheorems.BoundedTermination | crates/moonlight-core/src/session.rs:306-313 | once the host has terminated the stream: at most one more frame, and at most nine worker steps to the end |
| SessionTheorems.StopBeforeLaunch | crates/moonlight-core/src/session.rs:249-251 | a stop set before the check means that no launch is ever sent |
| Worker.RunMoonlight | crates/moonlight-core/src/session.rs:196-342 | the structured program, with other actors between any two statements and a panic free to unwind any of them before or after its effect, is a run of the transition system, and returns the reason the system closes with |
| Worker.StartStream | crates/moonlight-core/src/stream.rs:65-151 | `start_stream`, with its early return on NUL and its cleanup on failure, statement for statement |
| Worker.Turn | crates/moonlight-core/src/session.rs:306-338 | one turn of the streaming loop leads on, out to the cancel, or out to the error return |
| Worker.Thread | crates/moonlight-core/src/session.rs:91-116 | the spawned thread, catching a panic: when it ends, one report comes last, with the reason that the steps taken make it (`SessionStory.ReasonIff`), its launch was released if and only if it left neither by the host's termination nor by a panic before the cancel, and frames are a prefix of what was admitted |
| EndToEnd.FramesArriveInOrder | crates/moonlight-addon/src/main.rs:152-174 | the frames of a session that the host reads off the shared stream are, at every instant, a prefix of the chains submitted to `dr_submit` while the sink was installed, each concatenated whole, oversized ones left out; all of the delivered ones once the worker's messages are out |
| EndToEnd.FramesDescribeTheChains | crates/moonlight-core/src/session.rs:314-334 | the k-th frame the host reads of the session is that of the k-th chain kept, field by field: its session, size twice over, zero id and offsets, codec 5 if bit 8 of the format then stored is set and 4 otherwise, keyframe exactly if the frame type is 1, and the chain's concatenation |
| EndToEnd.KeptExactly | crates/moonlight-addon/src/main.rs:152-174 | the chains kept are exactly those that met the installed sink and leave room for the header in 32 MiB, each once, in order |
| EndToEnd.HostHearsInOrder | crates/moonlight-addon/src/main.rs:182-212 | of what the host has read of a session, at every instant, `sessionReady` comes before every frame and only once, and nothing comes after `sessionClosed` |
| EndToEnd.MessageByEvent | crates/moonlight-addon/src/main.rs:182-225 | which events become messages: a frame a FRAME message, every callback one of kind 1 with its own text, the launch and the cancel none |
| EndToEndExample.SettingExists | crates/moonlight-addon/src/main.rs:152-225 | for every session id, size and chain that is not too large there is a setting of these theorems in which the host reads that frame, behind service messages with different texts |
| EndToEnd.HostHearsThePrefix | crates/moonlight-addon/src/main.rs:152-225 | what the host has read of a session, callbacks and frames, is at every instant what it should be of a prefix of the worker's trace, and of all of it once the worker's messages are out; every callback may have its own text |
| EndToEnd.HeardIsProgramSoFar | crates/moonlight-addon/src/proto.rs:220-276 | next to other threads that send nothing of the session, at every instant before a distorted length shows, the host has heard what the messages the worker is done with amount to |
| EndToEnd.WorkerIsHeardIff | crates/moonlight-core/src/session.rs:314-334 | of the worker's accepted messages the host makes, event by event, the callbacks and the frames that fit, with session, size, codec number, key flag and data, if and only if no frame's length is distorted |
| EndToEnd.FrameSink | crates/moonlight-addon/src/main.rs:152-174 | a batch is written up to the first frame refused; it stops early exactly if a write failed, and leaves a prefix of that |
| EndToEnd.BatchByPlace | crates/moonlight-addon/src/main.rs:152-174 | what a batch comes to on the wire is its first k frames' messages, each accepted and whole, where k is the place of the first frame refused, or the end |
| EndToEnd.BatchOfOne | crates/moonlight-core/src/session.rs:320-333 | the batch of one that the loop passes is written whole or dropped whole if and only if the narrowing cast does not distort its length |
| Pointer.Session.constructor | crates/moonlight-core/src/session.rs:118-123 | a session starts with no button down and nothing sent |
| Pointer.Session.SendPointer | crates/moonlight-core/src/session.rs:134-158 | one position event, then one event for each of the three bits that changed, left to right; the run so far keeps `Clean` |
| Pointer.CleanEdges | crates/moonlight-core/src/session.rs:141-157 | one more mask keeps: each button's trace strictly alternates from a press, ends as the mask says, and the event count is the sum of bit differences |
| Pointer.TrackEdges | crates/moonlight-core/src/session.rs:147-156 | one input takes each button from its old bit to its new one, and no event of another button disturbs it |
| Pointer.ReplayIsLastMask | crates/moonlight-core/src/session.rs:141-157 | replaying the log leaves down exactly the buttons of the last mask's three low bits |
| Pointer.EdgesInNumbers | crates/moonlight-core/src/session.rs:141-157 | what one input emits, in codes: for bits 0, 1 and 2 in this order, a press (7) or release (8) of code 1, 2 or 3 exactly if the bit changed |
| Pointer.ButtonsInNumbers | crates/moonlight-core/src/session.rs:141-157 | in numbers: code 1, 2 or 3 is held after any run exactly if bit 0, 1 or 2 of the last mask is set, no other code is, and each alternates from a press |
| Pointer.CountInBits | crates/moonlight-core/src/session.rs:141-157 | there is one event for each of those three bits that changed from one mask to the next, and no other |
| Pointer.AsShortIsModulo | crates/moonlight-core/src/session.rs:134-140 | the coordinate sent is the same sixteen bits read as a signed number |
| Dispatcher.Engine.Close | crates/moonlight-core/src/host.rs:68-73 | the stop flag is set and the handle gone, however often |
| Dispatcher.SessionMap.Connect | crates/moonlight-addon/src/main.rs:70-77 | a new engine takes the id; a replaced one is closed by its Drop |
| Dispatcher.SessionMap.Input | crates/moonlight-addon/src/main.rs:79-83 | the input goes to the id's current engine, if any |
| Dispatcher.SessionMap.Close | crates/moonlight-addon/src/main.rs:93-97 | the id's engine is removed and closed, if any |
| Dispatcher.SessionMap.Leave | crates/moonlight-addon/src/main.rs:103-109 | every engine left in the map is closed, by the drain or by its Drop |
| Dispatcher.Run | crates/moonlight-addon/src/main.rs:36-110 | ready if and only if the first control message of the stream decodes to a hello of version 1; otherwise no engines, and success if and only if the stream closes cleanly before any control message; after the hello, result and every engine's history are those of the script that the further control messages spell, and every engine is stopped |
| Dispatcher.ScriptByPlace | crates/moonlight-addon/src/main.rs:66-101 | the messages acted on are the control payloads before the first that is a shutdown or undecodable, and that one, or how the stream ended, is the ending |
| Dispatcher.ObeysOnce | crates/moonlight-addon/src/main.rs:66-101 | there is only one such script |
| Dispatcher.EveryEngineClosed | crates/moonlight-addon/src/main.rs:103-109 | for every message sequence and every ending there is one engine for each connect and all have been closed |
| Dispatcher.EngineClosedBy | crates/moonlight-addon/src/main.rs:93-109 | how often each engine is closed, exactly: once, by its Drop, when its id is connected again or an error ends the loop; by `close` and then Drop when it is closed or drained |
| Dispatcher.UnclosedIsOpen | crates/moonlight-addon/src/main.rs:66-101 | before the end, the engines not closed are exactly the latest of their ids, not closed since |
| Dispatcher.MapHoldsLatest | crates/moonlight-addon/src/main.rs:66-101 | the map holds exactly the latest engine of each id connected and not closed since |
| Dispatcher.InputsReachTheCurrentEngine | crates/moonlight-addon/src/main.rs:79-83 | an engine gets exactly the inputs for its id until that id is connected again or closed, in order |

## Left out

- Sha256Stream.Sha256Hex: says nothing about files of 2^61 bytes or more, for which the standard defines no digest; `Finish` still states what it computes there.
- LockedWriter.OutputIsWholeMessages: every underlying write succeeds; the code does not resynchronise after a partial write, and `Proto.Writer.Raw` states what a fault leaves behind.
- EndToEnd.FramesArriveInOrder: up to the first instant at which a length that the narrowing cast has distorted shows in the shared output; from then on the host reads other messages than were sent (`LockedWriter.HostReadsFinishedMessages`). The worker's messages are written in the order of its trace.
- EndToEnd.HostHearsInOrder: asks that the host's decoder undoes the sidecar's encoder and that the ready message fits.
- PairingInSession.PromptOpenIffReplyBreaks: takes it that the worker acts at the pairing call as the handshake comes out.
- SessionTheorems.BoundedStop: counts steps, not time; how long a blocking call takes is not modelled.
- HTTP, TLS, URLs, tokio, the retry of server info over plain HTTP and the choice of the app to launch: each call is a free success or failure.
- AES, SHA-256, RSA, X.509 and PEM inside pairing are parameters with laws.
- Several live sessions in one process: the sink and the termination flag are shared by all of them, so the session theorems assume one.
- Atomics are sequentially consistent single steps, whatever ordering the code asks for; lock poisoning is left out; the closing thread runs one `close` at a time.
- A worker thread that cannot be spawned never reports anything; the session theorems are about spawned workers.
- A panic inside the wrapper around `run_moonlight`, or in a callback made by another thread.
- `LiStartConnection`'s arguments, audio, stage logging, `aes_iv`, key codes, the wheel clamp, clipboard, the random PIN and the identifiers: tables, single expressions or no state.
- JSON shapes and their defaults: the dispatcher takes the decoder of control messages as a parameter.
- `identity.rs`, `sys.rs`, `build.rs` and the packaging of archives are not part of this model.
