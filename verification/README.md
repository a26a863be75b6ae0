# mumble_bot audio core in Dafny

A model of the integer audio pipeline of the mumble_bot voice-chat bot,
together with the small string and command helpers around it, with proofs
of the properties the code promises. It covers:

- **Go integer semantics** (`samples.dfy`): 16-bit samples and bytes.
  - `Wrap16` models int16 wrap-around.
  - `QuotTrunc` models Go's `/`, which truncates toward zero.
  - `Clamp16` models saturation.
  - There are also shared sequence helpers (`Flatten`, `Repeat`).
- **Errors** (`errors.dfy`): Go's `error` values as a datatype, with `nil` as `None`.
  - `io.EOF`, a wrapped error (`fmt.Errorf("…: %w")`) and "unsupported format" are the distinguished cases.
  - `errors.Is` follows wrappers. `==` does not.
- **Little-endian PCM** (`pcm.dfy`): encoding and decoding of 16-bit samples as byte pairs.
- **Resamplers** (`resampling.dfy`, `phone.dfy`):
  - `audio.UpSample` is linear interpolation in wrapping int16 arithmetic, from an implicit previous sample 0.
  - `audio.DownSample` averages each block with truncation and drops an incomplete tail.
  - The phone bridge has its own copy of the up-sampler with ratio 48000/8000.
- **Raw audio files** (`audio_file.dfy`, `decoders.dfy`):
  - `audio.Read` and `audio.Write` turn a reader's replies into samples and samples into 320-byte blocks.
  - The `.raw` decoder's `file.Read`.
  - The decoder table.
- **Stream helpers** (`streams.dfy`): `ReadAll` and `OpenSoundFile`.
- **Loop wrapper** (`audio_loop.dfy`): `audioLoop` as a state machine over `(n, count, max, buffer)`.
  - It has a consumer that reads until end of stream.
  - Whole-run results cover bounded and unbounded loops.
- **Mixer** (`mixer.dfy`):
  - Per-speaker streams are queues with a closed flag.
  - The saturating `addSample`.
  - The jitter-buffered `sample` round, both as intended and as written.
- **Client playback** (`client.dfy`):
  - The mute/deafen save and restore around playback.
  - `SendAudio`'s framing and stop polling.
  - `StreamAudio`'s re-chunking.
- **Commands** (`strings.dfy`, `commands.dfy`):
  - Splitting a command line and joining it back.
  - Decimal rendering and parsing, `intJoin` and `keys`.
  - Alias expansion and the argument checks of the shell, volume, hold and clip commands.

### How the model stands in for the concurrency

Channels, goroutines, tickers and locks are replaced by sequences:
- A function that consumes a channel takes the finite sequence it delivers.
- A function that feeds a channel returns the sequence it sends. Returning means the output has been closed.
- A reader is the sequence of its replies.
- A writer is a function from the index of a write to its error.
- A stop request from another goroutine is the index of the frame after which the player first sees the flag.

Library calls the model cannot see are parameters:
- `filepath.Ext`, `path.Join`, `os.Open` and `opus.NewStream`.
- The command dispatcher, and the volume bounds `MinVolume` and `MaxVolume`.

### Where the code differs from what its names and comments suggest

- **Loop count of 0.** A loop with `max = 0` plays its source once, the same as `max = 1`. The doc comment (bot/audio_loop.go:12-14) only says that a negative count loops forever. The code does not special-case 0, so it plays once like 1. See `AudioLoop.LoopPlaysCount` and bot/audio_loop.go:26-27.
- **Empty streams in the mixer.** An open stream with nothing queued contributes 0 and stays in the mix. Only a closed, drained stream is dropped. See mumble/audio_streamer.go:32-39.
- **When the stop flag is checked.** `StopAudio` does not stop a frame already in flight. `SendAudio` checks the flag only after pushing each frame (mumble/client.go:91-95), and `StreamAudio` never checks it.
- **What `UnlockAudio` restores.** Its name suggests the state before `LockAudio` comes back in full. It sets back only "deafened" when that was saved (mumble/client.go:152-161). The client's own "muted" field therefore stays false after a session that started muted and deafened. The server-side flags are restored (`Client.PlaybackRestores`).

## Model

| member | source | states |
|---|---|---|
| Samples.Wrap16 | audio/resampling.go:12-14 | int16 arithmetic wraps: the result differs from the exact value by a multiple of 2^16 and equals it whenever it fits in 16 bits |
| Samples.QuotTrunc | audio/resampling.go:12 | Go's integer division truncates toward zero: quotient and remainder bounds for both signs of the dividend |
| Pcm.DecodeEncode | audio/file.go:29-39 | decoding the two little-endian bytes of a sample gives the sample back |
| Pcm.EncodeDecode | audio/file.go:29-39 | encoding the sample decoded from a byte pair gives the pair back, so the codec is a bijection |
| Pcm.DecodeAllAt | bot/decoders.go:40-42 | sample k of a decoded byte string is `buf[2k] \| buf[2k+1]<<8` as int16; there are ⌊len/2⌋ samples, so an odd last byte is ignored |
| Pcm.EncodeAllAt | audio/file.go:38-41 | bytes 2k and 2k+1 of an encoding are sample k, low byte first |
| Pcm.DecodeAllEncodeAll | audio/file.go:28-41 | decoding an encoding gives the samples back |
| Pcm.DecodeAllAppend | audio/file.go:24-30 | byte chunks of even length decode independently of where they are cut |
| Resampling.UpSampleFrom | audio/resampling.go:10-22 | the up-sampler emits exactly `ratio` samples per input sample |
| Resampling.UpSampleAt | audio/resampling.go:8-21 | output `i*ratio + ratio-1` is input i; output `i*ratio + k` is `prev + (k+1)*((s-prev)/ratio)` in wrapping int16 arithmetic with truncating division, where prev is input i-1 or 0 for the first |
| Resampling.UpSampleRatioOne | audio/resampling.go:13-18 | with ratio 1 the up-sampler is the identity |
| Resampling.UpSampleExample | audio/resampling.go:8-21 | up-sampling [0, 10] by 2 gives [0, 0, 5, 10]: the first group ramps from the implicit 0 |
| Resampling.DownStepInvariant | audio/resampling.go:37-40 | the counter stays below `ratio` between samples, so `num >= ratio` fires exactly when `num` reaches `ratio` |
| Resampling.DownSample | audio/resampling.go:33-42 | the down-sampler emits ⌊L/ratio⌋ samples |
| Resampling.DownSampleIsBlockMeans | audio/resampling.go:27-42 | the down-sampler equals a reference: the truncated mean of each complete block of `ratio` inputs, with up to ratio-1 trailing inputs dropped |
| Resampling.DownSampleAt | audio/resampling.go:34-40 | output i is the truncated mean of inputs `i*ratio .. i*ratio+ratio-1` |
| Resampling.DownSampleBetween | audio/resampling.go:34-40 | each output lies between any lower and upper bound of its block |
| Resampling.DownSampleRatioOne | audio/resampling.go:33-42 | with ratio 1 the down-sampler is the identity |
| Resampling.UpThenDownConstant | audio/resampling.go:5-42 | up- then down-sampling a constant signal by the same ratio gives one sample per input, equal to the constant after the first |
| Resampling.UpGroupWrapCounterexample | audio/resampling.go:12-14 | as written, interpolating from -20000 to 20000 gives -32768, outside the segment |
| Resampling.WideGroupBetween | audio/resampling.go:12-14 | with the difference taken in full precision every interpolated sample lies between its two neighbours |
| Resampling.UpSampleNoWrapIsWide | audio/resampling.go:10-22 | where no neighbour difference overflows 16 bits, the code as written equals the full-precision up-sampler |
| Phone.MultIsSix | cmd/mumble_phone/mumble_phone.go:14-17 | the phone ratio is 48000/8000 = 6 |
| Phone.Resampler | cmd/mumble_phone/mumble_phone.go:25-44 | the phone resampler's loops output exactly `audio.UpSample(6, input)`: 6 samples per input, the last being the input |
| AudioFile.Read | audio/file.go:10-32 | the output is closed exactly when some reply carries an error; any error that comes back is wrapped as "error reading audio" |
| AudioFile.ReadPrefix | audio/file.go:14-30 | the samples of the error-free replies come first, in order, each reply decoded on its own; the first error decides the result; an EOF seen through wrappers gives nil; bytes that arrive with an error are dropped |
| AudioFile.ReadToEof | audio/file.go:16-19 | replies ending in `io.EOF` close the output with a nil error after all their samples |
| AudioFile.ReadOddReply | audio/file.go:24-26 | an odd-length reply loses exactly its last byte |
| AudioFile.BlocksAt | audio/file.go:36-42 | block k is the 320-byte encoding of samples 160k .. 160k+159 |
| AudioFile.Write | audio/file.go:34-53 | only whole 320-byte blocks are written, in order, and a trailing partial block never is; the first failing write stops it with an "unable to write audio" wrapped error |
| AudioFile.WriteThenRead | audio/file.go:10-53 | reading back what was written, in even-length chunks ending in EOF, gives the first 160·⌊n/160⌋ samples and a nil error |
| Decoders.RegistryContents | bot/decoders.go:10-23 | exactly ".raw" and ".opus" are registered, to the raw decoder and the opus stream |
| Decoders.RawRead | bot/decoders.go:31-45 | returns n/2 (at most len(pcm)); on an error nothing is decoded; otherwise the first n/2 entries are the little-endian samples and the rest of `pcm` is untouched |
| Decoders.RawReadAgreesWithFileRead | bot/decoders.go:40-44 | the raw reader ignores an odd last byte just as `audio.Read` does |
| Streams.ReadAll | bot/stream.go:38-55 | a run of replies that has neither ended nor failed consists of clean replies whose samples are collected in order |
| Streams.ReadAllToEof | bot/stream.go:40-50 | every slice up to and including the one returned with `io.EOF` is returned, concatenated in order, with a nil error |
| Streams.ReadAllToError | bot/stream.go:51-53 | any other error returns no samples and that error |
| Streams.ReadAllBadCount | bot/stream.go:43-47 | a negative count panics, and so does a count past the 2048-sample buffer (on the slice `b[:n]`) |
| Streams.ReadAllWrappedEof | bot/stream.go:48-53 | EOF is compared with `==`, so a wrapped EOF is an ordinary error |
| Streams.OpenSoundFile | bot/stream.go:23-35 | an unregistered extension is "unsupported format"; an open error is propagated; otherwise the registered decoder's result |
| Streams.UnsupportedBeforeOpen | bot/audio_stream.go:24-31 | the extension is checked before the file system is consulted |
| Streams.DecoderByExtension | bot/audio_stream.go:24-34 | the decoder depends only on the extension |
| AudioLoop.NewAudioLoop | bot/audio_loop.go:15-21 | a new loop has an empty recording, count 0 and the requested maximum |
| AudioLoop.ReadFileSpec | bot/audio_loop.go:55-72 | first pass: a bad count panics; `b[:n]` is passed on and appended to the recording whatever the error; `io.EOF` sets count to 1 and is swallowed; any other error is returned |
| AudioLoop.ReadBufferSpec | bot/audio_loop.go:36-52 | a replay read copies `min(len(b), len(buffer)-n)` recorded samples from the cursor and never errs; reaching the end increments count and rewinds |
| AudioLoop.ReadSpec | bot/audio_loop.go:25-33 | the wrapped stream is read only while count is 0; once `0 <= max <= count` every read is `(0, EOF)`; otherwise replay |
| AudioLoop.DriveFollowsRead | bot/audio_loop.go:25-33 | the consumer run is successive reads: samples collected, EOF ends, another error stops |
| AudioLoop.FirstPass | bot/audio_loop.go:55-69 | during the first pass every delivered sample is passed through and recorded; EOF starts the replay with the whole recording |
| AudioLoop.FirstPassError | bot/audio_loop.go:61-71 | a non-EOF error during the first pass reaches the consumer after all samples delivered, including those of its own reply |
| AudioLoop.Replay | bot/audio_loop.go:29-52 | replaying from cursor j of pass k of max hands out the rest of the pass, then the remaining passes whole, then EOF |
| AudioLoop.LoopPlaysCount | bot/audio_loop.go:15-33 | a loop over a source of samples C with `max = N >= 0` yields C repeated max(N,1) times, then EOF |
| AudioLoop.ForeverNeverEnds | bot/audio_loop.go:12-33 | a negative max never reports EOF; once replaying it only stops when the reads stop |
| Mixer.Sample | mumble/audio_streamer.go:32-39 | a queued sample is taken in order; a closed, drained stream gives `(0, false)`; an open, empty one gives `(0, true)` |
| Mixer.Send | mumble/audio_streamer.go:16-23 | a send goes through exactly when the queue holds fewer than 2048 samples, and appends at the back; a full queue is left as it is (the Go send would block) |
| Mixer.SendThenSample | mumble/audio_streamer.go:16-39 | the stream is first-in first-out |
| Mixer.AddSample | mumble/audio_streamer.go:98-110 | `addSample` is the int16 sum clamped to [-32768, 32767] |
| Mixer.AddSampleLaws | mumble/audio_streamer.go:98-110 | commutative, 0 is neutral, exact when there is no overflow |
| Mixer.AddSampleNotAssociative | mumble/audio_streamer.go:85-93 | saturating addition is not associative, so the order of the streams can matter |
| Mixer.OnAudioStream | mumble/audio_streamer.go:48-57 | a new, not yet started stream is appended at the end of `ins` |
| Mixer.MaxBuffered | mumble/audio_streamer.go:72-78 | the largest queue length among the visited streams, 0 if there are none |
| Mixer.MixSpec | mumble/audio_streamer.go:85-93 | the intended loop receives once from each stream: the output is the left fold of `addSample` from 0 over the streams in order, exactly the streams not closed and drained are kept in order, and other streams are untouched |
| Mixer.SampleRound | mumble/audio_streamer.go:68-96 | a round is ready iff the largest queue holds at least 960 samples; a round that is not ready returns `(0, false)` and changes nothing |
| Mixer.SampleRoundEmits | mumble/audio_streamer.go:72-83 | ready iff some stream has 960 samples queued; so with no streams never ready |
| Mixer.SampleRoundValid | mumble/audio_streamer.go:85-95 | a ready round keeps exactly the live streams, emits their saturating sum and keeps `ins` duplicate-free |
| Mixer.StreamRounds | mumble/audio_streamer.go:59-66 | `Stream` forwards at most one sample per round |
| Mixer.StreamQuiet | mumble/audio_streamer.go:59-66 | while every stream is below the jitter threshold, nothing is sent and nothing changes |
| Mixer.MixAsWrittenAgrees | mumble/audio_streamer.go:85-93 | as long as no stream is closed and drained, the loop as written agrees with the intended one |
| Mixer.PanicExampleAsWritten | mumble/audio_streamer.go:85-90 | the loop as written panics on [drained, 960 samples, drained] |
| Mixer.PanicExampleIntended | mumble/audio_streamer.go:85-95 | the intended round on the same streams emits the middle stream's sample and keeps only it |
| Mixer.SkipExampleAsWritten | mumble/audio_streamer.go:85-90 | on streams that pass the jitter check, as written, after a removal the next stream is skipped and the last one is received from twice (5 + 6, the 1 left queued) |
| Mixer.SkipExampleIntended | mumble/audio_streamer.go:85-93 | the intended loop on the same ready streams takes one sample from each live stream (1 + 5) and keeps both |
| Mixer.SkipExampleReady | mumble/audio_streamer.go:72-83 | the skip example's streams are valid and pass the jitter check, so the round reaches the loop |
| Client.SetSelfMuted | mumble/client.go:172-180 | sets the client's flag and the server's; unmuting also undeafens on the server |
| Client.SetSelfDeafened | mumble/client.go:191-199 | sets the client's flag and the server's; deafening also mutes on the server |
| Client.NewClient | mumble/client.go:51-52 | once dialed, a new client is deafened (and so muted on the server) whatever the server reported, with no stop request |
| Client.LockAudio | mumble/client.go:143-150 | saves the client's muted and deafened flags, then unmutes, which leaves the server neither muted nor deafened |
| Client.UnlockAudio | mumble/client.go:152-161 | restores a saved "deafened" in preference to a saved "muted"; with neither saved the client stays unmuted |
| Client.StopAudio | mumble/client.go:129-141 | after `StopAudio`, `AudioStopped` is true and nothing else changed |
| Client.PlaybackRestores | mumble/client.go:143-161 | when the client's flags describe the server, a playback call gives the server back exactly its flags and clears the stop request |
| Client.ChopAt | mumble/client.go:88-90 | frame i is `samples[i*fs : i*fs+fs]` |
| Client.ChopDropsRemainder | mumble/client.go:88-90 | the full frames together are the samples without the trailing `len % fs` |
| Client.FramesSent | mumble/client.go:88-95 | the number of frames sent: all ⌊len/fs⌋, or up to and including the one after which the stop flag is first seen |
| Client.PushFrames | mumble/client.go:88-96 | the frame loop pushes exactly those frames, in order |
| Client.SentFrames | mumble/client.go:88-91 | at most ⌊len/fs⌋ frames, each of exactly fs samples, together a prefix of the samples |
| Client.SentWithoutStop | mumble/client.go:88-90 | without a stop request every full frame is sent and only the trailing `len % fs` samples are held back |
| Client.SentUntilStop | mumble/client.go:88-95 | a stop request arriving during frame k lets frame k finish and sends nothing after it |
| Client.StaleStopSendsOneFrame | mumble/client.go:91-99 | a stop flag left set before the call makes it send exactly one frame |
| Client.SendAudio | mumble/client.go:81-100 | the frames pushed, then the stop request cleared and the saved flags restored |
| Client.ChunksSpec | mumble/client.go:112-124 | the re-chunked frames concatenate to the input; all but the last hold exactly fs samples and the last is non-empty |
| Client.FramedUnique | mumble/client.go:112-124 | that shape determines the frames, so it is a complete description |
| Client.ChunksAreChopPlusRest | mumble/client.go:88-124 | `StreamAudio` sends the full frames `SendAudio` would send with no stop request, plus the remainder if there is one |
| Client.StreamAudio | mumble/client.go:104-127 | the frames concatenate to the input and depend on the input alone (the stop flag is not consulted); the stop request is cleared on exit |
| Strings.Split | bot/util.go:21 | `strings.Split` on one character: one more piece than separators, and no piece contains the separator |
| Strings.JoinSplit | bot/util.go:21 | joining the pieces with the separator gives the input back |
| Strings.SplitJoin | bot/util.go:21 | splitting what was joined from separator-free pieces gives the pieces back |
| Strings.JoinAppend | bot/commands.go:133 | joining two non-empty lists puts one separator between them |
| Strings.NatToString | bot/util.go:44 | a decimal rendering is non-empty, all digits, with no leading zero |
| Strings.ParseInt | bot/commands.go:89 | a successful parse needs a non-empty text |
| Strings.ParseInt8 | bot/commands.go:89 | a parse with bit size 8 succeeds exactly for decimal values in [-128, 127] |
| Strings.ParseIntToString | bot/commands.go:89 | every integer's `%v` rendering parses back to it |
| Strings.IntJoin | bot/util.go:41-47 | an empty list gives ""; a single integer gives its rendering |
| Strings.IntJoinRoundTrip | bot/util.go:41-47 | with a separator that is neither a digit nor '-', splitting the result gives the renderings back, in order, and they parse back to the integers |
| Commands.ParseCommand | bot/util.go:20-23 | neither the command nor any argument contains a space, and there is one argument per space |
| Commands.ParseCommandInverse | cmd/mumble_bot/util.go:15-18 | the command followed by `" " + arg` for each argument gives the input back |
| Commands.UnparseInverse | bot/util.go:19-23 | parsing a line built from space-free parts gives the parts back |
| Commands.Keys | bot/util.go:11-17 | every key exactly once, so as many as the map has entries |
| Commands.CommandDefault | bot/commands.go:129-139 | an alias is re-dispatched, extended only when there are arguments; an unaliased command gives "Unknown command: " + cmd |
| Commands.AliasKeepsArguments | bot/commands.go:131-135 | the dispatched line parses to the alias's command with the alias's arguments followed by the original ones |
| Commands.CommandShell | bot/commands.go:206-223 | not enabled iff no directory, checked first; usage iff no arguments; a name with '/' or '\' is refused; otherwise `dir/name` runs with the remaining arguments unchanged |
| Commands.ShellRunsPlainNames | bot/commands.go:215-223 | a script runs exactly when the directory is set and the name has no path separator |
| Commands.SoundExtensionIsOpus | bot/commands.go:19 | the sound extension ".opus" selects the opus decoder |
| Commands.CommandHold | bot/commands.go:55-67 | usage (listing the hold directory) iff no arguments; otherwise starts looping hold playback (`Play` in mode `Looped`, Go's `PlayHold`) of `path.Join(clips, args joined by " ") + ".opus"` |
| Commands.CommandClip | bot/commands.go:69-81 | usage (listing the clips directory) iff no arguments; otherwise plays the same file lookup once (`Play` in mode `Once`, Go's `PlaySound`) |
| Commands.HoldPlaysClips | bot/commands.go:61-77 | hold looks in the clips directory, so with arguments it picks the same name and file as clip; the two replies still differ, because hold loops the file and clip plays it once |
| Commands.Rem256 | bot/commands.go:94 | Go's `%` keeps the sign of the dividend and is the identity below 256 in magnitude |
| Commands.Wrap8 | bot/commands.go:94 | `int8(x)` wraps into [-128, 127] and is the identity there |
| Commands.CommandSetVolume | bot/commands.go:84-96 | other than one argument reports the current volume; an unparsable int8 or a value outside [min, max] gives usage and sets nothing; otherwise it sets the parsed value |
| Commands.VolumeAcceptsRendering | bot/commands.go:89-94 | every in-range 8-bit volume written in decimal is set |
| Commands.VolumeRejectsWide | bot/commands.go:89-91 | a value outside the int8 range is refused whatever the bounds |

`Commands.ParseCommand` and `Commands.Keys` also model the identical copies
in cmd/mumble_bot/util.go:6-18.

## Left out

- Goroutines, channels, tickers and `sync.Mutex`. The model keeps only the sequential per-round and per-frame logic. Pacing by the ticker and mutual exclusion of playback sessions are not modelled.
- The channel created inside `AudioStream.Start` (mumble/audio_streamer.go:17): a stream whose goroutine has not run yet behaves like an open, empty stream.
- Slice capacity. `b[:n]` is checked against the buffer's length. The Go code could slice up to capacity, but every buffer involved is allocated with length equal to capacity.
- In `sample` as written, `s.ins[:i]` may slice past `len(s.ins)` up to its capacity. The model uses the array the loop ranges over, so its length stands for that capacity.
- The 64-bit `sum` in `DownSample` is unbounded in the model. It cannot overflow for any ratio below 2^48.
- Opus decoding, `os.Open`, `filepath.Ext`, `path.Join`, `exec` and the command dispatcher are foreign calls. They are parameters, or replies naming the action.
- The output of a script (bot/commands.go:222-231), the rendered usage templates, `listFiles` and the error replies of playback are I/O. The replies name the action instead.
- The playback behind the hold and clip replies (`PlayHold` loops until stopped, `PlaySound` plays once, bot/client.go:102-138) is not part of this model. The replies only name which of the two is started.
- The float volume scaling and gain in bot/client.go are out of this model (floating point).
- A frame size of 0 is left out: the gumble configuration always gives a positive frame size. Every framing member requires `fs >= 1`.
- The server's mute/deafen coupling follows the setters' documentation (mumble/client.go:172,191). gumble itself is not part of this model.
- Mixer.Send: requires the stream to be open. In Go, sending on a closed channel panics, and `Start` never does it.
- AudioLoop.LoopPlaysCount: uses a `fuel` bound on the number of reads. The bound is large enough for the loop to finish, so the result is exact for finite loops. Unbounded loops are covered by `AudioLoop.ForeverNeverEnds`.
- Mixer.StreamRounds: runs a given number of rounds, because `Stream` itself never returns.
- The buffer length the consumer offers the loop wrapper (`bLen`) is not tied to the lengths of the wrapped stream's replies. Every reply is taken as given.
- A failed `gumble.Dial` in `NewClient` is left out: the model starts from a connected client.
- The process-wide panic is modelled as a result constructor (`Panic`, `Panicked`, `None`); what happens to the goroutine afterwards is not.

## Findings

| source | as written | input that shows it | evidently intended | confidence | as-written member | corrected member |
|---|---|---|---|---|---|---|
| audio/resampling.go:12-14 | `(s - prev)` and `prev + i*step` are int16 operations, so a jump of more than 32767 between neighbours wraps (the phone copy at cmd/mumble_phone/mumble_phone.go:33-35 does the same) | up-sampling [-20000, 20000] by 2 gives [-10000, -20000, -32768, 20000] | the interpolated sample between -20000 and 20000 is 0, between its neighbours | not executed | Resampling.UpGroupWrapCounterexample | Resampling.WideGroupBetween |
| mumble/audio_streamer.go:85-90 | a closed stream is removed from `s.ins` inside `range s.ins`; `i--` does not affect the range, and the removal shifts the backing array | streams [drained, 960 queued, drained] panic on `s.ins[3:]`; streams [drained, [1], 960 samples starting 5, 6] pass the jitter check, then mix 5 + 6 and leave the 1 queued | drop the drained stream and receive once from every other stream, in order | not executed | Mixer.PanicExampleAsWritten | Mixer.SampleRound |
