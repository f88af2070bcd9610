# FFmpeg tutorial programs: the verified core

This project is a Dafny model of the parts of the FFmpeg tutorial programs
that carry real logic of their own. It proves properties of that model.

- **RingBuffers** models `utils/ringbuffer.h`. That file defines the byte ring
  buffer between the player's audio decoder and its sound device. The model is
  a class over an `array` of bytes with the read cursor, the write cursor and
  the `full` flag. Each method is proved against the ghost sequence of live
  bytes, `Contents()`:
  - `write` appends the bytes that fit;
  - `read` and `read_ptr` remove the oldest bytes, in order, across the wrap;
  - `defrag` moves the live bytes to offset 0 and keeps them as they were.

  The cursor arithmetic is also stated on values, as pure functions.
- **Player** models `09_media_player/player/mediadecoder.{h,cpp}`. It covers:
  - the master clock and the pacing of video frames;
  - timestamp repair and the audio clock formula;
  - the classification of decoder results;
  - one step of the reader thread, which routes packets into two bounded
    queues;
  - the state flags of `MediaDecoder`;
  - the audio thread's drain loop over a `RingBuffer`, with the player's sink
    from `09_media_player/player/videoplayer.cpp` as the callback.
- **Args** models `utils/argsparser.h`, the command-line parser:
  - key and pair recognition, `b()`, and `std::stoi` (behind `i()`);
  - `add`, `get`, `set`, `set_pair`, `set_map`;
  - the `parse` loop over `argv`, as a class whose key→entry table is a `map`.

  The loop is proved against a recursive definition of one step per argument.
- **Remux** models `01_remuxing/remuxing.cpp`. It covers the stream-mapping
  loop, which keeps video, audio and subtitle streams and numbers them densely,
  and the packet loop, which drops or re-addresses each packet and counts video
  packets.
- **ComplexFilterCli** models `05_complex_filter/complex_filter.cpp`. It covers
  the argument scan that collects `-i` operands and one output name.

Threads, locks, sleeps, the wall clock and every FFmpeg call become parameters
of the model or are left out. `now`, the decoder's results, the stream search
results and the sound device's answers are inputs.

## Model

| member | source | states |
|---|---|---|
| RingBuffers.WrapIsMod | utils/ringbuffer.h:40 | The cursor update `(k) % max_size` stays inside the array for every `k < 2·max_size` the buffer produces. |
| RingBuffers.SizeOf | utils/ringbuffer.h:189-195 | `size_wo_lock()` never exceeds the capacity. |
| RingBuffers.SizeIsModularDistance | utils/ringbuffer.h:189-195 | On well-formed cursors, the size is `max_size` when full and `(w − r) mod max_size` otherwise. |
| RingBuffers.ContinuousSizeOf | utils/ringbuffer.h:197-200 | The contiguous run from the read cursor ends inside the array. On a non-empty buffer it is positive and no larger than the size. |
| RingBuffers.ContinuousFreeSizeOf | utils/ringbuffer.h:202-205 | The free run after the write cursor ends inside the array. When not full it is no larger than the free space. |
| RingBuffers.ResetIfEmpty | utils/ringbuffer.h:212-218 | An empty buffer gets all cursors reset. A non-empty one is left alone. |
| RingBuffers.DefragCursors | utils/ringbuffer.h:94-96 | After the repaired `defrag`, the read cursor is 0 and the size is unchanged. A non-empty buffer then has all its bytes contiguous. |
| RingBuffers.DefragIdempotent | utils/ringbuffer.h:74-97 | A second `defrag` leaves the cursors as the first left them. |
| RingBuffers.DefragAsWritten | utils/ringbuffer.h:94-96 | As written, `defrag` keeps the size and moves the read cursor to 0, but a full buffer gets `w_idx_ == max_size_`, one past the array. |
| RingBuffers.WritePtrGrantAsWritten | utils/ringbuffer.h:52-54 | As written, the grant fits the request and the array. When not full it fits the free space, but a full buffer is granted `min(max_size − w, size)` bytes. |
| RingBuffers.WritePtrGrant | utils/ringbuffer.h:174-180 | The repaired grant never exceeds the request or the free space, and it is 0 on a full buffer. |
| RingBuffers.WrappedLayout | utils/ringbuffer.h:86-92 | The wrapped case of `defrag` is the two moves: the tail from `r` to the start, then the saved head after it. Together they lay the live bytes out flat. |
| RingBuffers.OverwriteAppends | utils/ringbuffer.h:30-36 | Copying data in at the write cursor, wrapping at the end, appends it to the live bytes and leaves them untouched when it fits. |
| RingBuffers.WriteCursorFollowsContents | utils/ringbuffer.h:189-195 | The write cursor always sits `size` bytes after the read cursor, modulo the capacity. |
| RingBuffers.AdvanceWriteSize | utils/ringbuffer.h:39-40 | Advancing the write cursor by `k` free bytes adds exactly `k` to the size. `full` is set exactly when no free byte is left. |
| RingBuffers.AdvanceReadSize | utils/ringbuffer.h:119-121 | Advancing the read cursor by `k` live bytes removes exactly `k` from the size and keeps the cursors well formed. |
| RingBuffers.ReadStep | utils/ringbuffer.h:111-121 | Handing out the first `n` live bytes leaves the remaining ones, in order. |
| RingBuffers.ResetKeepsWindow | utils/ringbuffer.h:25 | Resetting the cursors of an empty buffer does not change its contents. |
| RingBuffers.WriteStep | utils/ringbuffer.h:30-40 | Writing `min(size, free)` bytes appends them after the live bytes. The buffer is full exactly when the request reached the free space. |
| RingBuffers.WritePtrStep | utils/ringbuffer.h:52-54 | Granting free bytes after the write cursor appends them to the live bytes. A grant that closes the free space leaves a buffer that reads as empty, because `full` is never set. |
| RingBuffers.DefragThenDrainIsEmpty | utils/ringbuffer.h:94-96 | After the repaired `defrag`, reading every live byte leaves an empty buffer. |
| RingBuffers.DefragAsWrittenReplaysDrainedBytes | utils/ringbuffer.h:94-96 | As written, `defrag` of a full buffer sets `w_idx_ = max_size_`. After one full read the buffer again reports `max_size` live bytes. |
| RingBuffers.WritePtrAsWrittenOverwritesLiveBytes | utils/ringbuffer.h:53-54 | As written, `write_ptr` on a full buffer with `r = w > 0` grants `max_size − w` bytes, all of them unread. It leaves `full` set with `r ≠ w`. |
| RingBuffers.RingBuffer.constructor | utils/ringbuffer.h:9-13 | A new buffer of the given positive capacity is empty, with both cursors at 0. |
| RingBuffers.RingBuffer.Size | utils/ringbuffer.h:137-141 | `size()` is the number of live bytes and is at most the capacity. |
| RingBuffers.RingBuffer.MaxSize | utils/ringbuffer.h:143-147 | `max_size() == size() + free_size()` in every state. |
| RingBuffers.RingBuffer.FreeSize | utils/ringbuffer.h:149-153 | `free_size()` is the capacity minus the live bytes. It is 0 exactly when `full`. |
| RingBuffers.RingBuffer.Empty | utils/ringbuffer.h:131-135 | `empty()` holds exactly when there are no live bytes. |
| RingBuffers.RingBuffer.Full | utils/ringbuffer.h:182-186 | `full()` holds exactly when the live bytes fill the capacity. |
| RingBuffers.RingBuffer.ContinuousSize | utils/ringbuffer.h:167-172 | On a non-empty buffer, the contiguous run at the read cursor is the first bytes of the contents, and it is positive and at most the size. |
| RingBuffers.RingBuffer.ContinuousFreeSize | utils/ringbuffer.h:174-180 | The free run after the write cursor is at most the free space. It is 0 exactly when full. |
| RingBuffers.RingBuffer.Continuous | utils/ringbuffer.h:155-159 | `continuous()` computes `r_idx_ != w_idx_`, because of how C++ parses `r_idx_ == w_idx_ == 0`. So it is true exactly when the buffer is neither empty nor full, whether or not the live bytes are contiguous: with capacity 8, `r = 5`, `w = 2` it is true for wrapped bytes, and the empty `r == w == 0` case is false. Nothing in the modelled code calls `continuous()`. |
| RingBuffers.RingBuffer.ContinuousFree | utils/ringbuffer.h:161-165 | Repaired `continuous_free()`: holds exactly when the next `write_ptr` could grant the whole free space in one run. |
| RingBuffers.ContinuousFreeOf | utils/ringbuffer.h:161-165 | The repaired test on cursors holds exactly when a `write_ptr` for the whole buffer would be granted all the free space. |
| RingBuffers.ContinuousFreeAsWrittenMisjudges | utils/ringbuffer.h:164 | The test as written agrees with the repaired one exactly when `r == 0` or the buffer is empty. With capacity 8, `r = 2, w = 5` it answers true although only 3 of 5 free bytes are contiguous; `r = 5, w = 2` it answers false although all 3 free bytes are. |
| RingBuffers.RingBuffer.Clear | utils/ringbuffer.h:125-129 | `clear()` empties the buffer and resets both cursors. |
| RingBuffers.RingBuffer.Write | utils/ringbuffer.h:21-43 | Returns `min(size, free_size())`, or 0 when full or `src` is null. The contents become the old contents plus that prefix of `src`. `full` becomes true exactly when the request reached the free space. The read cursor moves only through the empty-buffer reset. |
| RingBuffers.RingBuffer.Append | utils/ringbuffer.h:30-40 | The copying part of `write`, from cursors that are not full. The stored bytes follow the live ones. |
| RingBuffers.RingBuffer.Read | utils/ringbuffer.h:100-123 | Returns `min(size, size())` and copies the oldest bytes to `dst`, in order, across the wrap. Those bytes are removed. A null `dst` changes nothing. An empty buffer only has its cursors reset. A positive read clears `full`. |
| RingBuffers.RingBuffer.ReadPtr | utils/ringbuffer.h:59-71 | On a non-empty buffer it grants `min(size, continuous_size())` bytes at the old read position and advances past them; they are the oldest bytes. On an empty buffer it resets and grants up to `max_size` stale bytes. The cursors end advanced by the grant. |
| RingBuffers.RingBuffer.WritePtr | utils/ringbuffer.h:46-57 | The repaired `write_ptr` grants a free run after the live bytes and counts it as written. It grants nothing when full and never sets `full`. A full buffer is left unchanged: cursors and contents. |
| RingBuffers.RingBuffer.Defrag | utils/ringbuffer.h:74-97 | Moves the live bytes to offset 0 in the same order, leaving the bytes after them unchanged. The contents are kept, and a buffer that already starts at 0 is not changed. |
| RingBuffers.CopyIn | utils/ringbuffer.h:33-36 | The two `memcpy` calls of `write` put the data in at the write cursor, wrapping at the end of the array. |
| RingBuffers.CopyOut | utils/ringbuffer.h:114-117 | The two `memcpy` calls of `read` put the window at the read cursor at the front of `dst`. |
| RingBuffers.Compact | utils/ringbuffer.h:83-92 | The moves of `defrag` put the live bytes at the front of the array, in order. |
| RingBuffers.MoveWrapped | utils/ringbuffer.h:86-92 | The wrapped case: the temp copy, the `memmove` and the `memcpy` put the tail and then the head at the front. |
| RingBuffers.SaveHead | utils/ringbuffer.h:87-88 | `temp` is a fresh copy of the first `w` bytes. |
| Player.MasterClockUs | 09_media_player/player/mediadecoder.h:106-112 | With an audio stream, the clock is the published audio clock plus the elapsed wall time, floored at 0, so it is never negative. Without one, it is the wall time since the first packet. |
| Player.MasterClockMonotone | 09_media_player/player/mediadecoder.h:111 | For a fixed published audio clock, `clock_us()` never decreases as wall time advances. |
| Player.PacingSleepUs | 09_media_player/player/mediadecoder.cpp:360 | The sleep lies in [0, 1 s]. It is 0 exactly when the frame is not early, equals the lead when that is under 1 s, and is 1 s otherwise. |
| Player.PacingReachesTimestamp | 09_media_player/player/mediadecoder.cpp:359-367 | A frame at most 1 s early is shown no earlier than its timestamp, and a late frame is shown without sleeping. |
| Player.RepairPts | 09_media_player/player/mediadecoder.cpp:344-346 | A frame without a timestamp gets the elapsed time. Any other timestamp is shifted by the stream's start time. |
| Player.RepairPtsKeepsOrder | 09_media_player/player/mediadecoder.cpp:344-346 | Repair preserves the order of two stamped frames, in both directions. |
| Player.FrameDurationUs | 09_media_player/player/mediadecoder.cpp:438 | The frame duration is `nb_samples·10⁶ / sample_rate`, rounded down, which the contract states by its two bounds. |
| Player.BufferedDurationUs | 09_media_player/player/mediadecoder.cpp:439 | The buffered duration is `bytes·10⁶ / (4·sample_rate)`, rounded down, which the contract states by its two bounds. |
| Player.AudioClockUs | 09_media_player/player/mediadecoder.cpp:437-440 | The published clock is at most the end of the frame. It equals the end of the frame when nothing is buffered. |
| Player.AudioClockFallsAsBufferGrows | 09_media_player/player/mediadecoder.cpp:437-440 | The more audio is still buffered in the sink and the ring, the earlier the published clock. |
| Player.FrameDurationAsWritten | 09_media_player/player/mediadecoder.cpp:438 | The 32-bit product as written agrees with the intended duration whenever it does not overflow. |
| Player.FrameDurationOverflows | 09_media_player/player/mediadecoder.cpp:438 | A 4096-sample frame at 48 kHz should last 85333 µs. The source computes −4145 µs. |
| Player.ClassifyReceive | 09_media_player/player/mediadecoder.cpp:327-342 | A decoder result is classified as follows, each case in both directions: EAGAIN asks for the next packet; EOF ends the thread; any other negative value is an error; a non-negative value is a frame. |
| Player.ReceiveSpec | 09_media_player/player/mediadecoder.cpp:327-342 | The receive loop yields at most one frame per result. |
| Player.ReceiveSpecStopsAtFirstNegative | 09_media_player/player/mediadecoder.cpp:327-342 | Every result before the first negative one is a frame, and that negative result alone decides the exit. |
| Player.ReceiveFrames | 09_media_player/player/mediadecoder.cpp:326-342 | A failed send goes back to the queue with no frames. Otherwise the loop's frames and exit are those of the recursive definition. |
| Player.PacketQueue.constructor | 09_media_player/player/mediadecoder.h:119-127 | A new queue is empty. |
| Player.PacketQueue.Push | 09_media_player/player/mediadecoder.cpp:293-296 | Pushing onto a queue that is not full appends the packet. |
| Player.PacketQueue.Pop | 09_media_player/player/mediadecoder.cpp:321-324 | Popping removes the oldest packet and yields it. An empty queue yields nothing. |
| Player.PacketQueue.Clear | 09_media_player/player/mediadecoder.cpp:476-477 | Clearing empties the queue. |
| Player.MediaDecoder.constructor | 09_media_player/player/mediadecoder.h:73-132 | The field defaults: not running, opened or paused; no streams; period 8192; no first pts; audio clock 0; the default callback; empty queues. |
| Player.MediaDecoder.Width | 09_media_player/player/mediadecoder.h:57 | `width()` is the video decoder context's width, and 480 while there is no context. |
| Player.MediaDecoder.Height | 09_media_player/player/mediadecoder.h:58 | `height()` is the video decoder context's height, and 360 while there is no context. |
| Player.MediaDecoder.Close | 09_media_player/player/mediadecoder.cpp:453-486 | Clears `running`, `opened` and `paused`, forgets the first pts, empties both queues and frees the video decoder context, so `width()`/`height()` become 480×360. Every other field is unchanged. |
| Player.MediaDecoder.Open | 09_media_player/player/mediadecoder.cpp:19-172 | A running or opened decoder is closed first. The stream indices are recorded only once probing succeeded. Opening succeeds exactly when probing succeeded, there is a video or an audio stream, the video decoder and its context were obtained when there is video, and the remaining set-up succeeded. A video context is kept even when a later step fails. On success with video, `width()`/`height()` are that context's size. Every other field is unchanged. |
| Player.MediaDecoder.Start | 09_media_player/player/mediadecoder.h:39-51 | Does nothing unless the decoder is opened and not running. Otherwise it sets `running` and nothing else. |
| Player.MediaDecoder.Pause | 09_media_player/player/mediadecoder.h:67 | Sets `paused` and nothing else. |
| Player.MediaDecoder.Resume | 09_media_player/player/mediadecoder.h:68 | Clears `paused` and nothing else. |
| Player.MediaDecoder.SetPeriodSize | 09_media_player/player/mediadecoder.h:65 | Sets the period size and nothing else. |
| Player.MediaDecoder.SetAudioCallback | 09_media_player/player/mediadecoder.h:64 | Sets the audio callback and nothing else. |
| Player.MediaDecoder.ReadStep | 09_media_player/player/mediadecoder.cpp:262-307 | One reader iteration. It reads nothing and changes nothing while stopped, paused or with a full queue. At end of input it pushes exactly one flush packet into each queue; any other read error pushes none. A video-stream packet goes to the video queue, an audio-stream packet to the audio queue, and any other packet is dropped. The first packet read fixes `first_pts_`. No other field changes. |
| Player.MediaDecoder.PublishAudioClock | 09_media_player/player/mediadecoder.cpp:440-441 | Stores the clock and its wall-time stamp. Nothing else changes. With an audio stream, `clock_us()` at that moment is the clock floored at 0. |
| Player.RoomyBytes | 09_media_player/player/videoplayer.cpp:27-40 | The sink plays at most one period per call. |
| Player.AudioThread.constructor | 09_media_player/player/mediadecoder.cpp:381-382 | The ring starts empty, and the sink has reported nothing buffered. |
| Player.AudioThread.Callback | 09_media_player/player/videoplayer.cpp:27-40 | The default callback reports (0, refused). The player's sink accepts exactly when the ring holds a contiguous period and the device has room for one. It then plays the oldest period through `read_ptr` and reports the device's buffered size. |
| Player.AudioThread.Serve | 09_media_player/player/mediadecoder.cpp:424-435 | One pass of the drain loop: `defrag` when the period is not contiguous, then the callback. The sink then always plays a period when the device has room, and the played bytes are the oldest ones. On a ring of whole periods with an aligned read cursor the period is already contiguous, so no `defrag` runs, and the cursor stays aligned. |
| Player.RingHoldsWholePeriods | 09_media_player/player/mediadecoder.cpp:381 | The ring of `2·max(period, 4096)` bytes is a whole number of periods exactly when the period is at least 4096 bytes or divides 8192. |
| Player.AlignedPeriodIsContiguous | 09_media_player/player/mediadecoder.cpp:424-428 | On a ring of whole periods whose read cursor sits on a period boundary, holding a period means holding it contiguously, so the `defrag` branch is never taken. |
| Player.SinkReadKeepsAlignment | 09_media_player/player/videoplayer.cpp:27-40 | The sink's `read_ptr(period)` moves a read cursor on a period boundary to the next boundary, or to 0 at the wrap, and so does the reset-then-read of an empty ring. |
| Player.AudioThread.Drain | 09_media_player/player/mediadecoder.cpp:424-435 | The played bytes plus the ring's contents are the old contents. The sink plays one period per call with a roomy device. The loop ends with less than a period in the ring unless the device's answers run out. `buffered_size` is the last reply. On a ring of whole periods an aligned read cursor stays aligned. |
| Player.AudioThread.PlayFrame | 09_media_player/player/mediadecoder.cpp:417-441 | The resampled bytes that fit go into the ring, and the rest are dropped. The played bytes plus what is left are the old contents plus those bytes. The published clock follows the audio-clock formula. On a ring of whole periods an aligned read cursor stays aligned. |
| Args.Components | utils/argsparser.h:293-317 | The pair and map switches read the two base types from the low bits: the first in bits 0-3, the second in bits 4-7. |
| Args.Lookup | utils/argsparser.h:388 | `args_[key]` yields the entry, or the default-constructed one that `operator[]` inserts. |
| Args.ParseKeyExact | utils/argsparser.h:222-232 | `parse_key` succeeds exactly on `-k` or `--k` with `k` matching `[a-zA-Z][a-zA-Z0-9]*`, and returns `k`. |
| Args.ParsePairExact | utils/argsparser.h:269-279 | `parse_pair` succeeds exactly on `a:b` with `a` and `b` non-empty and alphanumeric, and returns `(a, b)`. |
| Args.ParseKey | utils/argsparser.h:222-232 | A recognised key is a key name preceded by one or two dashes, and nothing else. |
| Args.ParsePair | utils/argsparser.h:269-279 | A recognised pair `(a, b)` consists of two alphanumeric words, and the text is exactly `a:b`. |
| Args.BooleanTextIsExact | utils/argsparser.h:281 | `b()` compares the whole text: "1", "true" and "on" are true, while "True", "ON", "yes", " 1", "0", "false" and "" are false. |
| Args.StoI | utils/argsparser.h:282 | `i()` (`std::stoi`) yields an `int`-range value or throws. |
| Args.StoIReadsDecimal | utils/argsparser.h:282 | `std::stoi` reads back every `int` written in decimal, whatever non-digit text follows it. |
| Args.Convert | utils/argsparser.h:386-392 | One text is converted to the scalar its type names. It fails exactly for an integer that `std::stoi` rejects. `b()` holds exactly on "1", "true" and "on". A string is kept as given. |
| Args.PairValue | utils/argsparser.h:290-317 | `set_pair` replaces only the value of the entry. An unsupported type combination leaves the entry alone; otherwise it fails exactly when one half fails to convert. |
| Args.PairKeepsLast | utils/argsparser.h:285-319 | A pair key whose halves both convert ends up holding exactly the last `a:b` value given, whatever it held before. |
| Args.MapValue | utils/argsparser.h:326-382 | `set_map` replaces only the value of the entry. |
| Args.SetArg | utils/argsparser.h:386-434 | `set` replaces only the value of the entry. |
| Args.ScalarKeepsLast | utils/argsparser.h:388-392 | A scalar key keeps only the last value given. |
| Args.VectorAppends | utils/argsparser.h:394-420 | A vector key appends each value after those it already holds. The first value starts the vector. |
| Args.MapAccumulates | utils/argsparser.h:329-355 | Once both halves convert, a map key without a value starts a one-entry map. A map key with a value gains or overwrites that entry and keeps the others. |
| Args.SetNeverMiscasts | utils/argsparser.h:386-434 | On a consistent entry every `any_cast` succeeds. When neither component is an integer or a floating-point type, `set` never throws. |
| Args.SetKeepsConsistent | utils/argsparser.h:386-434 | `set` keeps the payload in step with the type code. |
| Args.VectorKeepsConsistent | utils/argsparser.h:394-420 | Appending to a vector keeps the payload in step with the type code. |
| Args.MapKeepsConsistent | utils/argsparser.h:321-384 | `set_map` keeps the payload in step with the type code. |
| Args.FirstUseClearsDefault | utils/argsparser.h:453-469 | The first occurrence of a declared key drops its default value. A boolean key directly followed by a key becomes true. Any other key waits without a value. |
| Args.LimitedIgnoresUndeclared | utils/argsparser.h:445-451 | In limited mode an undeclared key changes nothing and clears the current key. |
| Args.UnlimitedAddsUndeclared | utils/argsparser.h:471-478 | In unlimited mode an undeclared key is added: as boolean true when a key follows, and as an empty string otherwise. |
| Args.InvalidDashClearsKey | utils/argsparser.h:445-488 | A dash argument that is not a valid key clears the current key and leaves the table alone. |
| Args.ValuesWithoutKeyIgnored | utils/argsparser.h:485-488 | With no current key, the values up to the next dash argument leave the table unchanged. |
| Args.LimitedKeepsKeys | utils/argsparser.h:445-451 | In limited mode parsing never adds a key. The current key is always declared. |
| Args.UndeclaredKeyPromoted | utils/argsparser.h:491-496 | An undeclared key given two values ends as a `vector<string>` holding both, in order. |
| Args.Promote | utils/argsparser.h:491-495 | Promotion never fails on a consistent entry and keeps it consistent. It changes only the type code and the value, and only for an undeclared string key that holds a value, which becomes a one-element `vector<string>`. |
| Args.KeyStep | utils/argsparser.h:445-481 | A key argument never raises. It becomes the current key unless it is undeclared in limited mode. Only unlimited mode adds it to the table, and no other entry changes. |
| Args.ValueStep | utils/argsparser.h:485-496 | A value touches only the current key's entry, which `operator[]` inserts if missing. When the step goes on, the key stays current. |
| Args.StepKeepsKeys | utils/argsparser.h:441-497 | Only a value for a current key can make a step raise. A step never removes a key, and the current key it leaves is in the table. |
| Args.RunKeepsKeys | utils/argsparser.h:441-497 | Parsing never removes a key, and the current key is always in the table. |
| Args.RunKeepsTableOk | utils/argsparser.h:441-497 | Parsing keeps every payload in step with its type code, so the `any_cast` calls never fail. |
| Args.NoNumbersNeverRaises | utils/argsparser.h:436-500 | With no integer- or floating-typed keys, parsing never throws. |
| Args.Parser.constructor | utils/argsparser.h:220 | A new parser has an empty table and keeps its description and mode. |
| Args.Parser.Add | utils/argsparser.h:234-249 | A valid key is declared with its default value and help text. An invalid key is the fatal error, and the table is left unchanged. |
| Args.Parser.Get | utils/argsparser.h:252-261 | `get<T>` yields a value exactly when the key exists, holds a value and has T's type code. The value has that type. |
| Args.Parser.GetOr | utils/argsparser.h:263-267 | `get(key, dft)` yields `dft` exactly when `get<T>` yields nothing. |
| Args.Parser.Set | utils/argsparser.h:386-434 | `set` applies the conversion to the entry `operator[]` finds or inserts. When `std::stoi` throws, only the inserted entry remains. |
| Args.Parser.SetPair | utils/argsparser.h:285-319 | A text that is not `a:b` changes nothing. Otherwise the entry becomes `SetArg` of it, which keeps the last pair (`Args.PairKeepsLast`). |
| Args.Parser.SetMap | utils/argsparser.h:321-384 | A text that is not `a:b` changes nothing. Otherwise the map gains the entry, or starts with it (see `MapAccumulates`). A conversion failure or a mismatched payload leaves the entry `operator[]` found or inserted. |
| Args.Parser.TakeKey | utils/argsparser.h:445-481 | The key branch of the loop is one step of the recursive definition. |
| Args.Parser.TakeValue | utils/argsparser.h:490-496 | The value branch of the loop (promotion, then `set`) is one step of the recursive definition. |
| Args.Parser.Consume | utils/argsparser.h:441-497 | One loop iteration is one step of the recursive definition. |
| Args.Parser.Parse | utils/argsparser.h:436-500 | Returns −1 and changes nothing when `argc < 2`. Otherwise every argument is processed left to right and the table is the recursive definition's. It returns 0 unless an exception escapes. |
| Remux.DestInRange | 01_remuxing/remuxing.cpp:55-63 | A kept stream gets an index below the number of output streams, and the output stream at that index has its media type. |
| Remux.DestIncreasing | 01_remuxing/remuxing.cpp:45-55 | Kept streams are numbered in input order without repeats. |
| Remux.DestOnto | 01_remuxing/remuxing.cpp:44-67 | Every output stream is the image of some kept input stream. |
| Remux.BuildMapping | 01_remuxing/remuxing.cpp:44-67 | The mapping covers exactly the input streams. It is negative exactly for streams that are not video, audio or subtitle. Kept streams are numbered densely. The output streams are the kept ones, in order. |
| Remux.RoutedInRange | 01_remuxing/remuxing.cpp:85-92 | Every written packet goes to an existing output stream. |
| Remux.Target | 01_remuxing/remuxing.cpp:86-92 | `stream_mapping[i]` is the mapped value when `i` is mapped. Otherwise it is the 0 that `operator[]` inserts. |
| Remux.RemuxPackets | 01_remuxing/remuxing.cpp:83-104 | The written packets are the read ones, with dropped streams left out and the others re-addressed, in order. `frame_number` counts those routed to a video output. |
| Remux.BuiltMappingOk | 01_remuxing/remuxing.cpp:44-67 | The built mapping sends each stream to −1 or to an existing output stream. |
| Remux.BuiltRoutesInRange | 01_remuxing/remuxing.cpp:83-104 | With the built mapping, every written packet goes to an existing output stream. |
| Remux.FramesCountVideoInput | 01_remuxing/remuxing.cpp:94-96 | With the built mapping, `frame_number` equals the number of packets read from video input streams. |
| ComplexFilterCli.TokensSpellArgv | 05_complex_filter/complex_filter.cpp:20-32 | The scan's split of the arguments loses and invents none. |
| ComplexFilterCli.TakesOperand | 05_complex_filter/complex_filter.cpp:21 | Only an `-i` with a following argument takes an operand, and never one starting with a dash. An `-i` followed by a non-empty argument not starting with a dash always takes it. An empty operand is taken. |
| ComplexFilterCli.InputsNeverOptions | 05_complex_filter/complex_filter.cpp:21-23 | No input file starts with a dash, unless it is empty. |
| ComplexFilterCli.TokenStep | 05_complex_filter/complex_filter.cpp:20-31 | An `-i` with an acceptable operand adds an input and skips the operand. Any other argument is a plain one. |
| ComplexFilterCli.SecondOutputFails | 05_complex_filter/complex_filter.cpp:25-31 | Once `output_file` is set, any later plain argument is the usage error. |
| ComplexFilterCli.ScanOne | 05_complex_filter/complex_filter.cpp:21-31 | One loop iteration keeps the scan state in step with the recursive split. |
| ComplexFilterCli.SplitArgs | 05_complex_filter/complex_filter.cpp:7-32 | Fewer than three arguments is the usage error. Otherwise the inputs and the output are those of the recursive split, in order. |
| ComplexFilterCli.UsageSplit | 05_complex_filter/complex_filter.cpp:8 | The documented usage gives two inputs, in order, and the output. |
| ComplexFilterCli.DanglingFlagIsOutput | 05_complex_filter/complex_filter.cpp:25-26 | A trailing `-i` is itself taken as the output name. |
| ComplexFilterCli.DashOperandRefused | 05_complex_filter/complex_filter.cpp:21-31 | `-i` followed by an option-like argument takes no operand, and the second plain argument is refused. |
| ComplexFilterCli.ArgcGuardAdmitsOneInput | 05_complex_filter/complex_filter.cpp:7-43 | The scan accepts a command line with a single input, although the filter graph built at line 43 reads a second input source (filter_graph.h:67). |
| ComplexFilterCli.SplitArgsChecked | 05_complex_filter/complex_filter.cpp:7-46 | Accepts exactly the scans that yield at least the two inputs the filter graph reads and a non-empty output. |

## Left out

- Threads, `std::atomic`, the `std::mutex` in `RingBuffer`, the sleeps and the
  joins in `close()`. Each method or loop iteration is one sequential step.
- Every FFmpeg call: opening, probing, codecs, filter graphs, resampling,
  `av_rescale_q`, `av_packet_rescale_ts`, `av_interleaved_write_frame`. Their
  results are parameters: whether each group of `open()` set-up steps
  succeeded, the stream search results, the video decoder context's size, the
  rescaled microsecond timestamps, the decoder results and the resampled bytes.
  A failed resampler call is not one of these inputs (see `PlayFrame` below).
- Player.MediaDecoder.Open: the audio decoder context, the resampler and the
  filter graph have no fields of their own. Only the video context is tracked,
  because `width()` and `height()` read it.
- The wall clock (`av_gettime_relative`) is the parameter `now`.
- `RingVector`, the bounded packet queue, is not part of this model. It is a
  FIFO of capacity 20 with push, pop, full and empty, and nothing is claimed
  about its internals.
- Player.MediaDecoder.ReadStep: the queue entries keep only the stream index
  and pts, not the packet payload.
- The video thread's filter-graph push, its failure branch and the frame
  callback, at mediadecoder.cpp:348-369. Only the pacing formula is kept.
- `clock_s()`, `sar()`, `framerate()`, `timebase()` and the logging, because
  they use floating point or FFmpeg.
- Player.AudioThread.Drain: the drain loop runs over a finite list of device
  answers. The source keeps polling, and spins forever with a period of 0,
  which the model excludes by requiring a positive period. When the period
  divides the ring (at least 4096 bytes, or a divisor of 8192) the read cursor
  stays on period boundaries and `defrag` never runs. For other periods a
  `defrag` can run, and the model uses the repaired one: it does not follow
  the state `w_idx_ == max_size_` that the source's `defrag` leaves after a
  full ring.
- Player.AudioThread.PlayFrame: a failed `swr_convert` is not modelled; the
  resampled byte count is a `nat` within the frame's buffer. The source never
  checks that result (mediadecoder.cpp:418-421): a negative sample count
  becomes a huge `size_t`, and `write` then reads `free_size()` bytes from a
  buffer of `nb_samples·4` bytes, past its end whenever the ring has more room.
  Its drain uses the repaired `defrag`, as in
  `Drain`. Its clock uses the 64-bit frame duration (`FrameDurationUs`), not
  the `int` product of mediadecoder.cpp:438.
- 64-bit overflow of timestamps and clocks is not modelled; those values are
  unbounded integers.
- `parser::d()` (`std::stod`) and every floating-point combination: a `Float`
  keeps its text, so the exceptions `std::stod` throws on text that is not a
  number are absent. `SetNeverMiscasts` and `NoNumbersNeverRaises` therefore
  exclude floating-point keys as well as integer ones.
- `help()` and `utils/logging.h`.
- `LOG(FATAL)` in `add` aborts the program. The model returns `false` and
  leaves the table unchanged.
- Args.Parser.Get: the C++ type `T` is the type code the caller passes, and
  the answer depends on that code only. In the source, `std::any_cast<T>`
  throws `std::bad_any_cast` when `T` is not the stored type although its
  code matches, for example `get<int>` on an `int64_t` payload or
  `get<float>` on a `double` one (argsparser.h:257). That exception is not
  modelled.
- Remux: an `argc < 3` check (remuxing.cpp:9), failures of stream creation or
  writing, and timestamp rescaling are left out. Packets are given by stream
  index and payload.
- ComplexFilterCli: everything after the argument scan (decoders, the filter
  graph, the encoder) is left out.
- RingBuffers.RingBuffer.WritePtr and RingBuffers.RingBuffer.Defrag: the class
  uses the repaired versions; the lines as written are modelled by
  `WritePtrGrantAsWritten` and `DefragAsWritten`, with the findings below.
- RingBuffers.RingBuffer.ContinuousFree: the class uses the repaired test; the
  line as written is `ContinuousFreeAsWritten`, with the finding below.
- The older player variants (07, 08, 10) repeat the same drain and pacing
  lines and are not modelled separately.

## Findings

| source | as written | input that shows it | evidently intended | confidence | as-written member | corrected member |
|---|---|---|---|---|---|---|
| utils/ringbuffer.h:94-96 | `defrag` sets `w_idx_ = size`, which is `max_size_` for a full buffer | full buffer with `r = w = x`: after `defrag`, `w_idx_ == max_size_`; reading all bytes resets `r` to 0, and `size()` again reports `max_size` already-read bytes | `w_idx_ = size % max_size_` | not executed; high | RingBuffers.DefragAsWrittenReplaysDrainedBytes | RingBuffers.DefragCursors |
| utils/ringbuffer.h:164 | `continuous_free` tests `r_idx_ < w_idx_` | capacity 8, `r = 2, w = 5`: true, yet only 3 of the 5 free bytes are contiguous; `r = 5, w = 2`: false, yet all 3 free bytes are | `r_idx_ > w_idx_` | not executed; high | RingBuffers.ContinuousFreeAsWrittenMisjudges | RingBuffers.RingBuffer.ContinuousFree |
| utils/ringbuffer.h:53 | `write_ptr` clamps to `continuous_free_size_wo_lock()`, which ignores `full_` | full buffer with `r = w = x > 0`: grants `max_size − x` live bytes, then `full_` holds with `r ≠ w` | clamp to the public `continuous_free_size()`, 0 when full | not executed; medium | RingBuffers.WritePtrAsWrittenOverwritesLiveBytes | RingBuffers.RingBuffer.WritePtr |
| 09_media_player/player/mediadecoder.cpp:438 | `nb_samples * AV_TIME_BASE` is an `int` product | 4096 samples at 48000 Hz: −4145 µs instead of 85333 µs | a 64-bit product | not executed; high | Player.FrameDurationOverflows | Player.FrameDurationUs |
| 05_complex_filter/complex_filter.cpp:7-43 | `argc < 4` admits a single `-i` | `complex_filter -i in.mp4 out.mp4` passes the scan; `filter.create` at line 43 then links the graph's second input to `buffersrc_ctxs_[1]` (filter_graph.h:67), which does not exist | require two inputs and an output | not executed; high | ComplexFilterCli.ArgcGuardAdmitsOneInput | ComplexFilterCli.SplitArgsChecked |
