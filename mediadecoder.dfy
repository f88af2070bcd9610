/**
 * The sequential decisions of the three-thread media player: the master
 * clock, video pacing, timestamp repair, the audio clock, the reader's
 * routing of packets into two bounded queues, the classification of decoder
 * results and the audio thread's ring-buffer drain loop.
 *
 * Threads, sleeps and every FFmpeg call are abstracted: wall-clock readings,
 * rescaled timestamps, decoder return codes and the audio device's answers
 * are parameters. One call of a method is one iteration of a thread loop.
 */
module Player {
  import opened Wrappers
  import opened RingBuffers

  /** Capacity of each packet queue (`BUFFER_SIZE`). */
  const BufferSize: nat := 20

  /** Default `period_size_`: 4096 * 2 bytes. */
  const DefaultPeriodSize: nat := 8192

  /** `AV_TIME_BASE`: microseconds per second. */
  const TimeBase: nat := 1000000

  /** `AV_NOPTS_VALUE`, the smallest 64-bit integer. */
  const NoPts: int := -0x8000_0000_0000_0000

  /** `AVERROR_EOF`, the tag 'EOF ' negated. */
  const ErrorEof: int := -541478725

  /** `AVERROR(EAGAIN)` on Linux. */
  const ErrorAgain: int := -11

  /** Bytes per sample frame after resampling: two channels of 16-bit samples. */
  const BytesPerSampleFrame: nat := 4

  /** The frame size reported when there is no video decoder. */
  const DefaultWidth: int := 480
  const DefaultHeight: int := 360

  /** The smallest ring the audio thread allocates, per half. */
  const MinRingHalf: nat := 4096

  // ---------------------------------------------------------------------
  // Clocks and timestamps
  // ---------------------------------------------------------------------

  /**
   * `clock_us()`: without an audio stream, the wall time elapsed since the
   * first packet; with one, the last published audio position advanced by
   * the wall time since it was published, never below 0.
   */
  function MasterClockUs(audioStreamIndex: int, audioClock: int, audioClockTs: int, firstPts: int, now: int): (c: int)
    ensures audioStreamIndex >= 0 ==> c >= 0 && c >= audioClock + (now - audioClockTs)
    ensures audioStreamIndex >= 0 && audioClock + (now - audioClockTs) >= 0 ==> c == audioClock + (now - audioClockTs)
    ensures audioStreamIndex < 0 ==> c == now - firstPts
  {
    if audioStreamIndex < 0 then now - firstPts else Max(0, audioClock + now - audioClockTs)
  }

  /** For a fixed published audio clock, the master clock never runs backwards. */
  lemma MasterClockMonotone(audioStreamIndex: int, audioClock: int, audioClockTs: int, firstPts: int, t1: int, t2: int)
    requires t1 <= t2
    ensures MasterClockUs(audioStreamIndex, audioClock, audioClockTs, firstPts, t1)
         <= MasterClockUs(audioStreamIndex, audioClock, audioClockTs, firstPts, t2)
  {
  }

  /**
   * The sleep before a video frame is shown: how far its timestamp is ahead
   * of the clock, at least 0 and at most one second.
   */
  function PacingSleepUs(ptsUs: int, clockUs: int): (d: int)
    ensures 0 <= d <= TimeBase
    ensures d == 0 <==> ptsUs <= clockUs
    ensures ptsUs - clockUs <= TimeBase ==> d == Max(0, ptsUs - clockUs)
    ensures ptsUs - clockUs >= TimeBase ==> d == TimeBase
  {
    Min(Max(0, ptsUs - clockUs), TimeBase)
  }

  /** A frame that is at most one second early is shown no earlier than its timestamp, and a late one at once. */
  lemma PacingReachesTimestamp(ptsUs: int, clockUs: int)
    requires ptsUs - clockUs <= TimeBase
    ensures clockUs + PacingSleepUs(ptsUs, clockUs) >= ptsUs
    ensures ptsUs <= clockUs ==> PacingSleepUs(ptsUs, clockUs) == 0
  {
  }

  /**
   * Timestamp repair of a decoded frame: a frame without a timestamp gets
   * the time elapsed since the first packet, given here already rescaled to
   * the stream time base; any other timestamp is shifted by the stream's
   * start time.
   */
  function RepairPts(pts: int, startTime: int, elapsedInStreamBase: int): (r: int)
    ensures pts == NoPts ==> r == elapsedInStreamBase
    ensures pts != NoPts ==> r + startTime == pts
  {
    if pts == NoPts then elapsedInStreamBase else pts - startTime
  }

  /** Repair keeps the order of two stamped frames of one stream. */
  lemma RepairPtsKeepsOrder(p1: int, p2: int, startTime: int, e1: int, e2: int)
    requires p1 != NoPts && p2 != NoPts
    ensures p1 <= p2 <==> RepairPts(p1, startTime, e1) <= RepairPts(p2, startTime, e2)
  {
  }

  /** The duration of `nbSamples` samples at `sampleRate` Hz, in microseconds, rounded down, in 64-bit arithmetic. */
  function FrameDurationUs(nbSamples: nat, sampleRate: nat): (d: nat)
    requires sampleRate > 0
    ensures d * sampleRate <= nbSamples * TimeBase < (d + 1) * sampleRate
  {
    nbSamples * TimeBase / sampleRate
  }

  /** The duration of `bytes` bytes of resampled audio (4 bytes per sample frame), in microseconds, rounded down. */
  function BufferedDurationUs(bytes: nat, sampleRate: nat): (d: nat)
    requires sampleRate > 0
    ensures d * (BytesPerSampleFrame * sampleRate) <= bytes * TimeBase < (d + 1) * (BytesPerSampleFrame * sampleRate)
  {
    bytes * TimeBase / (BytesPerSampleFrame * sampleRate)
  }

  /**
   * The audio clock published after a frame: the position of the end of the
   * frame minus the duration of the audio still waiting, in the sink and in
   * the ring.
   */
  function AudioClockUs(ptsUs: int, nbSamples: nat, sampleRate: nat, sinkBuffered: nat, ringSize: nat): (c: int)
    requires sampleRate > 0
    ensures c <= ptsUs + FrameDurationUs(nbSamples, sampleRate)
    ensures sinkBuffered + ringSize == 0 ==> c == ptsUs + FrameDurationUs(nbSamples, sampleRate)
  {
    ptsUs + FrameDurationUs(nbSamples, sampleRate) - BufferedDurationUs(sinkBuffered + ringSize, sampleRate)
  }

  /** Multiplying by a positive number keeps a strict order, so it can be cancelled. */
  lemma CancelFactor(x: int, y: int, d: int)
    requires d > 0 && x * d < y * d
    ensures x < y
  {
  }

  /** `a / d` is monotone in `a`. */
  lemma DivMonotone(a: nat, b: nat, d: nat)
    requires a <= b && d > 0
    ensures a / d <= b / d
  {
    var qa, qb := a / d, b / d;
    assert qa * d <= a;
    assert b < (qb + 1) * d;
    CancelFactor(qa, qb + 1, d);
  }

  /** The more audio is still buffered, the earlier the published clock. */
  lemma AudioClockFallsAsBufferGrows(ptsUs: int, nbSamples: nat, sampleRate: nat, s1: nat, r1: nat, s2: nat, r2: nat)
    requires sampleRate > 0 && s1 + r1 <= s2 + r2
    ensures AudioClockUs(ptsUs, nbSamples, sampleRate, s2, r2) <= AudioClockUs(ptsUs, nbSamples, sampleRate, s1, r1)
  {
    assert (s1 + r1) * TimeBase <= (s2 + r2) * TimeBase;
    DivMonotone((s1 + r1) * TimeBase, (s2 + r2) * TimeBase, BytesPerSampleFrame * sampleRate);
  }

  /** A signed 32-bit `int` result: `x` reduced into [-2^31, 2^31) as two's complement hardware wraps it. */
  function WrapInt32(x: int): (y: int)
    ensures -0x8000_0000 <= y < 0x8000_0000
    ensures -0x8000_0000 <= x < 0x8000_0000 ==> y == x
  {
    (x + 0x8000_0000) % 0x1_0000_0000 - 0x8000_0000
  }

  /** C++ division of integers, which truncates toward zero. */
  function DivTrunc(a: int, b: int): (q: int)
    requires b > 0
    ensures a >= 0 ==> q == a / b
    ensures a < 0 ==> q == -((-a) / b)
  {
    if a >= 0 then a / b else -((-a) / b)
  }

  /**
   * `frame_duration` as the source computes it: `nb_samples * AV_TIME_BASE`
   * is a product of two `int`s, so it is reduced to 32 bits before the
   * division.
   */
  function FrameDurationAsWritten(nbSamples: nat, sampleRate: nat): (d: int)
    requires sampleRate > 0
    ensures nbSamples * TimeBase < 0x8000_0000 ==> d == FrameDurationUs(nbSamples, sampleRate)
  {
    DivTrunc(WrapInt32(nbSamples * TimeBase), sampleRate)
  }

  /**
   * A 4096-sample frame at 48 kHz lasts 85333 us, but the 32-bit product
   * wraps and the source computes -4145 us, moving the audio clock back.
   */
  lemma FrameDurationOverflows()
    ensures FrameDurationUs(4096, 48000) == 85333
    ensures FrameDurationAsWritten(4096, 48000) == -4145
  {
    assert WrapInt32(4096 * TimeBase) == -198967296;
  }

  // ---------------------------------------------------------------------
  // Decoder results
  // ---------------------------------------------------------------------

  /** What a thread does with the result of `avcodec_receive_frame`. */
  datatype ReceiveClass = FrameReady | NeedPacket | EndOfStream | DecodeError

  /** EAGAIN asks for the next packet, EOF ends the thread after a flush, any other negative value ends it, the rest is a frame. */
  function ClassifyReceive(ret: int): (k: ReceiveClass)
    ensures k == FrameReady <==> ret >= 0
    ensures k == NeedPacket <==> ret == ErrorAgain
    ensures k == EndOfStream <==> ret == ErrorEof
    ensures k == DecodeError <==> ret < 0 && ret != ErrorAgain && ret != ErrorEof
  {
    if ret == ErrorAgain then NeedPacket
    else if ret == ErrorEof then EndOfStream
    else if ret < 0 then DecodeError
    else FrameReady
  }

  /** How the receive loop of one packet ends: back to the queue, the thread ends, or the given results ran out. */
  datatype LoopExit = PopNext | ThreadEnd(eof: bool) | RepliesExhausted

  /** Frames taken from the decoder and how the loop ends. */
  datatype ReceiveRun = ReceiveRun(frames: nat, exit: LoopExit)

  /** The receive loop over a sequence of decoder results, as a recursive definition. */
  function ReceiveSpec(replies: seq<int>): (run: ReceiveRun)
    ensures run.frames <= |replies|
  {
    if replies == [] then ReceiveRun(0, RepliesExhausted)
    else match ClassifyReceive(replies[0])
      case NeedPacket => ReceiveRun(0, PopNext)
      case EndOfStream => ReceiveRun(0, ThreadEnd(true))
      case DecodeError => ReceiveRun(0, ThreadEnd(false))
      case FrameReady =>
        var rest := ReceiveSpec(replies[1..]);
        ReceiveRun(rest.frames + 1, rest.exit)
  }

  /**
   * The loop takes every result up to the first negative one as a frame,
   * and that result alone decides the exit: EAGAIN goes back to the queue,
   * EOF and errors end the thread.
   */
  lemma {:induction false} ReceiveSpecStopsAtFirstNegative(replies: seq<int>)
    ensures var run := ReceiveSpec(replies);
            (forall j :: 0 <= j < run.frames ==> replies[j] >= 0) &&
            (run.exit == RepliesExhausted <==> run.frames == |replies|) &&
            (run.frames < |replies| ==>
              (replies[run.frames] < 0 &&
               run.exit == (if replies[run.frames] == ErrorAgain then PopNext
                            else ThreadEnd(replies[run.frames] == ErrorEof))))
  {
    if replies != [] && replies[0] >= 0 {
      ReceiveSpecStopsAtFirstNegative(replies[1..]);
    }
  }

  /**
   * One packet's decode: a failed `avcodec_send_packet` goes straight back
   * to the queue; otherwise frames are received until a negative result.
   */
  method ReceiveFrames(sendRet: int, replies: seq<int>) returns (frames: nat, exit: LoopExit)
    ensures sendRet < 0 ==> frames == 0 && exit == PopNext
    ensures sendRet >= 0 ==> ReceiveRun(frames, exit) == ReceiveSpec(replies)
  {
    if sendRet < 0 {
      return 0, PopNext;
    }
    frames := 0;
    while frames < |replies|
      invariant frames <= |replies|
      invariant ReceiveSpec(replies) == ReceiveRun(frames + ReceiveSpec(replies[frames..]).frames, ReceiveSpec(replies[frames..]).exit)
    {
      var k := ClassifyReceive(replies[frames]);
      if k == NeedPacket {
        return frames, PopNext;
      } else if k == EndOfStream {
        return frames, ThreadEnd(true);
      } else if k == DecodeError {
        return frames, ThreadEnd(false);
      }
      assert replies[frames..][1..] == replies[frames + 1..];
      frames := frames + 1;
    }
    exit := RepliesExhausted;
  }

  // ---------------------------------------------------------------------
  // Packet queues and the reader
  // ---------------------------------------------------------------------

  /** A demuxed packet, or the empty packet that puts a decoder into draining mode. */
  datatype Packet = Media(streamIndex: int, pts: int) | Flush

  /**
   * The bounded packet FIFO between the reader and a decoder thread, seen
   * only through push, pop, full, empty and clear. Its storage is not part
   * of this model.
   */
  class PacketQueue {
    var items: seq<Packet>

    ghost predicate Valid()
      reads this
    {
      |items| <= BufferSize
    }

    constructor ()
      ensures Valid() && items == []
    {
      items := [];
    }

    predicate Full()
      reads this
    {
      |items| >= BufferSize
    }

    predicate Empty()
      reads this
    {
      items == []
    }

    method Push(p: Packet)
      requires Valid() && !Full()
      modifies this
      ensures Valid() && items == old(items) + [p]
    {
      items := items + [p];
    }

    /** Takes the oldest packet; an empty queue yields nothing. */
    method Pop() returns (p: Option<Packet>)
      requires Valid()
      modifies this
      ensures Valid()
      ensures old(items) == [] ==> p == None && items == []
      ensures old(items) != [] ==> p == Some(old(items)[0]) && items == old(items)[1..]
    {
      if items == [] {
        return None;
      }
      p := Some(items[0]);
      items := items[1..];
    }

    method Clear()
      modifies this
      ensures Valid() && items == []
    {
      items := [];
    }
  }

  /** What `av_read_frame` produced: a packet, or a negative code with the I/O end-of-file flag. */
  datatype ReadResult = Read(streamIndex: int, pts: int) | ReadFailed(ret: int, ioEof: bool)

  /** The end of one reader iteration. */
  datatype ReaderStep = NotRunning | PausedWait | Backoff | Queued | Discarded | Flushed | ReadError

  /** The reader thread ends after these steps. */
  predicate EndsReader(s: ReaderStep)
  {
    s == NotRunning || s == Flushed || s == ReadError
  }

  /** Width and height of the opened video decoder. */
  datatype Dims = Dims(width: int, height: int)

  /** The audio callback: the default one, or the player's sink (which plays through `read_ptr`). */
  datatype AudioCallback = DefaultCallback | PlayerSink

  /** Every field of a `MediaDecoder` except its two queues, as one value. */
  datatype DecoderFields = DecoderFields(
    isOpen: bool, running: bool, paused: bool,
    videoStreamIndex: int, audioStreamIndex: int, videoCodec: Option<Dims>,
    periodSize: nat, firstPts: int, audioClock: int, audioClockTs: int,
    audioCallback: AudioCallback)

  /** The fields `close()` leaves: stopped, not opened, not paused, no first pts and no video decoder. */
  function Closed(f: DecoderFields): DecoderFields
  {
    f.(isOpen := false, running := false, paused := false, firstPts := NoPts, videoCodec := None)
  }

  /** The fields `open()` starts from: a running or opened decoder is closed first. */
  function Reopened(f: DecoderFields): DecoderFields
  {
    if f.running || f.isOpen then Closed(f) else f
  }

  /** The decoder's state: lifecycle flags, stream choice, clocks and the two packet queues. */
  class MediaDecoder {
    var isOpen: bool
    var running: bool
    var paused: bool
    var videoStreamIndex: int
    var audioStreamIndex: int
    var videoCodec: Option<Dims>
    var periodSize: nat
    var firstPts: int
    var audioClock: int
    var audioClockTs: int
    var audioCallback: AudioCallback
    const videoQueue: PacketQueue
    const audioQueue: PacketQueue

    ghost predicate Valid()
      reads this, videoQueue, audioQueue
    {
      videoQueue != audioQueue && videoQueue.Valid() && audioQueue.Valid()
    }

    /** All fields but the queues. */
    function Fields(): DecoderFields
      reads this
    {
      DecoderFields(isOpen, running, paused, videoStreamIndex, audioStreamIndex, videoCodec,
                    periodSize, firstPts, audioClock, audioClockTs, audioCallback)
    }

    constructor ()
      ensures Valid() && fresh(videoQueue) && fresh(audioQueue)
      ensures !isOpen && !running && !paused
      ensures videoStreamIndex == -1 && audioStreamIndex == -1 && videoCodec == None
      ensures periodSize == DefaultPeriodSize && firstPts == NoPts
      ensures audioClock == 0 && audioClockTs == 0 && audioCallback == DefaultCallback
      ensures videoQueue.items == [] && audioQueue.items == []
    {
      isOpen, running, paused := false, false, false;
      videoStreamIndex, audioStreamIndex, videoCodec := -1, -1, None;
      periodSize, firstPts := DefaultPeriodSize, NoPts;
      audioClock, audioClockTs, audioCallback := 0, 0, DefaultCallback;
      videoQueue := new PacketQueue();
      audioQueue := new PacketQueue();
    }

    /** `width()`: the video decoder context's width, 480 while there is no context. */
    function Width(): (w: int)
      reads this
      ensures videoCodec.None? ==> w == DefaultWidth
      ensures videoCodec.Some? ==> w == videoCodec.value.width
    {
      if videoCodec.Some? then videoCodec.value.width else DefaultWidth
    }

    /** `height()`: the video decoder context's height, 360 while there is no context. */
    function Height(): (h: int)
      reads this
      ensures videoCodec.None? ==> h == DefaultHeight
      ensures videoCodec.Some? ==> h == videoCodec.value.height
    {
      if videoCodec.Some? then videoCodec.value.height else DefaultHeight
    }

    /** `clock_us()` at wall time `now`. */
    function ClockUs(now: int): int
      reads this
    {
      MasterClockUs(audioStreamIndex, audioClock, audioClockTs, firstPts, now)
    }

    /**
     * `close()` without its joins and frees: stops, forgets the first
     * timestamp, empties both queues and frees the video decoder context,
     * so that `width()` and `height()` fall back to 480×360.
     */
    method Close()
      requires Valid()
      modifies this, videoQueue, audioQueue
      ensures Valid() && !running && !isOpen && !paused && firstPts == NoPts
      ensures Width() == DefaultWidth && Height() == DefaultHeight
      ensures videoQueue.items == [] && audioQueue.items == []
      ensures Fields() == Closed(old(Fields()))
    {
      running, isOpen, paused := false, false, false;
      firstPts := NoPts;
      videoQueue.Clear();
      audioQueue.Clear();
      videoCodec := None;
    }

    /**
     * `open()` with FFmpeg's answers as parameters. A running or opened
     * decoder is closed first. `probed` says whether allocating the format
     * context, finding the input format, opening the input and reading the
     * stream information all succeeded; only then are `video` and `audio`,
     * the best stream indices (negative when absent), recorded, and opening
     * fails when there is neither. With a video stream, `videoDecoder` says
     * whether a decoder was found and `videoCtx` is the context allocated
     * for it (None when allocation failed), with the frame size the set-up
     * leaves in it. `decodersReady` says whether the remaining steps
     * succeeded: the codec parameters, opening both decoders, the filter
     * graph and the resampler.
     */
    method Open(probed: bool, video: int, audio: int, videoDecoder: bool, videoCtx: Option<Dims>,
                decodersReady: bool) returns (ok: bool)
      requires Valid()
      modifies this, videoQueue, audioQueue
      ensures Valid() && !running
      ensures ok <==> probed && (video >= 0 || audio >= 0) &&
                      (video >= 0 ==> videoDecoder && videoCtx.Some?) && decodersReady
      ensures isOpen == ok
      ensures !probed ==> Fields() == Reopened(old(Fields()))
      ensures probed ==> Fields() == Reopened(old(Fields())).(
                videoStreamIndex := video, audioStreamIndex := audio, isOpen := ok,
                videoCodec := if video >= 0 && videoDecoder then videoCtx else Reopened(old(Fields())).videoCodec)
      ensures ok && video >= 0 ==> Width() == videoCtx.value.width && Height() == videoCtx.value.height
      ensures ok && video < 0 && (old(running) || old(isOpen) || old(videoCodec).None?) ==>
                Width() == DefaultWidth && Height() == DefaultHeight
      ensures old(running) || old(isOpen) ==> videoQueue.items == [] && audioQueue.items == []
      ensures !old(running) && !old(isOpen) ==> unchanged(videoQueue, audioQueue)
    {
      if running || isOpen {
        Close();
      }
      if !probed {
        return false;
      }
      videoStreamIndex, audioStreamIndex := video, audio;
      if video < 0 && audio < 0 {
        return false;
      }
      if video >= 0 {
        if !videoDecoder {
          return false;
        }
        videoCodec := videoCtx;
        if videoCtx.None? {
          return false;
        }
      }
      if !decodersReady {
        return false;
      }
      isOpen := true;
      ok := true;
    }

    /** `start()`: only an opened decoder that is not running starts; the three threads are not part of this model. */
    method Start()
      modifies this
      ensures old(!isOpen || running) ==> Fields() == old(Fields())
      ensures old(isOpen && !running) ==> Fields() == old(Fields()).(running := true)
    {
      if !isOpen || running {
        return;
      }
      running := true;
    }

    method Pause()
      modifies this
      ensures Fields() == old(Fields()).(paused := true)
    {
      paused := true;
    }

    method Resume()
      modifies this
      ensures Fields() == old(Fields()).(paused := false)
    {
      paused := false;
    }

    method SetPeriodSize(size: nat)
      modifies this
      ensures Fields() == old(Fields()).(periodSize := size)
    {
      periodSize := size;
    }

    method SetAudioCallback(cb: AudioCallback)
      modifies this
      ensures Fields() == old(Fields()).(audioCallback := cb)
    {
      audioCallback := cb;
    }

    /** The reader may call `av_read_frame` now: running, not paused, and neither queue full. */
    predicate CanRead()
      reads this, videoQueue, audioQueue
    {
      running && !paused && !videoQueue.Full() && !audioQueue.Full()
    }

    /**
     * One iteration of `read_thread_f` at wall time `now`, where `next` is
     * what `av_read_frame` would return. Nothing is read unless `CanRead()`.
     * At the end of input one flush packet goes into each queue; a packet of
     * the video or audio stream goes into its queue and any other packet is
     * dropped; the first packet read fixes `firstPts`.
     */
    method ReadStep(now: int, next: ReadResult) returns (step: ReaderStep)
      requires Valid()
      modifies this, videoQueue, audioQueue
      ensures Valid()
      ensures Fields() == old(Fields()).(firstPts := firstPts)
      ensures !old(CanRead()) ==> unchanged(this, videoQueue, audioQueue)
      ensures !old(CanRead()) ==> step == if !running then NotRunning else if paused then PausedWait else Backoff
      ensures old(CanRead()) && next.ReadFailed? ==>
                step == (if next.ret == ErrorEof || next.ioEof then Flushed else ReadError) &&
                firstPts == old(firstPts) &&
                videoQueue.items == old(videoQueue.items) + (if step == Flushed then [Flush] else []) &&
                audioQueue.items == old(audioQueue.items) + (if step == Flushed then [Flush] else [])
      ensures old(CanRead()) && next.Read? ==>
                firstPts == (if old(firstPts) == NoPts then now else old(firstPts)) &&
                videoQueue.items == old(videoQueue.items) +
                  (if next.streamIndex == videoStreamIndex then [Media(next.streamIndex, next.pts)] else []) &&
                audioQueue.items == old(audioQueue.items) +
                  (if next.streamIndex != videoStreamIndex && next.streamIndex == audioStreamIndex
                   then [Media(next.streamIndex, next.pts)] else []) &&
                step == (if next.streamIndex == videoStreamIndex || next.streamIndex == audioStreamIndex
                         then Queued else Discarded)
    {
      if !running {
        return NotRunning;
      }
      if paused {
        return PausedWait;
      }
      if videoQueue.Full() || audioQueue.Full() {
        return Backoff;
      }
      match next {
        case ReadFailed(ret, ioEof) =>
          if ret == ErrorEof || ioEof {
            videoQueue.Push(Flush);
            audioQueue.Push(Flush);
            return Flushed;
          }
          return ReadError;
        case Read(index, pts) =>
          firstPts := if firstPts == NoPts then now else firstPts;
          if index == videoStreamIndex {
            videoQueue.Push(Media(index, pts));
            step := Queued;
          } else if index == audioStreamIndex {
            audioQueue.Push(Media(index, pts));
            step := Queued;
          } else {
            step := Discarded;
          }
      }
    }

    /** Publishes the audio clock computed by the audio thread, stamped with the wall time. */
    method PublishAudioClock(clock: int, now: int)
      modifies this
      ensures Fields() == old(Fields()).(audioClock := clock, audioClockTs := now)
      ensures audioStreamIndex >= 0 ==> ClockUs(now) == Max(0, clock)
    {
      audioClock, audioClockTs := clock, now;
    }
  }

  // ---------------------------------------------------------------------
  // The audio thread's ring buffer
  // ---------------------------------------------------------------------

  /** One answer of the audio device to the sink: free room before the write and bytes buffered after it. */
  datatype SinkReply = SinkReply(freeBytes: int, bufferedAfter: nat)

  /** The bytes the player's sink plays over these replies: a period for each one that leaves room for a period. */
  function RoomyBytes(replies: seq<SinkReply>, period: nat): (n: nat)
    ensures n <= period * |replies|
  {
    if replies == [] then 0
    else RoomyBytes(replies[..|replies| - 1], period) + (if replies[|replies| - 1].freeBytes >= period then period else 0)
  }

  /** Counting one more reply. */
  lemma RoomyBytesStep(replies: seq<SinkReply>, used: nat, period: nat)
    requires used < |replies|
    ensures RoomyBytes(replies[..used + 1], period)
         == RoomyBytes(replies[..used], period) + (if replies[used].freeBytes >= period then period else 0)
  {
    assert replies[..used + 1][..used] == replies[..used];
  }

  /** Bytes played so far, then bytes played now, then what is left. */
  lemma PlayedAppend(played: seq<Byte>, out: seq<Byte>, left: seq<Byte>, rest: seq<Byte>)
    requires out + left == rest
    ensures played + out + left == played + rest
  {
  }

  /**
   * The ring holds whole periods exactly when the period is at least half
   * the smallest ring or divides 8192 bytes.
   */
  lemma RingHoldsWholePeriods(period: nat)
    requires 0 < period
    ensures (2 * Max(period, MinRingHalf)) % period == 0 <==> period >= MinRingHalf || (2 * MinRingHalf) % period == 0
  {
    if period >= MinRingHalf {
      assert 2 * period == 2 * period + 0;
    }
  }

  /** Scaling by a positive factor keeps the order of two integers. */
  lemma MulOrder(x: int, y: int, k: nat)
    requires 0 < k
    ensures x <= y <==> x * k <= y * k
  {
    if x > y {
      assert (y + 1) * k <= x * k;
    }
  }

  /** The remainder of `q * p + m` by `p`, for `m < p`, is `m`. */
  lemma ModUnique(q: nat, p: nat, m: nat)
    requires m < p
    ensures (q * p + m) % p == m
  {
    var x := q * p + m;
    var d, r := x / p, x % p;
    assert (d - q) * p == m - r;
    MulOrder(1, d - q, p);
    MulOrder(d - q, -1, p);
  }

  /** On a ring of whole periods an aligned read cursor leaves room for a whole period before the wrap. */
  lemma AlignedGap(r: nat, cap: nat, period: nat)
    requires 0 < period && r < cap && r % period == 0 && cap % period == 0
    ensures r + period <= cap && (r + period) % period == 0
  {
    var a, b := r / period, cap / period;
    assert r == a * period && cap == b * period;
    MulOrder(b, a, period);
    MulOrder(a + 1, b, period);
    ModUnique(a + 1, period, 0);
  }

  /**
   * With a read cursor on a period boundary of a ring made of whole
   * periods, a ring holding a period holds it contiguously, so the drain
   * loop's `defrag` branch is never taken.
   */
  lemma AlignedPeriodIsContiguous(c: Cursors, cap: nat, period: nat)
    requires WellFormed(c, cap) && 0 < period && cap % period == 0 && c.r % period == 0
    requires SizeOf(c, cap) >= period
    ensures ContinuousSizeOf(c, cap) >= period
  {
    AlignedGap(c.r, cap, period);
  }

  /**
   * The sink's `read_ptr(period)` on a contiguous period moves an aligned
   * read cursor to the next period boundary, wrapping to 0 at the end.
   */
  lemma SinkReadKeepsAlignment(c: Cursors, cap: nat, period: nat)
    requires WellFormed(c, cap) && 0 < period && cap % period == 0 && c.r % period == 0
    ensures period <= cap && AdvanceRead(c, cap, period).r % period == 0
    ensures AdvanceRead(ResetIfEmpty(c), cap, period).r % period == 0
  {
    AlignedGap(c.r, cap, period);
    AlignedGap(0, cap, period);
  }

  /**
   * The audio thread's local state: a ring of `2 * max(period, 4096)` bytes
   * for resampled audio and the sink's last reported buffered size.
   */
  class AudioThread {
    const period: nat
    const ring: RingBuffer
    var bufferedSize: nat

    ghost predicate Valid()
      reads this, ring
    {
      ring.Valid() && 0 < period && ring.maxSize == 2 * Max(period, MinRingHalf)
    }

    /** The ring is made of whole periods (`RingHoldsWholePeriods` says for which periods). */
    predicate WholePeriods()
      reads this, ring
    {
      0 < period && ring.maxSize % period == 0
    }

    /** The read cursor sits on a period boundary. */
    ghost predicate Aligned()
      reads this, ring
    {
      0 < period && ring.rIdx % period == 0
    }

    constructor (period: nat)
      requires period > 0
      ensures Valid() && fresh(ring) && fresh(ring.buf)
      ensures this.period == period && ring.Contents() == [] && bufferedSize == 0
      ensures Aligned()
    {
      this.period := period;
      ring := new RingBuffer(2 * Max(period, MinRingHalf));
      bufferedSize := 0;
    }

    /**
     * The audio callback. The default one reports nothing buffered and
     * refuses. The player's sink accepts when the ring holds a contiguous
     * period and the device has room for one, and then plays that period
     * through `read_ptr`; it reports the device's buffered size.
     */
    method Callback(cb: AudioCallback, reply: SinkReply) returns (buffered: nat, ok: bool, out: seq<Byte>)
      requires Valid()
      modifies ring
      ensures Valid()
      ensures cb == DefaultCallback ==> buffered == 0 && !ok
      ensures cb == PlayerSink ==> buffered == reply.bufferedAfter
      ensures cb == PlayerSink ==> (ok <==> old(ring.ContinuousSize()) >= period && reply.freeBytes >= period)
      ensures !ok ==> out == [] && unchanged(ring)
      ensures ok && !old(ring.Empty()) ==> |out| == period && out + ring.Contents() == old(ring.Contents())
      ensures old(Aligned()) && WholePeriods() ==> Aligned()
    {
      if cb == DefaultCallback {
        return 0, false, [];
      }
      buffered := reply.bufferedAfter;
      ok := ring.ContinuousSize() >= period && reply.freeBytes >= period;
      out := [];
      if ok {
        ghost var before := ring.Contents();
        ghost var c := ring.Cur();
        var pos, n := ring.ReadPtr(period);
        out := ring.buf[pos..pos + n];
        if old(Aligned()) && WholePeriods() {
          SinkReadKeepsAlignment(c, ring.maxSize, period);
        }
        assert !EmptyOf(old(ring.Cur())) ==> out + ring.Contents() == before[..n] + before[n..];
      }
    }

    /**
     * One pass of the drain loop on a ring holding at least a period: a
     * `defrag` when the period is not contiguous, then one callback. The
     * player's sink then always finds a contiguous period, so it plays one
     * exactly when the device has room. On a ring of whole periods with the
     * read cursor on a period boundary the `defrag` branch is dead: the
     * period is already contiguous, and the read keeps the cursor aligned.
     */
    method Serve(cb: AudioCallback, reply: SinkReply) returns (buffered: nat, out: seq<Byte>)
      requires Valid() && ring.Size() >= period
      modifies ring, ring.buf
      ensures Valid()
      ensures out + ring.Contents() == old(ring.Contents())
      ensures cb == PlayerSink ==> buffered == reply.bufferedAfter && |out| == if reply.freeBytes >= period then period else 0
      ensures cb == DefaultCallback ==> buffered == 0 && out == []
      ensures old(Aligned()) && WholePeriods() ==> old(ring.ContinuousSize()) >= period && Aligned()
    {
      if Aligned() && WholePeriods() {
        AlignedPeriodIsContiguous(ring.Cur(), ring.maxSize, period);
      }
      if ring.ContinuousSize() < period {
        ring.Defrag();
      }
      var ok;
      buffered, ok, out := Callback(cb, reply);
    }

    /**
     * The drain loop: while the ring holds a period, defragment it when
     * that period is not contiguous and offer it to the callback; the
     * device's answers are `replies`, one per call. The played bytes are
     * the oldest ones, a period per accepting call, and every call with a
     * roomy device accepts, because the callback always finds a contiguous
     * period. The loop ends with less than a period left, or when the
     * answers run out (the source keeps polling). On a ring of whole
     * periods an aligned read cursor stays aligned, so no pass needs
     * `defrag`; otherwise the repaired `RingBuffer.Defrag` is the one used.
     */
    method Drain(cb: AudioCallback, replies: seq<SinkReply>) returns (played: seq<Byte>, used: nat)
      requires Valid()
      modifies this, ring, ring.buf
      ensures Valid()
      ensures used <= |replies|
      ensures played + ring.Contents() == old(ring.Contents())
      ensures cb == PlayerSink ==> |played| == RoomyBytes(replies[..used], period)
      ensures cb == DefaultCallback ==> played == []
      ensures used < |replies| ==> ring.Size() < period
      ensures old(ring.Size()) < period ==> used == 0
      ensures used > 0 ==> bufferedSize == if cb == PlayerSink then replies[used - 1].bufferedAfter else 0
      ensures used == 0 ==> bufferedSize == old(bufferedSize)
      ensures old(Aligned()) && WholePeriods() ==> Aligned()
    {
      ghost var c0 := ring.Contents();
      played, used := [], 0;
      while ring.Size() >= period && used < |replies|
        invariant Valid()
        invariant used <= |replies|
        invariant played + ring.Contents() == c0
        invariant cb == PlayerSink ==> |played| == RoomyBytes(replies[..used], period)
        invariant cb == DefaultCallback ==> played == []
        invariant used > 0 ==> bufferedSize == if cb == PlayerSink then replies[used - 1].bufferedAfter else 0
        invariant used == 0 ==> bufferedSize == old(bufferedSize) && ring.Contents() == c0
        invariant |c0| < period ==> used == 0
        invariant old(Aligned()) && WholePeriods() ==> Aligned()
        decreases |replies| - used
      {
        ghost var rest := ring.Contents();
        var b, out := Serve(cb, replies[used]);
        bufferedSize := b;
        PlayedAppend(played, out, ring.Contents(), rest);
        RoomyBytesStep(replies, used, period);
        played := played + out;
        used := used + 1;
      }
    }

    /**
     * One decoded audio frame: the resampled bytes go into the ring (what
     * does not fit is dropped, as the source ignores `write`'s count), the
     * ring is drained (with the repaired `defrag`, as in `Drain`), and the audio clock is computed from the frame's
     * position and what is still buffered.
     */
    method PlayFrame(cb: AudioCallback, samples: array<Byte>, count: nat, ptsUs: int, nbSamples: nat, sampleRate: nat,
                     replies: seq<SinkReply>)
      returns (played: seq<Byte>, used: nat, clock: int)
      requires Valid() && samples != ring.buf && count <= samples.Length && sampleRate > 0
      modifies this, ring, ring.buf
      ensures Valid()
      ensures played + ring.Contents() == old(ring.Contents()) + samples[..Min(count, old(ring.FreeSize()))]
      ensures used < |replies| ==> ring.Size() < period
      ensures clock == AudioClockUs(ptsUs, nbSamples, sampleRate, bufferedSize, ring.Size())
      ensures old(Aligned()) && WholePeriods() ==> Aligned()
    {
      var _ := ring.Write(samples, count);
      played, used := Drain(cb, replies);
      clock := AudioClockUs(ptsUs, nbSamples, sampleRate, bufferedSize, ring.Size());
    }
  }
}
