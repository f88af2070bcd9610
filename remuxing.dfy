// The stream remapping of the remuxer: input streams that are not video,
// audio or subtitle are dropped, the others are numbered densely in input
// order, and every packet read is dropped or re-addressed accordingly.
// FFmpeg itself (opening, stream creation, timestamp rescaling and
// writing) is outside the model: streams are given by their media types
// and packets by their stream index and payload.

module Remux {

  datatype MediaType = Video | Audio | Subtitle | Data | Attachment | Unknown

  /** The streams the remuxer copies to the output. */
  predicate Kept(t: MediaType) {
    t == Video || t == Audio || t == Subtitle
  }

  /** The kept media types among the first n input streams, in input
    * order: the output streams created for them. */
  function KeptUpTo(types: seq<MediaType>, n: nat): (r: seq<MediaType>)
    requires n <= |types|
    ensures |r| <= n
  {
    if n == 0 then []
    else KeptUpTo(types, n - 1) + (if Kept(types[n - 1]) then [types[n - 1]] else [])
  }

  /** The media types of all output streams. */
  function KeptTypes(types: seq<MediaType>): seq<MediaType> {
    KeptUpTo(types, |types|)
  }

  /** The output index of input stream i, or -1 when it is dropped. */
  function Dest(types: seq<MediaType>, i: nat): int
    requires i < |types|
  {
    if Kept(types[i]) then |KeptUpTo(types, i)| else -1
  }

  /** The output streams of a shorter prefix start those of a longer one. */
  lemma {:induction false} KeptGrow(types: seq<MediaType>, i: nat, j: nat)
    requires i <= j <= |types|
    ensures |KeptUpTo(types, i)| <= |KeptUpTo(types, j)|
    ensures forall k :: 0 <= k < |KeptUpTo(types, i)| ==> KeptUpTo(types, j)[k] == KeptUpTo(types, i)[k]
    decreases j - i
  {
    if i < j {
      KeptGrow(types, i, j - 1);
    }
  }

  /** A kept stream gets an index below the number of output streams, and
    * the output stream at that index has its media type. */
  lemma DestInRange(types: seq<MediaType>, i: nat)
    requires i < |types| && Kept(types[i])
    ensures 0 <= Dest(types, i) < |KeptTypes(types)|
    ensures KeptTypes(types)[Dest(types, i)] == types[i]
  {
    KeptGrow(types, i + 1, |types|);
    assert KeptUpTo(types, i + 1)[Dest(types, i)] == types[i];
  }

  /** Kept streams are numbered in input order with no repeats. */
  lemma DestIncreasing(types: seq<MediaType>, i: nat, j: nat)
    requires i < j < |types| && Kept(types[i]) && Kept(types[j])
    ensures Dest(types, i) < Dest(types, j)
  {
    KeptGrow(types, i + 1, j);
  }

  lemma {:induction false} DestOntoUpTo(types: seq<MediaType>, n: nat, o: nat)
    requires n <= |types| && o < |KeptUpTo(types, n)|
    ensures exists i :: 0 <= i < n && Kept(types[i]) && Dest(types, i) == o
  {
    if o < |KeptUpTo(types, n - 1)| {
      DestOntoUpTo(types, n - 1, o);
    } else {
      assert Dest(types, n - 1) == o;
    }
  }

  /** Every output index 0 .. n-1 is the image of some input stream. */
  lemma DestOnto(types: seq<MediaType>, o: nat)
    requires o < |KeptTypes(types)|
    ensures exists i :: 0 <= i < |types| && Kept(types[i]) && Dest(types, i) == o
  {
    DestOntoUpTo(types, |types|, o);
  }

  /** The stream-mapping loop: `mapping` is stream_mapping (input index
    * to output index or -1), `outTypes` the media types of the output
    * streams created, in creation order. */
  method BuildMapping(types: seq<MediaType>) returns (mapping: map<nat, int>, outTypes: seq<MediaType>)
    ensures forall i: nat :: i in mapping <==> i < |types|
    ensures forall i: nat :: i < |types| ==> mapping[i] == Dest(types, i)
    ensures forall i: nat :: i < |types| ==> (mapping[i] < 0 <==> !Kept(types[i]))
    ensures outTypes == KeptTypes(types)
  {
    mapping := map[];
    outTypes := [];
    var streamIdx := 0;
    var i := 0;
    while i < |types|
      invariant 0 <= i <= |types|
      invariant forall j: nat :: j in mapping <==> j < i
      invariant forall j: nat :: j < i ==> mapping[j] == Dest(types, j)
      invariant outTypes == KeptUpTo(types, i)
      invariant streamIdx == |outTypes|
    {
      if !Kept(types[i]) {
        mapping := mapping[i := -1];
      } else {
        mapping := mapping[i := streamIdx];
        streamIdx := streamIdx + 1;
        // avformat_new_stream + avcodec_parameters_copy: an output stream
        // with the input's parameters, hence its media type
        outTypes := outTypes + [types[i]];
      }
      i := i + 1;
    }
  }

  // ---------------------------------------------------------------------
  // The packet loop
  // ---------------------------------------------------------------------

  datatype Packet = Packet(streamIndex: nat, data: seq<bv8>)

  /** stream_mapping[index]: std::map's operator[] yields 0 for an index
    * it does not hold. */
  function Target(mapping: map<nat, int>, index: nat): (t: int)
    ensures index in mapping ==> t == mapping[index]
    ensures t in mapping.Values || (index !in mapping && t == 0)
  {
    if index in mapping then mapping[index] else 0
  }

  /** Every mapped value is -1 or an output stream index. */
  predicate MappingOk(mapping: map<nat, int>, outputs: nat) {
    forall i :: i in mapping ==> -1 <= mapping[i] < outputs
  }

  /** The packets written for the first n packets read, in order: dropped
    * ones left out, the others re-addressed to their output stream. */
  function Routed(mapping: map<nat, int>, packets: seq<Packet>, n: nat): seq<Packet>
    requires n <= |packets|
  {
    if n == 0 then []
    else
      var p := packets[n - 1];
      var t := Target(mapping, p.streamIndex);
      Routed(mapping, packets, n - 1) + (if t < 0 then [] else [p.(streamIndex := t)])
  }

  /** Whether a packet goes to a video output stream. */
  predicate ToVideo(outTypes: seq<MediaType>, p: Packet) {
    p.streamIndex < |outTypes| && outTypes[p.streamIndex] == Video
  }

  /** The number of written packets that go to a video output stream. */
  function VideoFrames(outTypes: seq<MediaType>, written: seq<Packet>): nat {
    if |written| == 0 then 0
    else
      VideoFrames(outTypes, written[..|written| - 1]) + (if ToVideo(outTypes, written[|written| - 1]) then 1 else 0)
  }

  lemma VideoFramesSnoc(outTypes: seq<MediaType>, written: seq<Packet>, p: Packet)
    ensures VideoFrames(outTypes, written + [p]) ==
      VideoFrames(outTypes, written) + (if ToVideo(outTypes, p) then 1 else 0)
  {
    assert (written + [p])[..|written|] == written;
  }

  /** Every written packet goes to an existing output stream. */
  lemma {:induction false} RoutedInRange(mapping: map<nat, int>, outputs: nat, packets: seq<Packet>, n: nat)
    requires n <= |packets|
    requires MappingOk(mapping, outputs)
    requires forall k :: 0 <= k < |packets| ==> packets[k].streamIndex in mapping || outputs > 0
    ensures forall p :: p in Routed(mapping, packets, n) ==> p.streamIndex < outputs
  {
    if n > 0 {
      RoutedInRange(mapping, outputs, packets, n - 1);
    }
  }

  /** The packet loop: `written` are the packets handed to
    * av_interleaved_write_frame and `frameNumber` the final frame_number.
    * An index the mapping does not hold goes to output stream 0, which
    * must then exist. */
  method RemuxPackets(mapping: map<nat, int>, outTypes: seq<MediaType>, packets: seq<Packet>)
    returns (written: seq<Packet>, frameNumber: int)
    requires MappingOk(mapping, |outTypes|)
    requires forall k :: 0 <= k < |packets| ==> packets[k].streamIndex in mapping || |outTypes| > 0
    ensures written == Routed(mapping, packets, |packets|)
    ensures forall p :: p in written ==> p.streamIndex < |outTypes|
    ensures frameNumber == VideoFrames(outTypes, written)
  {
    written := [];
    frameNumber := 0;
    var k := 0;
    while k < |packets|
      invariant 0 <= k <= |packets|
      invariant written == Routed(mapping, packets, k)
      invariant frameNumber == VideoFrames(outTypes, written)
    {
      var packet := packets[k];
      var target := Target(mapping, packet.streamIndex);
      assert target < |outTypes| by {
        assert packet.streamIndex in mapping || |outTypes| > 0;
      }
      assert Routed(mapping, packets, k + 1) == written + (if target < 0 then [] else [packet.(streamIndex := target)]);
      if target < 0 {
        // dropped stream
      } else {
        packet := packet.(streamIndex := target);
        VideoFramesSnoc(outTypes, written, packet);
        written := written + [packet];
        if outTypes[packet.streamIndex] == Video {
          frameNumber := frameNumber + 1;
        }
      }
      k := k + 1;
    }
    RoutedInRange(mapping, |outTypes|, packets, k);
  }

  // ---------------------------------------------------------------------
  // The two loops together
  // ---------------------------------------------------------------------

  /** The number of the first n packets read that come from a video input
    * stream. */
  function InputVideoPackets(types: seq<MediaType>, packets: seq<Packet>, n: nat): nat
    requires n <= |packets|
    requires forall k :: 0 <= k < |packets| ==> packets[k].streamIndex < |types|
  {
    if n == 0 then 0
    else InputVideoPackets(types, packets, n - 1) + (if types[packets[n - 1].streamIndex] == Video then 1 else 0)
  }

  /** The mapping the remuxer builds sends every stream to -1 or to an
    * output stream. */
  lemma BuiltMappingOk(types: seq<MediaType>, mapping: map<nat, int>)
    requires forall i: nat :: i in mapping <==> i < |types|
    requires forall i: nat :: i < |types| ==> mapping[i] == Dest(types, i)
    ensures MappingOk(mapping, |KeptTypes(types)|)
  {
    forall i | i in mapping
      ensures -1 <= mapping[i] < |KeptTypes(types)|
    {
      if Kept(types[i]) {
        DestInRange(types, i);
      }
    }
  }

  /** With the mapping the remuxer builds, every written packet goes to an
    * existing output stream. */
  lemma BuiltRoutesInRange(types: seq<MediaType>, mapping: map<nat, int>, packets: seq<Packet>)
    requires forall i: nat :: i in mapping <==> i < |types|
    requires forall i: nat :: i < |types| ==> mapping[i] == Dest(types, i)
    requires forall k :: 0 <= k < |packets| ==> packets[k].streamIndex < |types|
    ensures forall p :: p in Routed(mapping, packets, |packets|) ==> p.streamIndex < |KeptTypes(types)|
  {
    BuiltMappingOk(types, mapping);
    RoutedInRange(mapping, |KeptTypes(types)|, packets, |packets|);
  }

  /** With the mapping the remuxer builds, a packet of input stream i is
    * written exactly when stream i is kept, to the output stream of the
    * same media type; so frame_number counts the input's video packets. */
  lemma {:induction false} FramesCountVideoInput(types: seq<MediaType>, mapping: map<nat, int>, packets: seq<Packet>, n: nat)
    requires n <= |packets|
    requires forall i: nat :: i in mapping <==> i < |types|
    requires forall i: nat :: i < |types| ==> mapping[i] == Dest(types, i)
    requires forall k :: 0 <= k < |packets| ==> packets[k].streamIndex < |types|
    ensures VideoFrames(KeptTypes(types), Routed(mapping, packets, n)) == InputVideoPackets(types, packets, n)
  {
    if n > 0 {
      FramesCountVideoInput(types, mapping, packets, n - 1);
      var p := packets[n - 1];
      var prev := Routed(mapping, packets, n - 1);
      if Kept(types[p.streamIndex]) {
        DestInRange(types, p.streamIndex);
        var q := p.(streamIndex := Dest(types, p.streamIndex));
        assert Routed(mapping, packets, n) == prev + [q];
        VideoFramesSnoc(KeptTypes(types), prev, q);
      } else {
        assert Target(mapping, p.streamIndex) == -1;
        assert Routed(mapping, packets, n) == prev;
      }
    }
  }
}
