/** The C core's callbacks and `close` as programs on the shared state, with the other actors in between. */
module Callbacks {
  import opened Wrappers
  import opened DecodeUnits
  import opened Session
  import opened World

  /**
   `dr_submit`: walk the list, read the format, and hand the unit over under the sink's lock. `buffers`
   is what the list holds. The unit sent is the one the run records, built with the format stored at
   `loaded`, and it gets through exactly if the sink is installed at `sent`.
   */
  method DrSubmit(w: Shared, du: DecodeUnit?, buffers: seq<Buffer>)
    returns (unit: Option<VideoUnit>, ghost loaded: nat, ghost sent: nat)
    requires w.Valid() && w.s.core.Outside?
    requires du != null ==> Holds(du.bufferList, buffers) && AllReadable(buffers)
    modifies w
    ensures w.Valid() && w.Grown() && w.s.core.Outside?
    ensures du == null ==> unit == None && w.s.submissions == old(w.s.submissions)
    ensures du != null ==>
              && |old(w.actions)| <= loaded < sent < |w.actions|
              && w.actions[loaded].LoadFormat? && w.actions[sent].Send?
              && unit == Some(UnitOf(buffers, du.frameType, w.states[loaded].format))
              && w.s.submissions == old(w.s.submissions) + [Submission(unit.value, w.states[sent].sink)]
  {
    unit, loaded, sent := None, 0, 0;
    if du == null { return; }
    var _ := w.Act(Submit(buffers, du.frameType));
    var data := Walk(du.bufferList, buffers);
    var codec;
    codec, loaded := LoadCodec(w);
    var keyFrame := du.frameType == FRAME_TYPE_IDR;
    unit := Some(VideoUnit(codec, keyFrame, data));
    sent := w.Act(Send);
  }

  /** The load of the negotiated format, and the codec it stands for. */
  method LoadCodec(w: Shared) returns (codec: VideoCodec, ghost loaded: nat)
    requires w.Valid() && w.s.core.Reassembled? && AllReadable(w.s.core.buffers)
    modifies w
    ensures w.Valid() && w.Grown() && w.s.submissions == old(w.s.submissions)
    ensures |old(w.actions)| <= loaded == |w.actions| - 1 && w.actions[loaded].LoadFormat?
    ensures var core := old(w.s.core);
            && w.s.core == Built(UnitOf(core.buffers, core.frameType, w.states[loaded].format))
            && codec == w.s.core.unit.codec
  {
    w.Others(TheDecoder);
    var format := w.s.format;
    codec := if format / VIDEO_FORMAT_H265 % 2 == 1 then Hevc else H264;
    loaded := |w.actions|;
    w.Take(LoadFormat);
  }

  /** `stop_stream`, as `close` calls it. The sink is gone at `cleared`. */
  method StopStream(w: Shared) returns (ghost cleared: nat)
    requires w.Valid() && w.s.closer.NotClosing?
    modifies w
    ensures w.Valid() && w.Grown() && w.s.closer.SinkCleared? && w.s.closeCalled
    ensures |old(w.states)| <= cleared < |w.states| && !w.states[cleared].sink
  {
    var _ := w.Act(CloseStopConn);
    cleared := w.Act(CloseClearSink);
    cleared := cleared + 1;
  }

  /** `WorkerHandle::stop` */
  method StopWorker(w: Shared)
    requires w.Valid() && w.s.closer.SinkCleared?
    modifies w
    ensures w.Valid() && w.Grown() && w.s.closer.NotClosing? && w.s.stop && w.s.closeCalled == old(w.s.closeCalled)
  {
    var _ := w.Act(CloseSetFlag);
    var _ := w.Act(CloseReleaseHandle);
  }

  /** `close`: afterwards stop is set, and the sink was gone at `cleared`. */
  method Close(w: Shared) returns (ghost cleared: nat)
    requires w.Valid() && w.s.closer.NotClosing?
    modifies w
    ensures w.Valid() && w.Grown() && w.s.closer.NotClosing? && w.s.stop && w.s.closeCalled
    ensures |old(w.states)| <= cleared < |w.states| && !w.states[cleared].sink
  {
    cleared := StopStream(w);
    StopWorker(w);
  }
}
