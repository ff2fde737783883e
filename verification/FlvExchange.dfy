/** Recorder and player put together: what is played is what was recorded. */
module FlvExchange {
  import opened Bytes
  import opened FlvFormat
  import opened FlvRecorder
  import opened FlvPlayer

  /**
   A session is recorded into a new file without limits, and the file is played from its start: sent are the frames of
   the session, with the headers the recorder puts before them, except for those that are not media, are too big or
   are refused; and the player's clients decode the times in the file for as long as nothing is missing.
   */
  method RecordAndPlay(arrivals: seq<Arrival>, accept: nat -> bool) returns (sent: seq<Tag>, ghost clocks: seq<u32>)
    requires Steady(arrivals, 0)
    ensures InOrder(SessionTags(arrivals, 0))
    ensures sent == Kept(SessionTags(arrivals, 0), accept, |SessionTags(arrivals, 0)|)
    ensures |clocks| == |SessionTags(arrivals, 0)| && ClocksRight(SessionTags(arrivals, 0), accept, clocks)
  {
    hide Steady, SessionTags, Recorded, Kept;
    var r := new Recorder(0, 0);
    assert InOrder([]);
    r.Session(arrivals, false);
    assert [] + SessionTags(arrivals, 0) == SessionTags(arrivals, 0);
    sent, clocks := [], [];
    NoneKept(accept);
    if |r.file| > 0 {
      var p := new Player(r.file);
      sent, clocks := p.Play(r.tags, accept);
    }
  }

  lemma NoneKept(accept: nat -> bool)
    ensures Kept([], accept, 0) == []
  {
  }
}
