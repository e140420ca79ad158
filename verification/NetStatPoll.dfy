/** The traffic poll of the data connection tracker: a runnable that posts itself
    again, and the ping test it ends in when nothing is received any more. */
module NetStatPoll {
  /** posts counts the queued mPollNetStat runnables; a ping test is a running
      thread and later its unhandled result message. */
  datatype Poll = Poll(
    enabled: bool, posts: nat, pingActive: bool, pingThreads: nat, pingResults: nat,
    noRecvPollCount: int, sentSinceLastRecv: int, txPkts: int, rxPkts: int, pdpResetCount: int)

  const STOPPED := Poll(false, 0, false, 0, 0, 0, 0, 0, 0, 0)

  /** What one run reads: packet counters, whether the phone is idle, settings. */
  datatype Reading = Reading(tx: int, rx: int, phoneIdle: bool, trigger: int, limit: int)

  function ResetStats(p: Poll): Poll {
    p.(txPkts := -1, rxPkts := -1, sentSinceLastRecv := 0, noRecvPollCount := 0)
  }

  function Stopped(p: Poll): Poll {
    p.(enabled := false, posts := 0)
  }

  /** The packet statistics, from two counter readings. */
  function Counted(p: Poll, r: Reading): Poll {
    var q := p.(txPkts := r.tx, rxPkts := r.rx);
    if !(p.enabled && (p.txPkts > 0 || p.rxPkts > 0)) then q
    else
      var sent := r.tx - p.txPkts;
      var received := r.rx - p.rxPkts;
      if sent > 0 && received > 0 then q.(sentSinceLastRecv := 0, pdpResetCount := 0)
      else if sent > 0 && received == 0 then
        q.(sentSinceLastRecv := if r.phoneIdle then p.sentSinceLastRecv + sent else 0)
      else if sent == 0 && received > 0 then q.(sentSinceLastRecv := 0, pdpResetCount := 0)
      else if sent == 0 && received == 0 then q
      else q.(sentSinceLastRecv := 0)
  }

  /** mPollNetStat.run, its own post already taken off the queue. */
  function Ran(p: Poll, r: Reading): Poll {
    var q := Counted(p, r);
    var s :=
      if q.sentSinceLastRecv >= r.trigger then
        if q.noRecvPollCount < r.limit then q.(noRecvPollCount := q.noRecvPollCount + 1)
        else Stopped(q).(pingActive := true, pingThreads := q.pingThreads + 1)
      else q.(noRecvPollCount := 0);
    if s.enabled then s.(posts := s.posts + 1) else s
  }

  function Started(p: Poll, connected: bool, r: Reading): Poll {
    if connected && !p.pingActive && !p.enabled then Ran(ResetStats(p).(enabled := true), r) else p
  }

  /** What holds between handlers: one post exactly while polling is enabled, no
      polling during a ping test, one ping test at a time, and the count of polls
      without receiving within the limit. */
  predicate Inv(p: Poll, limit: nat) {
    && p.posts == (if p.enabled then 1 else 0)
    && (p.pingActive ==> !p.enabled)
    && p.pingThreads + p.pingResults == (if p.pingActive then 1 else 0)
    && 0 <= p.noRecvPollCount <= limit
  }

  lemma RanKeeps(p: Poll, r: Reading, limit: nat)
    requires p.enabled && p.posts == 0 && Inv(p.(posts := 1), limit) && r.limit <= limit
    ensures Inv(Ran(p, r), limit)
  {
  }

  lemma StartedKeeps(p: Poll, connected: bool, r: Reading, limit: nat)
    requires Inv(p, limit) && r.limit <= limit
    ensures Inv(Started(p, connected, r), limit)
  {
    if connected && !p.pingActive && !p.enabled {
      RanKeeps(ResetStats(p).(enabled := true), r, limit);
    }
  }

  lemma StoppedKeeps(p: Poll, limit: nat)
    requires Inv(p, limit)
    ensures Inv(Stopped(p), limit)
  {
  }
}
