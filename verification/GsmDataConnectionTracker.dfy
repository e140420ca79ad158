/** The data connection tracker as the object it is: handlers that update its
    fields, each against what the handler does to the tracker as a value. */
module GsmDataConnectionTracker {
  import opened CText
  import opened NetStatPoll
  import opened DataTracker

  class GsmDataConnectionTracker {
    var state: State
    var waitingApns: Option<seq<Apn>>
    var waitingApnsPermanentFailureCountDown: int
    var mActiveApn: Option<Apn>
    var mReconnectIntent: bool
    var mReregisterOnReconnectFailure: bool

    var netStatPollEnabled: bool
    var mPingTestActive: bool
    var mNoRecvPollCount: int
    var sentSinceLastRecv: int
    var txPkts: int
    var rxPkts: int
    var mPdpResetCount: int

    // The world around it: requests, messages and threads it has set off.
    var connecting: bool
    var disconnecting: nat
    var posts: nat
    var pingThreads: nat
    var pingResults: nat
    var alarms: nat
    var reregistered: nat
    var reverts: nat
    ghost var built: nat
    ghost var failures: seq<bool>

    ghost function PollView(): Poll
      reads this
    {
      Poll(netStatPollEnabled, posts, mPingTestActive, pingThreads, pingResults,
           mNoRecvPollCount, sentSinceLastRecv, txPkts, rxPkts, mPdpResetCount)
    }

    ghost function View(): Tracker
      reads this
    {
      Tracker(state, waitingApns, waitingApnsPermanentFailureCountDown, mActiveApn,
              connecting, disconnecting, mReconnectIntent, mReregisterOnReconnectFailure,
              alarms, reregistered, reverts, built, failures, PollView())
    }

    constructor ()
      ensures View() == INIT
    {
      state, waitingApns, waitingApnsPermanentFailureCountDown, mActiveApn := Idle, None, 0, None;
      mReconnectIntent, mReregisterOnReconnectFailure := false, false;
      netStatPollEnabled, mPingTestActive, mNoRecvPollCount, sentSinceLastRecv := false, false, 0, 0;
      txPkts, rxPkts, mPdpResetCount := 0, 0, 0;
      connecting, disconnecting, posts, pingThreads, pingResults := false, 0, 0, 0, 0;
      alarms, reregistered, reverts, built, failures := 0, 0, 0, 0, [];
    }

    method SetState(s: State)
      modifies this`state, this`waitingApns
      ensures View() == WithState(old(View()), s)
    {
      if state != s {
        state := s;
      }
      if state == Failed {
        if waitingApns.Some? {
          waitingApns := Some([]);
        }
      }
    }

    method GotoIdleAndNotifyDataConnection()
      modifies this`state, this`waitingApns, this`mActiveApn
      ensures View() == GoneIdle(old(View()))
    {
      SetState(Idle);
      mActiveApn := None;
    }

    method CleanUpConnection(tearDown: bool)
      modifies this
      ensures View() == CleanedUp(old(View()), tearDown)
    {
      hide View, WithState, GoneIdle, StopPoll;
      ForgetReconnect();
      SetState(Disconnecting);
      var notificationDeferred := TearDown(tearDown);
      StopPolling();
      if !notificationDeferred {
        GotoIdleAndNotifyDataConnection();
      }
    }

    method ForgetReconnect()
      modifies this`mReconnectIntent
      ensures View() == old(View()).(retryIntent := false)
    {
      if mReconnectIntent {
        mReconnectIntent := false;
      }
    }

    /** The pool of connections, which holds one: disconnect or reset it. */
    method TearDown(tearDown: bool) returns (notificationDeferred: bool)
      modifies this`connecting, this`disconnecting
      ensures notificationDeferred == tearDown
      ensures View() == if tearDown then old(View()).(disconnecting := old(View()).disconnecting + 1)
                        else old(View()).(connecting := false, disconnecting := 0)
    {
      if tearDown {
        disconnecting := disconnecting + 1;
      } else {
        connecting, disconnecting := false, 0;
      }
      return tearDown;
    }

    method StopPolling()
      modifies this`netStatPollEnabled, this`posts
      ensures View() == StopPoll(old(View()))
    {
      hide Stopped;
      StopNetStatPoll();
    }

    function GetNextApn(): Option<Apn>
      reads this
    {
      if waitingApns.Some? && waitingApns.value != [] then Some(waitingApns.value[0]) else None
    }

    method SetupData(inactive: bool) returns (r: bool)
      modifies this
      ensures View() == DataTracker.SetupData(old(View()), inactive)
    {
      var apn := GetNextApn();
      if apn.None? {
        return false;
      }
      if !inactive || connecting || disconnecting > 0 {  // findFreePdp() == null
        return false;
      }
      mActiveApn := apn;
      connecting := true;
      SetState(Initing);
      return true;
    }

    method NotifyNoData()
      modifies this`state, this`waitingApns
      ensures View() == WithState(old(View()), Failed)
    {
      SetState(Failed);
    }

    method TrySetupData(e: Setup) returns (r: bool)
      modifies this
      ensures View() == TrySetup(old(View()), e)
    {
      hide WithState, DataTracker.SetupData;
      if (state == Idle || state == Scanning) && e.allowed {
        if state == Idle {
          BuildWaitingApns(e.apns);
          if e.apns == [] {
            NotifyNoData();
            return false;
          }
        }
        r := SetupData(e.inactive);
      } else {
        return false;
      }
    }

    method BuildWaitingApns(apns: seq<Apn>)
      modifies this`waitingApns, this`waitingApnsPermanentFailureCountDown, this`built, this`failures
      ensures View() == Built(old(View()), apns)
    {
      waitingApns := Some(apns);
      waitingApnsPermanentFailureCountDown := |apns|;
      built, failures := |apns|, [];
    }

    method ReconnectAfterFail(e: Retry)
      modifies this`mReconnectIntent, this`mReregisterOnReconnectFailure, this`alarms, this`reregistered, this`reverts
      ensures View() == DataTracker.ReconnectAfterFail(old(View()), e)
    {
      if state == Failed {
        if !e.needed {
          if !e.defaultType {
            reverts := reverts + 1;  // onEnableApn(mRequestedApnType, DISABLED)
            return;
          }
          if !mReregisterOnReconnectFailure {
            mReregisterOnReconnectFailure := true;
            reregistered := reregistered + 1;
            return;
          }
        }
        mReconnectIntent := true;
        alarms := alarms + 1;
      }
    }

    method StartDelayedRetry(e: Retry)
      modifies this
      ensures View() == DataTracker.ReconnectAfterFail(WithState(old(View()), Failed), e)
    {
      NotifyNoData();
      ReconnectAfterFail(e);
    }

    method OnDataSetupComplete(a: Answer) returns (thrown: bool)
      modifies this
      ensures thrown <==> SetupCompleted(old(View()), a).None?
      ensures !thrown ==> Some(View()) == SetupCompleted(old(View()), a)
    {
      match a {
        case Success(reading) =>
          connecting := false;
          NotifyDefaultData(reading);
          return false;
        case Failure(permanent, retry) =>
          thrown := ConnectFailed(permanent, retry);
      }
    }

    method NotifyDefaultData(reading: Reading)
      modifies this
      ensures View() == var c := WithState(old(View()), Connected);
                        c.(poll := Started(c.poll, true, reading), reregisterOnFailure := false)
    {
      hide Started;
      SetState(Connected);
      StartNetStatPoll(reading);
      mReregisterOnReconnectFailure := false;
    }

    /** The failure branch of onDataSetupComplete. */
    method ConnectFailed(permanent: bool, retry: Retry) returns (thrown: bool)
      modifies this
      ensures thrown <==> SetupCompleted(old(View()), Failure(permanent, retry)).None?
      ensures !thrown ==> Some(View()) == SetupCompleted(old(View()), Failure(permanent, retry))
    {
      hide WithState, DataTracker.ReconnectAfterFail, Removed;
      thrown := RemoveFailed(permanent);
      if !thrown {
        if waitingApns.value == [] {
          if waitingApnsPermanentFailureCountDown == 0 {
            NotifyNoData();
          } else {
            StartDelayedRetry(retry);
          }
        } else {
          SetState(Scanning);
        }
      }
    }

    /** thrown: waitingApns.remove(0) found nothing, or no list. */
    method RemoveFailed(permanent: bool) returns (thrown: bool)
      modifies this`connecting, this`waitingApns, this`waitingApnsPermanentFailureCountDown, this`failures
      ensures thrown <==> Waiting(old(View())) == []
      ensures !thrown ==> View() == Removed(old(View()), permanent) && waitingApns.Some?
    {
      connecting := false;
      waitingApnsPermanentFailureCountDown :=
        waitingApnsPermanentFailureCountDown - (if permanent then 1 else 0);
      if waitingApns.None? || waitingApns.value == [] {
        return true;
      }
      waitingApns := Some(waitingApns.value[1..]);
      failures := failures + [permanent];
      return false;
    }

    method OnDisconnectDone(again: bool, e: Setup)
      modifies this
      ensures View() == DisconnectDone(old(View()), again, e)
    {
      hide View, TrySetup, GoneIdle;
      EndDisconnect();
      GotoIdleAndNotifyDataConnection();
      if again {
        var r := TrySetupData(e);
      }
    }

    /** One disconnect is done; with it goes the connect before it. */
    method EndDisconnect()
      modifies this`connecting, this`disconnecting
      ensures View() == old(View()).(connecting := false, disconnecting := Less(old(View()).disconnecting))
    {
      connecting, disconnecting := false, Less(disconnecting);
    }

    // ----- The traffic poll -----

    method ResetPollStats()
      modifies this`txPkts, this`rxPkts, this`sentSinceLastRecv, this`mNoRecvPollCount
      ensures PollView() == ResetStats(old(PollView()))
    {
      txPkts := -1;
      rxPkts := -1;
      sentSinceLastRecv := 0;
      mNoRecvPollCount := 0;
    }

    method StopNetStatPoll()
      modifies this`netStatPollEnabled, this`posts
      ensures PollView() == Stopped(old(PollView()))
    {
      netStatPollEnabled := false;
      posts := 0;  // removeCallbacks
    }

    method StartNetStatPoll(r: Reading)
      modifies this`netStatPollEnabled, this`posts, this`mPingTestActive, this`pingThreads, this`mNoRecvPollCount
      modifies this`sentSinceLastRecv, this`txPkts, this`rxPkts, this`mPdpResetCount
      ensures PollView() == Started(old(PollView()), state == Connected, r)
    {
      hide Ran;
      if state == Connected && !mPingTestActive && !netStatPollEnabled {
        ResetPollStats();
        netStatPollEnabled := true;
        RunPollNetStat(r);
      }
    }

    /** mPollNetStat.run */
    method RunPollNetStat(r: Reading)
      modifies this`netStatPollEnabled, this`posts, this`mPingTestActive, this`pingThreads, this`mNoRecvPollCount
      modifies this`sentSinceLastRecv, this`txPkts, this`rxPkts, this`mPdpResetCount
      ensures PollView() == Ran(old(PollView()), r)
    {
      hide Counted;
      CountPackets(r);
      if sentSinceLastRecv >= r.trigger {
        if mNoRecvPollCount < r.limit {
          mNoRecvPollCount := mNoRecvPollCount + 1;
        } else {
          StopNetStatPoll();
          mPingTestActive := true;
          pingThreads := pingThreads + 1;
        }
      } else {
        mNoRecvPollCount := 0;
      }
      if netStatPollEnabled {
        posts := posts + 1;
      }
    }

    method CountPackets(r: Reading)
      modifies this`txPkts, this`rxPkts, this`sentSinceLastRecv, this`mPdpResetCount
      ensures PollView() == Counted(old(PollView()), r)
    {
      var preTxPkts, preRxPkts := txPkts, rxPkts;
      txPkts, rxPkts := r.tx, r.rx;
      if netStatPollEnabled && (preTxPkts > 0 || preRxPkts > 0) {
        var sent := txPkts - preTxPkts;
        var received := rxPkts - preRxPkts;
        if sent > 0 && received > 0 {
          sentSinceLastRecv := 0;
          mPdpResetCount := 0;
        } else if sent > 0 && received == 0 {
          if r.phoneIdle {
            sentSinceLastRecv := sentSinceLastRecv + sent;
          } else {
            sentSinceLastRecv := 0;
          }
        } else if sent == 0 && received > 0 {
          sentSinceLastRecv := 0;
          mPdpResetCount := 0;
        } else if sent == 0 && received == 0 {
        } else {
          sentSinceLastRecv := 0;
        }
      }
    }

    method DoRecovery(maxPdpReset: int)
      modifies this
      ensures View() == Recovered(old(View()), maxPdpReset)
    {
      if state == Connected {
        if mPdpResetCount < maxPdpReset {
          mPdpResetCount := mPdpResetCount + 1;
          CleanUpConnection(true);
        } else {
          mPdpResetCount := 0;
          reregistered := reregistered + 1;
        }
      }
    }

    // ----- Handlers -----

    lemma InView()
      ensures View().state == state
    {
    }

    method ForgetReregistration()
      modifies this`mReregisterOnReconnectFailure
      ensures View() == old(View()).(reregisterOnFailure := false)
    {
      mReregisterOnReconnectFailure := false;
    }

    method StartPolling(r: Reading)
      modifies this`netStatPollEnabled, this`posts, this`mPingTestActive, this`pingThreads, this`mNoRecvPollCount
      modifies this`sentSinceLastRecv, this`txPkts, this`rxPkts, this`mPdpResetCount
      ensures View() == StartPoll(old(View()), r)
    {
      hide Started;
      StartNetStatPoll(r);
    }

    method ResetPolling()
      modifies this`txPkts, this`rxPkts, this`sentSinceLastRecv, this`mNoRecvPollCount
      ensures View() == old(View()).(poll := ResetStats(old(View()).poll))
    {
      hide ResetStats;
      ResetPollStats();
    }

    method TakePost()
      modifies this`posts
      ensures View() == old(View()).(poll := old(View()).poll.(posts := Less(old(View()).poll.posts)))
    {
      posts := Less(posts);
    }

    method RunPosted(r: Reading)
      modifies this`netStatPollEnabled, this`posts, this`mPingTestActive, this`pingThreads, this`mNoRecvPollCount
      modifies this`sentSinceLastRecv, this`txPkts, this`rxPkts, this`mPdpResetCount
      ensures View() == old(View()).(poll := Ran(old(View()).poll, r))
    {
      hide Ran;
      RunPollNetStat(r);
    }

    method OnResetDone()
      modifies this`connecting, this`disconnecting, this`state, this`waitingApns, this`mActiveApn
      ensures View() == GoneIdle(old(View()).(connecting := false, disconnecting := 0))
    {
      hide GoneIdle;
      connecting, disconnecting := false, 0;
      GotoIdleAndNotifyDataConnection();
    }

    method OnRadioAvailable()
      modifies this
      ensures View() == if old(View()).state != Idle then CleanedUp(old(View()), true) else old(View())
    {
      hide View, CleanedUp;
      InView();
      if state != Idle {
        CleanUpConnection(true);
      }
    }

    method OnRadioOff()
      modifies this
      ensures View() == CleanedUp(old(View()).(reregisterOnFailure := false), false)
    {
      hide View, CleanedUp;
      ForgetReregistration();
      CleanUpConnection(false);
    }

    method OnRecordsLoaded()
      modifies this
      ensures View() == IdleAgain(old(View()))
    {
      hide View, CleanedUp;
      InView();
      if state == Failed {
        CleanUpConnection(false);
      }
    }

    method OnGprsAttached(s: Setup, r: Reading)
      modifies this
      ensures View() == if old(View()).state == Connected then StartPoll(old(View()), r)
                        else TrySetup(IdleAgain(old(View())), s)
    {
      hide View, CleanedUp, TrySetup, StartPoll, IdleAgain;
      InView();
      if state == Connected {
        StartPolling(r);
      } else {
        OnRecordsLoaded();
        var b := TrySetupData(s);
      }
    }

    method OnPsRestrictDisabled(s: Setup, r: Reading)
      modifies this
      ensures View() == if old(View()).state == Connected then StartPoll(old(View()), r)
                        else TrySetup(Unrestricted(old(View())), s)
    {
      hide View, CleanedUp, TrySetup, StartPoll;
      InView();
      if state == Connected {
        StartPolling(r);
      } else {
        if state == Failed {
          CleanUpConnection(false);
          ForgetReregistration();
        }
        var b := TrySetupData(s);
      }
    }

    method OnVoiceCallStarted(concurrent: bool)
      modifies this
      ensures View() == if old(View()).state == Connected && !concurrent then StopPoll(old(View())) else old(View())
    {
      hide View, StopPoll;
      InView();
      if state == Connected && !concurrent {
        StopPolling();
      }
    }

    method OnVoiceCallEnded(concurrent: bool, s: Setup, r: Reading)
      modifies this
      ensures View() == if old(View()).state != Connected then TrySetup(old(View()).(reregisterOnFailure := false), s)
                        else if !concurrent then StartPoll(old(View()), r)
                        else old(View()).(poll := ResetStats(old(View()).poll))
    {
      hide View, TrySetup, StartPoll, ResetStats;
      InView();
      if state == Connected {
        if !concurrent {
          StartPolling(r);
        } else {
          ResetPolling();
        }
      } else {
        ForgetReregistration();
        var b := TrySetupData(s);
      }
    }

    /** onPdpStateChanged, when the active context is no longer listed as active. */
    method OnPdpDropped()
      modifies this
      ensures View() == if old(View()).state == Connected then CleanedUp(old(View()), true) else old(View())
    {
      hide View, CleanedUp;
      InView();
      if state == Connected {
        CleanUpConnection(true);
      }
    }

    /** The receiver for the screen going on or off. */
    method OnScreenChanged(r: Reading)
      modifies this
      ensures View() == StartPoll(StopPoll(old(View())), r)
    {
      hide View, StartPoll, StopPoll;
      StopPolling();
      StartPolling(r);
    }

    /** The message queue runs a posted mPollNetStat. */
    method OnPost(r: Reading)
      modifies this
      ensures View() == old(View()).(poll := Ran(old(View()).poll.(posts := Less(old(View()).poll.posts)), r))
    {
      hide View, Ran;
      TakePost();
      RunPosted(r);
    }

    /** The end of runPingTest, on its own thread. */
    method PingTestEnds(reached: bool)
      modifies this
      ensures View() == PingEnded(old(View()), reached)
    {
      pingThreads := Less(pingThreads);
      if reached {
        mPdpResetCount := 0;
      }
      pingResults := pingResults + 1;
    }

    method TakePingResult()
      modifies this`pingResults, this`mPingTestActive
      ensures View() == Heard(old(View()))
    {
      pingResults := Less(pingResults);
      mPingTestActive := false;
    }

    method OnStartNetStatPoll(r: Reading)
      modifies this
      ensures View() == StartPoll(Heard(old(View())), r)
    {
      hide View, Heard, StartPoll;
      TakePingResult();
      StartPolling(r);
    }

    method OnStartRecovery(maxPdpReset: int)
      modifies this
      ensures View() == Recovered(Heard(old(View())), maxPdpReset)
    {
      hide View, Heard, Recovered;
      TakePingResult();
      DoRecovery(maxPdpReset);
    }

    /** handleMessage, and the callbacks that are not messages: every event the
        machine knows, run on this object. */
    method HandleMessage(e: Event) returns (thrown: bool)
      modifies this
      ensures thrown <==> Handle(old(View()), e).None?
      ensures !thrown ==> Some(View()) == Handle(old(View()), e)
    {
      hide View, CleanedUp, TrySetup, SetupCompleted, GoneIdle, DisconnectDone, IdleAgain, Unrestricted;
      hide StartPoll, StopPoll, Ran, ResetStats, Heard, Recovered, PingEnded;
      thrown := false;
      match e {
        case TrySetupData(s) => var b := TrySetupData(s);
        case SetupComplete(a) => thrown := OnDataSetupComplete(a);
        case DisconnectComplete(again, s) => OnDisconnectDone(again, s);
        case ResetComplete => OnResetDone();
        case CleanUp(tearDown) => CleanUpConnection(tearDown);
        case RadioAvailable => OnRadioAvailable();
        case RadioOff => OnRadioOff();
        case RecordsLoaded => OnRecordsLoaded();
        case GprsAttached(s, r) => OnGprsAttached(s, r);
        case GprsDetached => StopPolling();
        case PsRestricted => StopPolling();
        case PsUnrestricted(s, r) => OnPsRestrictDisabled(s, r);
        case CallStarted(concurrent) => OnVoiceCallStarted(concurrent);
        case CallEnded(concurrent, s, r) => OnVoiceCallEnded(concurrent, s, r);
        case PdpDropped => OnPdpDropped();
        case ScreenChanged(r) => OnScreenChanged(r);
        case PollNetStat(r) => OnPost(r);
        case PingEnds(reached) => PingTestEnds(reached);
        case StartNetStatPoll(r) => OnStartNetStatPoll(r);
        case StartRecovery(maxReset) => OnStartRecovery(maxReset);
      }
    }

    /** Whether the environment can bring this event about now. */
    function CanHappen(e: Event): (r: bool)
      reads this
      ensures r == Possible(View(), e)
    {
      match e
      case SetupComplete(_) => connecting
      case DisconnectComplete(_, _) => disconnecting > 0
      case PollNetStat(_) => posts > 0
      case PingEnds(_) => pingThreads > 0
      case StartNetStatPoll(_) => pingResults > 0
      case StartRecovery(_) => pingResults > 0
      case _ => true
    }

    /** One event, on an object that some run has led to. */
    method Serve(e: Event, ghost es: seq<Event>)
      requires Run(INIT, es) == Some(View())
      modifies this
      ensures Run(INIT, es + [e]) == Some(View())
    {
      hide Run, Handle, Possible, ScanInv, View;
      ScanReachable(es + [e]);
      OneMore(es, e);
      if CanHappen(e) {
        var thrown := HandleMessage(e);
      }
    }
  }

  lemma OneMore(es: seq<Event>, e: Event)
    requires Run(INIT, es).Some?
    ensures var t := Run(INIT, es).value;
            Run(INIT, es + [e]) == if Possible(t, e) then Handle(t, e) else Some(t)
  {
    hide Possible, Handle;
    assert (es + [e])[..|es + [e]| - 1] == es;
  }

  /** A new tracker that serves any events in any order, as they can happen: no handler
      throws, and the scan and the poll invariants hold of the object. */
  method ServeAll(es: seq<Event>, ghost limit: nat) returns (t: GsmDataConnectionTracker)
    requires forall i :: 0 <= i < |es| ==> Within(es[i], limit)
    ensures Run(INIT, es) == Some(t.View())
    ensures ScanInv(t.View()) && NetStatPoll.Inv(t.View().poll, limit)
  {
    hide Run, Handle, Possible, ScanInv, NetStatPoll.Inv, Within;
    t := new GsmDataConnectionTracker();
    NoEvents();
    for i := 0 to |es|
      invariant Run(INIT, es[..i]) == Some(t.View())
    {
      t.Serve(es[i], es[..i]);
      assert es[..i] + [es[i]] == es[..i + 1];
    }
    assert es[..|es|] == es;
    ScanReachable(es);
    PollReachable(es, limit);
  }

  lemma NoEvents()
    ensures Run(INIT, []) == Some(INIT)
  {
  }
}
