/** What a command ends with: its error code, over every interleaving; the tries of a
    handshake; and the PDUs that prompts were answered with. */
module AtOutcome {
  import opened CText
  import opened AtResults
  import opened AtChannel
  import opened AtProtocol
  import opened AtPartition

  predicate Typed(kind: Kind) {
    kind == SingleLine || kind == Numeric
  }

  // ----- Beginning -----

  /** The next state of an issuer whose send ended at once. */
  predicate FailsWith(s: State, t: State, req: Request, err: Error) {
    && t.results == s.results + [Result(req, err, None, [], [])]
    && t.chan == s.chan && t.nextId == s.nextId
    && t.pc == if req.retries > 0 then Retrying else Idle
  }

  /** The next state of an issuer that waits for the answer to its command. */
  predicate Waits(s: State, t: State, req: Request) {
    && t.pc == Asleep && t.req == req && t.results == s.results && t.seen == []
    && t.chan == s.chan.(kind := req.kind, prefix := req.prefix, pdu := req.pdu,
                         response := Some(Response(s.nextId, false, None, [])))
  }

  lemma BeginOutcome(s: State, req: Request, written: bool)
    requires Inv(s) && s.chan.response.None?
    ensures var t := BeginSend(s, req, written);
            if !s.fdOpen || s.chan.closed then FailsWith(s, t, req, ChannelClosed)
            else if !written then FailsWith(s, t, req, Generic)
            else Waits(s, t, req)
  {
    assert s.chan.unsolicited[|s.chan.unsolicited|..] == [];
  }

  /** A send from idle, in every reachable state: refused on a closed channel, failed when
      the write fails, and else asleep with an empty response. */
  lemma {:induction false} SendOutcome(es: seq<Event>, req: Request, written: bool)
    requires var s := Run(INIT, es); s.Some? && s.value.pc == Idle
    ensures var s := Run(INIT, es).value;
            && Step(s, Send(req, written)).Some?
            && var t := Step(s, Send(req, written)).value;
               if !s.fdOpen || s.chan.closed then FailsWith(s, t, req, ChannelClosed)
               else if !written then FailsWith(s, t, req, Generic)
               else Waits(s, t, req)
  {
    hide BeginSend, Run, Pending, Ledger, Sound;
    Reachable(es);
    BeginOutcome(Run(INIT, es).value, req, written);
  }

  // ----- Ending -----

  /** The error of a send that has something to act on. */
  function ErrorOf(req: Request, seen: seq<Text>, closed: bool): Error
    requires LastFinal(seen).Some? || closed
  {
    if closed then ChannelClosed
    else if req.wanted && Typed(req.kind) && FinalSuccess(LastFinal(seen).value) && Due(req, seen) == []
    then InvalidResponse
    else Ok
  }

  /** A send has ended with this error; the caller has a response exactly when it wants one
      and the error is not INVALID_RESPONSE. */
  predicate EndsWith(s: State, t: State, err: Error) {
    && |t.results| == |s.results| + 1 && t.results[..|s.results|] == s.results
    && var r := t.results[|s.results|];
       && r.req == s.req && r.seen == s.seen && r.err == err
       && (r.response.Some? <==> s.req.wanted && (err == Ok || err == ChannelClosed))
       && (r.response.Some? ==>
             r.response.value.lines == Due(s.req, s.seen) && r.response.value.final == LastFinal(s.seen))
       && t.pc == (if err != Ok && s.req.retries > 0 then Retrying else Idle)
  }

  /** What the issuer does when it has been woken, in every reachable state: it goes back to
      sleep when there is neither a final response nor a closed channel; else the send ends,
      with CHANNEL_CLOSED if the channel is closed, with INVALID_RESPONSE if a success came
      without the line a typed command is for, and else with success. */
  lemma {:induction false} ResumeOutcome(es: seq<Event>)
    requires var s := Run(INIT, es); s.Some? && s.value.pc == Woken
    ensures var s := Run(INIT, es).value;
            && Step(s, Resume).Some?
            && var t := Step(s, Resume).value;
               if LastFinal(s.seen).None? && !s.chan.closed then t == s.(pc := Asleep)
               else EndsWith(s, t, ErrorOf(s.req, s.seen, s.chan.closed))
  {
    hide Finish, Run, Ledger, Sound, LastFinal;
    Reachable(es);
    var s := Run(INIT, es).value;
    if LastFinal(s.seen).Some? || s.chan.closed {
      FinishOutcome(s);
    }
  }

  lemma FinishOutcome(s: State)
    requires s.chan.response.Some? && Pending(s) && (LastFinal(s.seen).Some? || s.chan.closed)
    ensures EndsWith(s, Finish(s), ErrorOf(s.req, s.seen, s.chan.closed))
  {
    hide Due, LastFinal, FinalSuccess, Asides, Reverse;
    assert |Reverse(s.chan.response.value.lines)| == |s.chan.response.value.lines|;
  }

  /** A wait that runs out of time ends the send with TIMEOUT, without a response. */
  lemma {:induction false} TimeoutOutcome(es: seq<Event>)
    requires var s := Run(INIT, es); s.Some? && s.value.pc == Expired
    ensures var s := Run(INIT, es).value;
            Step(s, Resume).Some? && EndsWith(s, Step(s, Resume).value, Timeout)
  {
    hide Run, Asides;
  }

  /** A typed command that ends in success returns its one line when one was due, and fails
      with INVALID_RESPONSE exactly when none was. */
  lemma {:induction false} TypedSends(es: seq<Event>)
    requires var s := Run(INIT, es);
             && s.Some? && s.value.pc == Woken && !s.value.chan.closed
             && Typed(s.value.req.kind) && s.value.req.wanted
             && LastFinal(s.value.seen).Some? && FinalSuccess(LastFinal(s.value.seen).value)
    ensures var s := Run(INIT, es).value;
            var due := Due(s.req, s.seen);
            && Step(s, Resume).Some?
            && var t := Step(s, Resume).value;
               && (EndsWith(s, t, Ok) <==> |due| == 1) && (EndsWith(s, t, InvalidResponse) <==> due == [])
               && (EndsWith(s, t, Ok) || EndsWith(s, t, InvalidResponse))
  {
    hide Run, Step, Due, FinalSuccess;
    var s := Run(INIT, es).value;
    ResumeOutcome(es);
    DueByKind(s.req, s.seen, []);
  }

  /** Only a timed command can run out of time. */
  predicate Timely(s: State) {
    && (s.pc == Expired ==> s.req.timed)
    && forall r :: r in s.results && r.err == Timeout ==> r.req.timed
  }

  lemma TimelyBegin(s: State, req: Request, written: bool)
    requires Inv(s) && s.chan.response.None? && Timely(s)
    ensures Timely(BeginSend(s, req, written))
  {
    hide BeginSend, Pending, Ledger, Sound;
    BeginOutcome(s, req, written);
  }

  lemma TimelyEnd(s: State, t: State, err: Error)
    requires Timely(s) && EndsWith(s, t, err) && (err == Timeout ==> s.req.timed)
    ensures Timely(t)
  {
    hide Due, LastFinal;
    assert t.results == s.results + [t.results[|s.results|]];
  }

  lemma TimelyResume(es: seq<Event>)
    requires Run(INIT, es).Some? && Timely(Run(INIT, es).value) && Enabled(Run(INIT, es).value, Resume)
    ensures var s := Run(INIT, es).value;
            Step(s, Resume).Some? && Timely(Step(s, Resume).value)
  {
    hide Run, Step, Ledger, Sound, Pending, EndsWith, ErrorOf, LastFinal;
    var s := Run(INIT, es).value;
    if s.pc == Expired {
      TimeoutOutcome(es);
      TimelyEnd(s, Step(s, Resume).value, Timeout);
    } else {
      ResumeOutcome(es);
      if LastFinal(s.seen).Some? || s.chan.closed {
        ErrorIsNoTimeout(s.req, s.seen, s.chan.closed);
        TimelyEnd(s, Step(s, Resume).value, ErrorOf(s.req, s.seen, s.chan.closed));
      }
    }
  }

  lemma ErrorIsNoTimeout(req: Request, seen: seq<Text>, closed: bool)
    requires LastFinal(seen).Some? || closed
    ensures ErrorOf(req, seen, closed) != Timeout
  {
  }

  lemma TimelyLine(s: State, line: Text)
    requires Timely(s)
    ensures Timely(ProcessLine(s, line))
  {
    hide ProcessLine;
    LineFrame(s, line);
    LineKeepsRequest(s, line);
  }

  /** Over every interleaving, only timed commands end with TIMEOUT. */
  lemma {:induction false} TimeoutsAreTimed(es: seq<Event>)
    ensures Run(INIT, es).Some?
    ensures Timely(Run(INIT, es).value)
  {
    hide Timely, Step, Inv, BeginSend, ProcessLine;
    Reachable(es);
    if es == [] {
      TimelyAtFirst();
    } else {
      var front, e := es[..|es| - 1], es[|es| - 1];
      Reachable(front);
      TimeoutsAreTimed(front);
      TimelyStep(front, e);
    }
  }

  lemma TimelyAtFirst()
    ensures Timely(INIT)
  {
  }

  lemma TimelyStep(es: seq<Event>, e: Event)
    requires Run(INIT, es).Some? && Inv(Run(INIT, es).value) && Timely(Run(INIT, es).value)
    ensures var s := Run(INIT, es).value;
            Step(s, e).Some? ==> Timely(Step(s, e).value)
  {
    hide Run, BeginSend, Timely, Pending, Ledger, Sound, ProcessLine;
    var s := Run(INIT, es).value;
    if Enabled(s, e) {
      match e
      case Send(req, written) => TimelyBegin(s, req, written);
      case Retry(written) => TimelyBegin(s, NextTry(s.req), written);
      case Line(line) => TimelyLine(s, line);
      case Resume => TimelyResume(es);
      case _ => TimelyOthers(s, e);
    }
  }

  lemma TimelyOthers(s: State, e: Event)
    requires Timely(s) && Enabled(s, e) && e in {ReaderClosed, CloseFd, Close, Open, Wake, Expire}
    ensures Step(s, e).Some? && Timely(Step(s, e).value)
  {
  }

  // ----- Closing -----

  /** The device is closed, or the reader has ended. */
  predicate Shut(s: State) {
    !s.fdOpen || s.chan.closed
  }

  lemma StaysShut(s: State, e: Event)
    requires Shut(s) && e != Open
    ensures Step(s, e).Some? ==> Shut(Step(s, e).value)
  {
    hide FateOf;
  }

  /** After at_close, or the end of the reader, whatever happens short of at_open, the
      channel is shut: each send fails with CHANNEL_CLOSED and leaves nothing pending. */
  lemma {:induction false} ShutUntilOpened(es: seq<Event>, e: Event, more: seq<Event>, req: Request, written: bool)
    requires Run(INIT, es).Some? && Enabled(Run(INIT, es).value, e)
    requires e == ReaderClosed || e == CloseFd || e == Close
    requires Open !in more
    ensures Run(INIT, es + [e] + more).Some?
    ensures var s := Run(INIT, es + [e] + more).value;
            && Shut(s)
            && (s.pc == Idle ==>
                  && Step(s, Send(req, written)).Some?
                  && FailsWith(s, Step(s, Send(req, written)).value, req, ChannelClosed))
    decreases |more|
  {
    hide Step, Shut, FailsWith, Inv;
    Reachable(es + [e] + more);
    if more == [] {
      assert (es + [e] + more)[..|es + [e] + more| - 1] == es;
      ShutsChannel(Run(INIT, es).value, e);
    } else {
      var front := more[..|more| - 1];
      ShutUntilOpened(es, e, front, req, written);
      assert (es + [e] + more)[..|es + [e] + more| - 1] == es + [e] + front;
      StaysShut(Run(INIT, es + [e] + front).value, more[|more| - 1]);
    }
    RefusedWhenShut(es + [e] + more, req, written);
  }

  lemma ShutsChannel(s: State, e: Event)
    requires Enabled(s, e) && (e == ReaderClosed || e == CloseFd || e == Close)
    ensures Step(s, e).Some? && Shut(Step(s, e).value)
  {
  }

  lemma {:induction false} RefusedWhenShut(es: seq<Event>, req: Request, written: bool)
    requires Run(INIT, es).Some? && Shut(Run(INIT, es).value)
    ensures var s := Run(INIT, es).value;
            s.pc == Idle ==>
              && Step(s, Send(req, written)).Some?
              && FailsWith(s, Step(s, Send(req, written)).value, req, ChannelClosed)
  {
    hide Run, Step, FailsWith;
    var s := Run(INIT, es).value;
    if s.pc == Idle {
      SendOutcome(es, req, written);
    }
  }

  /** at_open makes sends possible again. */
  lemma OpenedAgain(s: State)
    requires s.pc == Idle
    ensures Step(s, Open).Some? && !Shut(Step(s, Open).value) && Step(s, Open).value.pc == Idle
    ensures Step(s, Open).value.chan.response == None
  {
  }

  // ----- The tries of a handshake -----

  /** A result that at_handshake answers with another try. */
  predicate TriesAgain(r: Result) {
    r.err != Ok && r.req.retries > 0
  }

  function NextTry(r: Request): Request {
    r.(retries := if r.retries > 0 then r.retries - 1 else 0)
  }

  predicate Chained(s: State) {
    && (forall i :: 0 < i < |s.results| && TriesAgain(s.results[i - 1]) ==>
          s.results[i].req == NextTry(s.results[i - 1].req))
    && (s.results != [] && TriesAgain(s.results[|s.results| - 1]) ==>
          var r := s.results[|s.results| - 1].req;
          if s.pc == Retrying then s.req == r else s.pc != Idle && s.req == NextTry(r))
    && (s.pc == Retrying ==> s.results != [] && TriesAgain(s.results[|s.results| - 1]))
  }

  lemma ChainedSame(s: State, t: State)
    requires Chained(s) && t.results == s.results && t.req == s.req
    requires t.pc == s.pc || (s.pc != Retrying && s.pc != Idle && t.pc != Retrying && t.pc != Idle)
    ensures Chained(t)
  {
  }

  lemma ChainedBegin(s: State, t: State, req: Request)
    requires Chained(s) && (s.pc == Idle || (s.pc == Retrying && req == NextTry(s.req)))
    requires Waits(s, t, req) || FailsWith(s, t, req, ChannelClosed) || FailsWith(s, t, req, Generic)
    requires t.req == req
    ensures Chained(t)
  {
    if t.results != s.results {
      assert t.results[..|s.results|] == s.results;
    }
  }

  lemma ChainedEnd(s: State, t: State, err: Error)
    requires Chained(s) && s.pc != Idle && s.pc != Retrying && EndsWith(s, t, err) && t.req == s.req
    ensures Chained(t)
  {
    hide Due, LastFinal;
    assert forall i :: 0 <= i < |s.results| ==> t.results[i] == t.results[..|s.results|][i];
  }

  lemma BeginKeepsRequest(s: State, req: Request, written: bool)
    requires s.chan.response.None?
    ensures BeginSend(s, req, written).req == req
  {
  }

  lemma ResumeKeepsRequest(s: State)
    requires Enabled(s, Resume) && s.chan.response.Some?
    ensures Step(s, Resume).Some? && Step(s, Resume).value.req == s.req
  {
  }

  lemma StepChained(es: seq<Event>, e: Event)
    requires Run(INIT, es).Some? && Inv(Run(INIT, es).value) && Chained(Run(INIT, es).value)
    ensures var s := Run(INIT, es).value;
            Step(s, e).Some? ==> Chained(Step(s, e).value)
  {
    hide Run, BeginSend, Chained, Pending, Ledger, Sound, EndsWith, ErrorOf, ProcessLine;
    var s := Run(INIT, es).value;
    if Enabled(s, e) {
      match e
      case Send(req, written) =>
        BeginOutcome(s, req, written);
        BeginKeepsRequest(s, req, written);
        ChainedBegin(s, BeginSend(s, req, written), req);
      case Retry(written) =>
        BeginOutcome(s, NextTry(s.req), written);
        BeginKeepsRequest(s, NextTry(s.req), written);
        ChainedBegin(s, BeginSend(s, NextTry(s.req), written), NextTry(s.req));
      case Line(line) =>
        LineFrame(s, line);
        LineKeepsRequest(s, line);
        ChainedSame(s, ProcessLine(s, line));
      case Resume =>
        ResumeKeepsRequest(s);
        ResumeChained(es);
      case _ => OthersChained(s, e);
    }
  }

  lemma LineKeepsRequest(s: State, line: Text)
    ensures ProcessLine(s, line).req == s.req
  {
    hide FateOf;
  }

  lemma ResumeChained(es: seq<Event>)
    requires Run(INIT, es).Some? && Inv(Run(INIT, es).value) && Chained(Run(INIT, es).value)
    requires Enabled(Run(INIT, es).value, Resume)
    ensures var s := Run(INIT, es).value;
            Step(s, Resume).Some? && Chained(Step(s, Resume).value)
  {
    hide Run, Step, Chained, Pending, Ledger, Sound, EndsWith, ErrorOf, LastFinal;
    var s := Run(INIT, es).value;
    ResumeKeepsRequest(s);
    var t := Step(s, Resume).value;
    if s.pc == Expired {
      TimeoutOutcome(es);
      ChainedEnd(s, t, Timeout);
    } else {
      ResumeOutcome(es);
      if LastFinal(s.seen).None? && !s.chan.closed {
        ChainedSame(s, t);
      } else {
        ChainedEnd(s, t, ErrorOf(s.req, s.seen, s.chan.closed));
      }
    }
  }

  lemma OthersChained(s: State, e: Event)
    requires Chained(s) && Enabled(s, e) && e in {ReaderClosed, CloseFd, Close, Open, Wake, Expire}
    ensures Step(s, e).Some? && Chained(Step(s, e).value)
  {
    hide Chained;
    ChainedSame(s, Step(s, e).value);
  }

  /** Over every interleaving: a failed try is followed by the next one, with one try fewer
      left, until one succeeds or none is left; nothing else comes in between. */
  lemma {:induction false} Tries(es: seq<Event>)
    ensures Run(INIT, es).Some?
    ensures Chained(Run(INIT, es).value)
  {
    hide Chained, Step, Inv;
    Reachable(es);
    if es == [] {
      NothingTried();
    } else {
      var front := es[..|es| - 1];
      Reachable(front);
      Tries(front);
      StepChained(front, es[|es| - 1]);
    }
  }

  lemma NothingTried()
    ensures Chained(INIT)
  {
  }

  // ----- Prompts -----

  /** The PDU that a command had written: one, if it has one and a prompt came. */
  function SentOf(req: Request, seen: seq<Text>): seq<Text> {
    if req.pdu.Some? && "> " in seen then [req.pdu.value] else []
  }

  function SentBy(results: seq<Result>): seq<Text> {
    if results == [] then []
    else
      var r := results[|results| - 1];
      SentBy(results[..|results| - 1]) + SentOf(r.req, r.seen)
  }

  predicate PdusSent(s: State) {
    s.chan.sent == if s.chan.response.Some? then SentBy(s.results) + SentOf(s.req, s.seen) else SentBy(s.results)
  }

  lemma LinePdus(s: State, line: Text)
    requires Inv(s) && PdusSent(s)
    ensures PdusSent(ProcessLine(s, line))
  {
    hide Ledger, Sound, FinalSuccess, FinalError, SentBy;
    LineFrame(s, line);
    TablesDisjoint(line);
    if s.chan.response.Some? {
      LineSends(s, line);
    }
  }

  /** A prompt is answered with the PDU of the command, the first time it comes. */
  lemma LineSends(s: State, line: Text)
    requires s.chan.response.Some? && Pending(s)
    ensures var t := ProcessLine(s, line);
            && t.seen == s.seen + [line] && t.req == s.req && t.results == s.results
            && t.chan.sent == (if s.req.pdu.Some? && line == "> " && "> " !in s.seen
                               then s.chan.sent + [s.req.pdu.value] else s.chan.sent)
  {
    hide FinalSuccess, FinalError, Due;
    TablesDisjoint(line);
  }

  lemma ResultPdus(s: State, t: State, r: Result)
    requires PdusSent(s) && t.results == s.results + [r] && t.chan.response.None? && t.chan.sent == s.chan.sent
    requires SentOf(r.req, r.seen) == if s.chan.response.Some? then SentOf(s.req, s.seen) else []
    ensures PdusSent(t)
  {
    assert t.results[..|t.results| - 1] == s.results;
  }

  lemma BeginPdus(s: State, req: Request, written: bool)
    requires Inv(s) && s.chan.response.None? && PdusSent(s)
    ensures PdusSent(BeginSend(s, req, written))
  {
    hide BeginSend, Inv;
    BeginOutcome(s, req, written);
    var t := BeginSend(s, req, written);
    if t.results != s.results {
      ResultPdus(s, t, t.results[|s.results|]);
    } else {
      assert SentBy(s.results) + [] == SentBy(s.results);
    }
  }

  lemma ResumePdus(s: State)
    requires s.chan.response.Some? && PdusSent(s) && Enabled(s, Resume)
    ensures Step(s, Resume).Some? && PdusSent(Step(s, Resume).value)
  {
    hide Step, Asides, SentBy, SentOf;
    ResultAfterResume(s);
    var t := Step(s, Resume).value;
    if t.results != s.results {
      assert t.results == s.results + [t.results[|s.results|]];
      ResultPdus(s, t, t.results[|s.results|]);
    } else {
      NotEnded(s, t);
    }
  }

  lemma NotEnded(s: State, t: State)
    requires t.results == s.results
    ensures !Ended(s, t, s.seen, Asides(s))
  {
  }

  lemma OthersPdus(s: State, e: Event)
    requires Inv(s) && PdusSent(s) && Enabled(s, e) && e in {ReaderClosed, CloseFd, Close, Open, Wake, Expire}
    ensures Step(s, e).Some? && PdusSent(Step(s, e).value)
  {
    hide SentBy, SentOf, Ledger, Sound, Pending;
  }

  lemma StepPdus(s: State, e: Event)
    requires Inv(s) && PdusSent(s)
    ensures Step(s, e).Some? ==> PdusSent(Step(s, e).value)
  {
    hide PdusSent, BeginSend, ProcessLine, Pending, Ledger, Sound;
    if Enabled(s, e) {
      match e
      case Send(req, written) => BeginPdus(s, req, written);
      case Retry(written) => BeginPdus(s, NextTry(s.req), written);
      case Line(line) => LinePdus(s, line);
      case Resume => ResumePdus(s);
      case _ => OthersPdus(s, e);
    }
  }

  /** Over every interleaving, the PDUs written are those of the commands that have one and
      saw a prompt: once each, in the order of the commands, and nothing else. */
  lemma {:induction false} EachPduOnce(es: seq<Event>)
    ensures Run(INIT, es).Some?
    ensures PdusSent(Run(INIT, es).value)
  {
    hide PdusSent, Step, Inv;
    Reachable(es);
    if es == [] {
      NothingSent();
    } else {
      Reachable(es[..|es| - 1]);
      EachPduOnce(es[..|es| - 1]);
      StepPdus(Run(INIT, es[..|es| - 1]).value, es[|es| - 1]);
    }
  }

  lemma NothingSent()
    ensures PdusSent(INIT)
  {
  }
}
