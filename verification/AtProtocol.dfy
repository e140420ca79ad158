/** The AT channel as a two-thread protocol: one command issuer, the reader, and
    whoever closes the channel. Every event is one critical section under
    s_commandmutex (or one wake-up of the issuer), and any order may occur. */
module AtProtocol {
  import opened CText
  import opened AtResults
  import opened AtChannel

  /** The arguments of a send; retries counts the further tries of at_handshake. */
  datatype Request = Request(
    kind: Kind, prefix: Option<Text>, pdu: Option<Text>,
    timed: bool, wanted: bool, retries: nat)

  datatype Error = Ok | Generic | CommandPending | ChannelClosed | Timeout | InvalidResponse

  /** Where the issuer is. While it is Retrying (at_handshake between two tries)
      it still holds the mutex; while Asleep, Woken or Expired it does not. */
  datatype Pc = Idle | Retrying | Asleep | Woken | Expired

  /** One completed send: what it returned, the lines the reader processed while
      its response was installed, and those of them that went to the unsolicited
      handler instead. */
  datatype Result = Result(
    req: Request, err: Error, response: Option<Response>, seen: seq<Text>, asides: seq<Text>)

  datatype State = State(
    chan: Channel, fdOpen: bool, pc: Pc, req: Request,
    seen: seq<Text>,       // lines processed since the response was installed
    mark: nat,             // unsolicited lines there were by then
    nextId: nat,           // responses allocated so far
    freed: seq<nat>,       // responses given to at_response_free by the channel
    handed: seq<nat>,      // responses given to callers
    results: seq<Result>)

  datatype Event =
    | Send(req: Request, written: bool)  // written: the write itself succeeds
    | Retry(again: bool)                 // the next try of at_handshake
    | Line(line: Text)                   // processLine
    | ReaderClosed                       // onReaderClosed
    | CloseFd                            // at_close, before it takes the mutex
    | Close                              // at_close, under the mutex
    | Open                               // at_open
    | Wake                               // a spurious wake-up
    | Expire                             // the wait runs out of time
    | Resume                             // the issuer gets the mutex back

  const NO_REQUEST := Request(NoResult, None, None, false, false, 0)

  const INIT := State(
    Channel(NoResult, None, None, None, false, [], []), false, Idle, NO_REQUEST, [], 0, 0, [], [], [])

  // ----- The issuer -----

  /** label error: clearPendingCommand, then return. A failed try of at_handshake
      goes round again without letting go of the mutex. */
  function Exit(s: State, err: Error, response: Option<Response>): State {
    var freed := if s.chan.response.Some? then s.freed + [s.chan.response.value.id] else s.freed;
    s.(chan := Cleared(s.chan), freed := freed,
       pc := if err != Ok && s.req.retries > 0 then Retrying else Idle,
       results := s.results + [Result(s.req, err, response, s.seen, Asides(s))])
  }

  function Asides(s: State): seq<Text> {
    if s.mark <= |s.chan.unsolicited| then s.chan.unsolicited[s.mark..] else []
  }

  /** A typed wrapper refuses a success without intermediate line. */
  predicate Refused(req: Request, err: Error, r: Response) {
    err == Ok && (req.kind == SingleLine || req.kind == Numeric) && r.success && r.lines == []
  }

  /** After the wait loop. */
  function Finish(s: State): State
    requires s.chan.response.Some?
  {
    var r := s.chan.response.value;
    var out := r.(lines := Reverse(r.lines));
    var err := if s.chan.closed then ChannelClosed else Ok;
    var t := s.(chan := s.chan.(response := None));
    if !s.req.wanted then Exit(t.(freed := t.freed + [r.id]), err, None)
    else if Refused(s.req, err, out) then Exit(t.(freed := t.freed + [r.id]), InvalidResponse, None)
    else Exit(t.(handed := t.handed + [r.id]), err, Some(out))
  }

  /** The condition of the wait loop. */
  function Await(s: State): State
    requires s.chan.response.Some?
  {
    if s.chan.response.value.final.None? && !s.chan.closed then s.(pc := Asleep) else Finish(s)
  }

  function BeginSend(s: State, req: Request, written: bool): State {
    var t := s.(req := req, seen := [], mark := |s.chan.unsolicited|);
    if s.chan.response.Some? then Exit(t, CommandPending, None)
    else if !s.fdOpen || s.chan.closed then Exit(t, ChannelClosed, None)
    else if !written then Exit(t, Generic, None)
    else Await(t.(chan := Installed(s.chan, req.kind, req.prefix, req.pdu, s.nextId), nextId := s.nextId + 1))
  }

  /** pthread_cond_signal */
  function Signalled(s: State): State {
    if s.pc == Asleep then s.(pc := Woken) else s
  }

  function ProcessLine(s: State, line: Text): State {
    var t := s.(chan := Processed(s.chan, line), seen := if s.chan.response.Some? then s.seen + [line] else s.seen);
    if FateOf(s.chan, line).FinalLine? then Signalled(t) else t
  }

  predicate Enabled(s: State, e: Event) {
    match e
    case Send(_, _) => s.pc == Idle
    case Retry(_) => s.pc == Retrying
    case Line(_) => s.pc != Retrying
    case ReaderClosed => s.pc != Retrying && !s.chan.closed
    case CloseFd => true
    case Close => s.pc != Retrying
    case Open => s.pc == Idle
    case Wake => s.pc == Asleep
    case Expire => s.pc == Asleep && s.req.timed
    case Resume => s.pc == Woken || s.pc == Expired
  }

  /** One event; None if the issuer would look at a response that is not there. */
  function Step(s: State, e: Event): Option<State> {
    if !Enabled(s, e) then Some(s)  // it cannot happen now
    else match e
      case Send(req, written) => Some(BeginSend(s, req, written))
      case Retry(written) =>
        Some(BeginSend(s, s.req.(retries := if s.req.retries > 0 then s.req.retries - 1 else 0), written))
      case Line(line) => Some(ProcessLine(s, line))
      case ReaderClosed => Some(Signalled(s.(chan := s.chan.(closed := true))))
      case CloseFd => Some(s.(fdOpen := false))
      case Close => Some(Signalled(s.(chan := s.chan.(closed := true))))
      case Open =>
        Some(s.(fdOpen := true, chan := s.chan.(closed := false, response := None, prefix := None, pdu := None)))
      case Wake => Some(s.(pc := Woken))
      case Expire => Some(s.(pc := Expired))
      case Resume =>
        if s.pc == Expired then Some(Exit(s, Timeout, None))
        else if s.chan.response.None? then None
        else Some(Await(s))
  }

  function Run(s: State, es: seq<Event>): Option<State> {
    if es == [] then Some(s)
    else match Run(s, es[..|es| - 1])
      case None => None
      case Some(t) => Step(t, es[|es| - 1])
  }

  // ----- What a command should get: a reference that knows no list -----

  /** A line that answers a command of this kind, leaving the prompt aside. */
  predicate Answers(kind: Kind, prefix: Option<Text>, line: Text) {
    && !Final(line)
    && match kind
       case NoResult => false
       case Numeric => StartsWithDigit(line)
       case SingleLine => prefix.Some? && prefix.value <= line
       case MultiLine => prefix.Some? && prefix.value <= line
  }

  function Select(kind: Kind, prefix: Option<Text>, lines: seq<Text>): seq<Text> {
    if lines == [] then []
    else
      var front := Select(kind, prefix, lines[..|lines| - 1]);
      var line := lines[|lines| - 1];
      if Answers(kind, prefix, line) then front + [line] else front
  }

  /** The lines but for the first prompt, which is answered with the PDU. */
  function DropPrompt(pdu: Option<Text>, lines: seq<Text>): seq<Text> {
    if lines == [] then []
    else
      var front := lines[..|lines| - 1];
      var line := lines[|lines| - 1];
      if pdu.Some? && line == "> " && "> " !in front then DropPrompt(pdu, front)
      else DropPrompt(pdu, front) + [line]
  }

  /** The intermediate lines due to a request, in arrival order: all that match
      for MULTILINE, the first for SINGLELINE and NUMERIC, none for NO_RESULT. */
  function Due(req: Request, seen: seq<Text>): seq<Text> {
    var all := Select(req.kind, req.prefix, DropPrompt(req.pdu, seen));
    if req.kind == MultiLine || |all| <= 1 then all else all[..1]
  }

  // ----- The invariant -----

  /** Every response allocated before n, once each. */
  ghost function Allocated(n: nat): multiset<nat> {
    if n == 0 then multiset{} else Allocated(n - 1) + multiset{n - 1}
  }

  ghost predicate Ledger(s: State) {
    multiset(s.freed) + multiset(s.handed)
    + (if s.chan.response.Some? then multiset{s.chan.response.value.id} else multiset{})
    == Allocated(s.nextId)
  }

  /** The pending response agrees with the lines seen since it was installed. */
  ghost predicate Pending(s: State)
    requires s.chan.response.Some?
  {
    var r := s.chan.response.value;
    && s.chan.kind == s.req.kind && s.chan.prefix == s.req.prefix
    && s.chan.pdu == (if "> " in s.seen then None else s.req.pdu)
    && Reverse(r.lines) == Due(s.req, s.seen)
    && r.final == LastFinal(s.seen)
    && (r.final.Some? ==> r.success == FinalSuccess(r.final.value))
  }

  function LastFinal(seen: seq<Text>): Option<Text> {
    if seen == [] then None
    else if Final(seen[|seen| - 1]) then Some(seen[|seen| - 1])
    else LastFinal(seen[..|seen| - 1])
  }

  /** What is true of a completed send. */
  predicate Sound(r: Result) {
    && r.err != CommandPending
    && (r.response.Some? ==>
          && r.req.wanted
          && (r.err == Ok || r.err == ChannelClosed)
          && r.response.value.lines == Due(r.req, r.seen)
          && r.response.value.final == LastFinal(r.seen)
          && (r.response.value.final.Some? ==> r.response.value.success == FinalSuccess(r.response.value.final.value)))
    && (r.err == Ok ==> LastFinal(r.seen).Some? && (r.req.wanted ==> r.response.Some?))
    && (r.response.Some? ==> !Refused(r.req, r.err, r.response.value))
    && (r.err == InvalidResponse ==>
          && (r.req.kind == SingleLine || r.req.kind == Numeric) && Due(r.req, r.seen) == []
          && LastFinal(r.seen).Some? && FinalSuccess(LastFinal(r.seen).value))
  }

  ghost predicate Inv(s: State) {
    && (s.pc == Idle || s.pc == Retrying <==> s.chan.response.None?)
    && (s.chan.response.None? ==> s.chan.prefix.None? && s.chan.pdu.None?)
    && (s.chan.response.Some? ==> Pending(s))
    && (s.pc == Asleep ==> s.chan.response.value.final.None? && !s.chan.closed)
    && Ledger(s)
    && forall r :: r in s.results ==> Sound(r)
  }

  // ----- Preservation -----

  lemma SnocLast<T>(s: seq<T>, x: T)
    ensures (s + [x])[..|s| + 1 - 1] == s && (s + [x])[|s| + 1 - 1] == x
  {
  }

  /** What one more line adds to the lines due. */
  lemma DueAfter(req: Request, seen: seq<Text>, line: Text)
    ensures var due := Due(req, seen);
            var now := Due(req, seen + [line]);
            if req.pdu.Some? && line == "> " && "> " !in seen then now == due
            else if !Answers(req.kind, req.prefix, line) then now == due
            else if req.kind != MultiLine && due != [] then now == due
            else now == due + [line]
  {
    SnocLast(seen, line);
    var rest := DropPrompt(req.pdu, seen);
    SnocLast(rest, line);
  }

  lemma PendingAfterLine(s: State, line: Text)
    requires s.chan.response.Some? && Pending(s)
    ensures ProcessLine(s, line).chan.response.Some? && Pending(ProcessLine(s, line))
  {
    LinesAfterLine(s, line);
    FinalAfterLine(s, line);
  }

  lemma LinesAfterLine(s: State, line: Text)
    requires s.chan.response.Some? && Pending(s)
    ensures var t := ProcessLine(s, line);
            t.chan.response.Some? && Reverse(t.chan.response.value.lines) == Due(s.req, s.seen + [line])
  {
    hide Due, LastFinal, Answers, FateOf, Reverse;
    DueAfter(s.req, s.seen, line);
    KeptIff(s, line);
    ReverseMore(s.chan.response.value.lines, line);
  }

  lemma ReverseMore(lines: seq<Text>, line: Text)
    ensures Reverse([line] + lines) == Reverse(lines) + [line]
  {
    assert ([line] + lines)[1..] == lines;
  }

  /** The lines that are put on the list. */
  lemma KeptIff(s: State, line: Text)
    requires s.chan.response.Some? && Pending(s)
    ensures FateOf(s.chan, line) == Intermediate <==>
              && !(s.req.pdu.Some? && line == "> " && "> " !in s.seen)
              && Answers(s.req.kind, s.req.prefix, line)
              && (s.req.kind == MultiLine || Due(s.req, s.seen) == [])
  {
    hide FinalSuccess, FinalError, Due, LastFinal;
    assert |Reverse(s.chan.response.value.lines)| == |Due(s.req, s.seen)|;
  }

  lemma FinalAfterLine(s: State, line: Text)
    requires s.chan.response.Some? && Pending(s)
    ensures var t := ProcessLine(s, line);
            && t.chan.response.Some? && t.seen == s.seen + [line] && t.req == s.req
            && t.chan.kind == s.chan.kind && t.chan.prefix == s.chan.prefix
            && t.chan.pdu == (if "> " in t.seen then None else s.req.pdu)
            && var r := t.chan.response.value;
               r.final == LastFinal(t.seen) && (r.final.Some? ==> r.success == FinalSuccess(r.final.value))
  {
    hide FinalSuccess, FinalError, Due;
    TablesDisjoint(line);
    SnocLast(s.seen, line);
  }

  /** Part of the invariant that does not depend on where the issuer is. */
  ghost predicate Books(s: State) {
    Ledger(s) && forall r :: r in s.results ==> Sound(r)
  }

  lemma ExitKeeps(s: State, err: Error, response: Option<Response>)
    requires Books(s) && Sound(Result(s.req, err, response, s.seen, Asides(s)))
    ensures Inv(Exit(s, err, response)) && Exit(s, err, response).chan.response.None?
    ensures Cleared(Exit(s, err, response).chan) == Exit(s, err, response).chan
  {
  }

  lemma FinishKeeps(s: State)
    requires s.chan.response.Some? && Pending(s) && Books(s)
    requires s.chan.response.value.final.Some? || s.chan.closed
    ensures Inv(Finish(s)) && Finish(s).chan.response.None?
  {
    hide Exit, Due, LastFinal, Allocated, Asides;
    var r := s.chan.response.value;
    var t := s.(chan := s.chan.(response := None));
    var out := r.(lines := Reverse(r.lines));
    var err := if s.chan.closed then ChannelClosed else Ok;
    if !s.req.wanted || Refused(s.req, err, out) {
      assert multiset(t.freed + [r.id]) == multiset(t.freed) + multiset{r.id};
    } else {
      assert multiset(t.handed + [r.id]) == multiset(t.handed) + multiset{r.id};
    }
    if !s.req.wanted {
      ExitKeeps(t.(freed := t.freed + [r.id]), err, None);
    } else if Refused(s.req, err, out) {
      assert |Reverse(r.lines)| == |r.lines|;
      ExitKeeps(t.(freed := t.freed + [r.id]), InvalidResponse, None);
    } else {
      ExitKeeps(t.(handed := t.handed + [r.id]), err, Some(out));
    }
  }

  lemma SendKeeps(s: State, req: Request, written: bool)
    requires Inv(s) && s.chan.response.None?
    ensures Inv(BeginSend(s, req, written))
  {
    hide Exit, Asides;
    var t := s.(req := req, seen := [], mark := |s.chan.unsolicited|);
    if !s.fdOpen || s.chan.closed {
      ExitKeeps(t, ChannelClosed, None);
    } else if !written {
      ExitKeeps(t, Generic, None);
    } else {
      var u := t.(chan := Installed(s.chan, req.kind, req.prefix, req.pdu, s.nextId), nextId := s.nextId + 1);
      assert Pending(u);
    }
  }

  lemma LineFrame(s: State, line: Text)
    ensures var t := ProcessLine(s, line);
            && t.results == s.results && t.freed == s.freed && t.handed == s.handed && t.nextId == s.nextId
            && t.chan.closed == s.chan.closed
            && (t.chan.response.Some? <==> s.chan.response.Some?)
            && (s.chan.response.Some? ==> t.chan.response.value.id == s.chan.response.value.id)
            && (s.chan.response.None? ==> t.chan.prefix == s.chan.prefix && t.chan.pdu == s.chan.pdu)
            && (t.pc == if s.pc == Asleep && FateOf(s.chan, line).FinalLine? then Woken else s.pc)
            && (t.pc == Asleep && s.chan.response.Some? ==>
                  t.chan.response.value.final == s.chan.response.value.final)
  {
  }

  lemma LineKeeps(s: State, line: Text)
    requires Inv(s)
    ensures Inv(ProcessLine(s, line))
  {
    LineFrame(s, line);
    var t := ProcessLine(s, line);
    if s.chan.response.Some? {
      PendingAfterLine(s, line);
      assert Pending(t);
    }
    assert Ledger(t);
  }

  lemma ResumeKeeps(s: State)
    requires Inv(s) && Enabled(s, Resume)
    ensures Step(s, Resume).Some? && Inv(Step(s, Resume).value)
  {
    if s.pc == Expired {
      ExitKeeps(s, Timeout, None);
    } else if s.chan.response.value.final.Some? || s.chan.closed {
      FinishKeeps(s);
    }
  }

  lemma OthersKeep(s: State, e: Event)
    requires Inv(s) && Enabled(s, e)
    requires e in {ReaderClosed, CloseFd, Close, Open, Wake, Expire}
    ensures Step(s, e).Some? && Inv(Step(s, e).value)
  {
    var t := Step(s, e).value;
    assert t.results == s.results && t.freed == s.freed && t.handed == s.handed && t.nextId == s.nextId;
    if s.chan.response.Some? {
      assert t.chan.response == s.chan.response && t.seen == s.seen && t.req == s.req;
    }
  }

  lemma StepKeeps(s: State, e: Event)
    requires Inv(s)
    ensures Step(s, e).Some? && Inv(Step(s, e).value)
  {
    if Enabled(s, e) {
      match e
      case Send(req, written) => SendKeeps(s, req, written);
      case Retry(written) =>
        SendKeeps(s, s.req.(retries := if s.req.retries > 0 then s.req.retries - 1 else 0), written);
      case Line(line) => LineKeeps(s, line);
      case Resume => ResumeKeeps(s);
      case _ => OthersKeep(s, e);
    }
  }

  /** Every reachable state of every interleaving satisfies the invariant. */
  lemma {:induction false} Reachable(es: seq<Event>)
    ensures Run(INIT, es).Some? && Inv(Run(INIT, es).value)
  {
    if es != [] {
      Reachable(es[..|es| - 1]);
      StepKeeps(Run(INIT, es[..|es| - 1]).value, es[|es| - 1]);
    }
  }

  // ----- The theorems -----

  /** What wakes the issuer. */
  predicate Wakes(e: Event) {
    e == Close || e == ReaderClosed || (e.Line? && Final(e.line))
  }

  lemma WokenBy(s: State, e: Event)
    requires s.pc == Asleep && s.chan.response.Some? && !s.chan.closed && Wakes(e)
    ensures Step(s, e).Some?
    ensures var t := Step(s, e).value;
            && t.pc == Woken && t.results == s.results && t.chan.response.Some?
            && (t.chan.response.value.final.Some? || t.chan.closed)
  {
  }

  lemma WokenEnds(t: State)
    requires t.pc == Woken && t.chan.response.Some? && (t.chan.response.value.final.Some? || t.chan.closed)
    ensures Step(t, Resume).Some?
    ensures var u := Step(t, Resume).value; u.pc in {Idle, Retrying} && |u.results| == |t.results| + 1
  {
  }

  /** No lost wake-up: an issuer asleep with no signal on its way has neither a
      final response nor a closed channel to act on, and whichever comes next
      makes it runnable; when it runs, the send ends. */
  lemma {:induction false} NoLostWakeup(es: seq<Event>, e: Event)
    requires var s := Run(INIT, es); s.Some? && s.value.pc == Asleep
    requires Wakes(e)
    ensures var s := Run(INIT, es).value;
            && s.chan.response.Some? && s.chan.response.value.final.None? && !s.chan.closed
            && Step(s, e).Some? && Step(s, e).value.pc == Woken
            && Step(Step(s, e).value, Resume).Some?
            && var t := Step(Step(s, e).value, Resume).value;
               t.pc in {Idle, Retrying} && |t.results| == |s.results| + 1
  {
    hide Step, Run, Pending, Ledger, Sound;
    Reachable(es);
    WokenBy(Run(INIT, es).value, e);
    WokenEnds(Step(Run(INIT, es).value, e).value);
  }

  /** A woken issuer that will find what it waited for. */
  predicate Runnable(s: State) {
    s.pc == Woken && s.chan.response.Some? && (s.chan.response.value.final.Some? || s.chan.closed)
  }

  lemma StaysRunnable(s: State, e: Event)
    requires Runnable(s) && e != Resume
    ensures Step(s, e).Some? && Runnable(Step(s, e).value) && Step(s, e).value.results == s.results
  {
  }

  /** What a final line or a closed channel has made runnable stays runnable until
      the issuer itself runs, whatever else happens meanwhile; and then the send ends. */
  lemma {:induction false} RunnableStays(es: seq<Event>, more: seq<Event>)
    requires Run(INIT, es).Some? && Runnable(Run(INIT, es).value) && Resume !in more
    ensures Run(INIT, es + more).Some? && Runnable(Run(INIT, es + more).value)
    ensures Step(Run(INIT, es + more).value, Resume).Some?
    ensures |Step(Run(INIT, es + more).value, Resume).value.results| == |Run(INIT, es).value.results| + 1
    decreases |more|
  {
    hide Step, Runnable;
    if more == [] {
      assert es + more == es;
      RunnableEnds(Run(INIT, es).value);
    } else {
      var e := more[|more| - 1];
      var front := more[..|more| - 1];
      RunnableStays(es, front);
      assert (es + more)[..|es + more| - 1] == es + front;
      StaysRunnable(Run(INIT, es + front).value, e);
      SameCount(Run(INIT, es + front).value, e);
    }
  }

  lemma RunnableEnds(s: State)
    requires Runnable(s)
    ensures Step(s, Resume).Some? && |Step(s, Resume).value.results| == |s.results| + 1
  {
    WokenEnds(s);
  }

  lemma SameCount(s: State, e: Event)
    requires Runnable(s) && e != Resume
    ensures Step(s, e).Some? && Step(Step(s, e).value, Resume).Some?
    ensures Step(s, Resume).Some?
    ensures |Step(Step(s, e).value, Resume).value.results| == |Step(s, Resume).value.results|
  {
    hide Step, Runnable;
    StaysRunnable(s, e);
    RunnableEnds(s);
    RunnableEnds(Step(s, e).value);
  }

  /** Every exit leaves no response, prefix or PDU behind, so no send of any run is
      refused because another one is pending. */
  lemma {:induction false} NeverPending(es: seq<Event>)
    ensures Run(INIT, es).Some?
    ensures var s := Run(INIT, es).value;
            && (s.pc in {Idle, Retrying} ==> s.chan.response.None? && s.chan.prefix.None? && s.chan.pdu.None?)
            && forall r :: r in s.results ==> r.err != CommandPending
  {
    Reachable(es);
  }

  lemma {:induction false} AllocatedOnce(n: nat, id: nat)
    ensures Allocated(n)[id] == if id < n then 1 else 0
  {
    if n > 0 {
      AllocatedOnce(n - 1, id);
    }
  }

  /** Each ATResponse ever allocated is pending, freed once, or handed out once. */
  lemma {:induction false} EachResponseOnce(es: seq<Event>, id: nat)
    ensures Run(INIT, es).Some?
    ensures var s := Run(INIT, es).value;
            var pending := s.chan.response.Some? && s.chan.response.value.id == id;
            multiset(s.freed)[id] + multiset(s.handed)[id] + (if pending then 1 else 0)
            == if id < s.nextId then 1 else 0
  {
    Reachable(es);
    var s := Run(INIT, es).value;
    AllocatedOnce(s.nextId, id);
    if s.chan.response.Some? {
      assert multiset{s.chan.response.value.id}[id] == if s.chan.response.value.id == id then 1 else 0;
    }
  }

  /** What a caller receives: its lines in arrival order, the last final response
      of its time, and a success flag that agrees with it. */
  lemma {:induction false} Delivered(es: seq<Event>, r: Result)
    requires Run(INIT, es).Some? && r in Run(INIT, es).value.results && r.response.Some?
    ensures r.response.value.lines == Due(r.req, r.seen)
    ensures r.response.value.final == LastFinal(r.seen)
    ensures r.response.value.final.Some? ==>
              r.response.value.success == FinalSuccess(r.response.value.final.value)
    ensures r.err == Ok ==> LastFinal(r.seen).Some?
  {
    Reachable(es);
  }

  // ----- Due, read as counts -----

  lemma {:induction false} SelectCounts(kind: Kind, prefix: Option<Text>, lines: seq<Text>, x: Text)
    ensures multiset(Select(kind, prefix, lines))[x]
         == if Answers(kind, prefix, x) then multiset(lines)[x] else 0
  {
    if lines != [] {
      var front := lines[..|lines| - 1];
      SelectCounts(kind, prefix, front, x);
      assert lines == front + [lines[|lines| - 1]];
    }
  }

  /** MULTILINE keeps every match (but the answered prompt), SINGLELINE and NUMERIC
      one at most and only if there is one, NO_RESULT none. */
  lemma DueByKind(req: Request, seen: seq<Text>, x: Text)
    ensures req.kind == MultiLine ==>
              multiset(Due(req, seen))[x]
              == if Answers(req.kind, req.prefix, x) then multiset(DropPrompt(req.pdu, seen))[x] else 0
    ensures req.kind != MultiLine ==> |Due(req, seen)| <= 1
    ensures req.kind == NoResult ==> Due(req, seen) == []
    ensures x in DropPrompt(req.pdu, seen) && Answers(req.kind, req.prefix, x) ==> Due(req, seen) != []
  {
    SelectCounts(req.kind, req.prefix, DropPrompt(req.pdu, seen), x);
    if req.kind == NoResult {
      NoneAnswer(req.prefix, DropPrompt(req.pdu, seen));
    }
  }

  lemma {:induction false} NoneAnswer(prefix: Option<Text>, lines: seq<Text>)
    ensures Select(NoResult, prefix, lines) == []
  {
    if lines != [] {
      NoneAnswer(prefix, lines[..|lines| - 1]);
    }
  }
}
