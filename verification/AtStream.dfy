/** From bytes to callers: the lines that the reader cuts out of the stream are the lines
    that the protocol's events process, so the results speak of the stream itself. */
module AtStream {
  import opened CText
  import opened AtLines
  import opened AtFetch
  import opened AtDelivery
  import opened AtResults
  import opened AtReader
  import opened AtChannel
  import opened AtProtocol
  import opened AtPartition

  // ----- The lines a run processes -----

  predicate Takes(s: Option<State>, e: Event) {
    s.Some? && e.Line? && Enabled(s.value, e)
  }

  /** The lines that processLine gets, in order. */
  function Took(es: seq<Event>): seq<Text> {
    if es == [] then []
    else
      var front := es[..|es| - 1];
      var e := es[|es| - 1];
      if Takes(Run(INIT, front), e) then Took(front) + [e.line] else Took(front)
  }

  /** The lines that served a command: those due to it, its final responses, its prompt. */
  ghost function Used(req: Request, seen: seq<Text>): multiset<Text> {
    multiset(Due(req, seen)) + multiset(Finals(seen))
    + (if req.pdu.Some? && "> " in seen then multiset{"> "} else multiset{})
  }

  ghost function UsedBy(results: seq<Result>): multiset<Text> {
    if results == [] then multiset{}
    else
      var r := results[|results| - 1];
      UsedBy(results[..|results| - 1]) + Used(r.req, r.seen)
  }

  ghost function UsedSoFar(s: State): multiset<Text> {
    if s.chan.response.Some? then Used(s.req, s.seen) else multiset{}
  }

  /** Each line processed served one command, or went to the unsolicited handler. */
  ghost predicate Accounted(s: State, took: seq<Text>) {
    multiset(took) == multiset(s.chan.unsolicited) + UsedBy(s.results) + UsedSoFar(s)
  }

  lemma UsedNone(req: Request)
    ensures Used(req, []) == multiset{}
  {
  }

  lemma UsedByOneMore(results: seq<Result>, r: Result)
    ensures UsedBy(results + [r]) == UsedBy(results) + Used(r.req, r.seen)
  {
    assert (results + [r])[..|results + [r]| - 1] == results;
  }

  lemma LineAccounted(s: State, took: seq<Text>, line: Text)
    requires Inv(s) && Balanced(s) && Balanced(ProcessLine(s, line)) && Accounted(s, took)
    ensures Accounted(ProcessLine(s, line), took + [line])
  {
    hide Used, Due, Finals, UsedBy, FateOf, Ledger, Pending, Sound, Partition, Asides, Processed;
    LineFrame(s, line);
    UnsolicitedAfter(s, line);
    if s.chan.response.Some? {
      ServedOrNot(s, took, line);
    }
  }

  lemma ServedOrNot(s: State, took: seq<Text>, line: Text)
    requires Balanced(s) && Balanced(ProcessLine(s, line)) && Accounted(s, took) && s.chan.response.Some?
    requires ProcessLine(s, line).chan.response.Some? && ProcessLine(s, line).results == s.results
    ensures Accounted(ProcessLine(s, line), took + [line])
  {
    hide Used, UsedBy, Balanced, ProcessLine;
    var t := ProcessLine(s, line);
    UsedOpen(s);
    UsedOpen(t);
    UnsolicitedAfter(s, line);
    SplitAt(s.chan.unsolicited, s.mark);
    SplitAt(t.chan.unsolicited, s.mark);
    var u, v := s.chan.unsolicited, t.chan.unsolicited;
    Moved(multiset(took), multiset(u[..s.mark]), multiset(u[s.mark..]), multiset(v[s.mark..]),
          UsedBy(s.results), Used(s.req, s.seen), Used(t.req, t.seen), multiset(s.seen), multiset{line});
  }

  lemma Moved(took: multiset<Text>, head: multiset<Text>, aside: multiset<Text>, aside': multiset<Text>,
              done: multiset<Text>, used: multiset<Text>, used': multiset<Text>,
              seen: multiset<Text>, line: multiset<Text>)
    requires took == head + aside + done + used
    requires seen == used + aside && seen + line == used' + aside'
    ensures took + line == head + aside' + done + used'
  {
    assert took + line == head + done + (seen + line);
  }

  lemma UnsolicitedAfter(s: State, line: Text)
    ensures var t := ProcessLine(s, line);
            && t.mark == s.mark && t.req == s.req
            && (s.chan.response.None? ==> t.chan.unsolicited == s.chan.unsolicited + [line])
            && (s.chan.response.Some? ==> t.seen == s.seen + [line])
            && (s.mark <= |s.chan.unsolicited| ==>
                  |t.chan.unsolicited| >= s.mark && t.chan.unsolicited[..s.mark] == s.chan.unsolicited[..s.mark])
  {
    hide FinalSuccess, FinalError;
  }

  lemma SplitAt(u: seq<Text>, m: nat)
    requires m <= |u|
    ensures multiset(u) == multiset(u[..m]) + multiset(u[m..])
  {
    assert u == u[..m] + u[m..];
  }

  lemma UsedOpen(s: State)
    requires Balanced(s) && s.chan.response.Some?
    ensures s.mark <= |s.chan.unsolicited|
    ensures multiset(s.seen) == Used(s.req, s.seen) + multiset(s.chan.unsolicited[s.mark..])
  {
  }

  /** A completed send moves its lines from the pending part to the results. */
  lemma ResultAccounted(s: State, t: State, took: seq<Text>, r: Result)
    requires Accounted(s, took) && t.results == s.results + [r] && t.chan.response.None?
    requires t.chan.unsolicited == s.chan.unsolicited && Used(r.req, r.seen) == UsedSoFar(s)
    ensures Accounted(t, took)
  {
    UsedByOneMore(s.results, r);
  }

  lemma SendAccounted(s: State, took: seq<Text>, req: Request, written: bool)
    requires Inv(s) && s.chan.response.None? && Accounted(s, took)
    ensures Accounted(BeginSend(s, req, written), took)
  {
    var t := BeginSend(s, req, written);
    UsedNone(req);
    if t.chan.response.None? {
      ResultAccounted(s, t, took, t.results[|s.results|]);
    }
  }

  lemma ResumeAccounted(s: State, took: seq<Text>)
    requires Inv(s) && Accounted(s, took) && Enabled(s, Resume)
    ensures Step(s, Resume).Some? ==> Accounted(Step(s, Resume).value, took)
  {
    hide Used, UsedBy;
    ResultAfterResume(s);
    ResumeUnsolicited(s);
    var t := Step(s, Resume).value;
    if t.results != s.results {
      assert t.results == s.results + [t.results[|s.results|]];
      ResultAccounted(s, t, took, t.results[|s.results|]);
    }
  }

  lemma ResumeUnsolicited(s: State)
    requires Enabled(s, Resume) && s.chan.response.Some?
    ensures Step(s, Resume).Some? && Step(s, Resume).value.chan.unsolicited == s.chan.unsolicited
  {
  }

  lemma OthersAccounted(s: State, e: Event, took: seq<Text>)
    requires Inv(s) && Accounted(s, took) && Enabled(s, e)
    requires e in {ReaderClosed, CloseFd, Close, Open, Wake, Expire}
    ensures Step(s, e).Some? && Accounted(Step(s, e).value, took)
  {
    hide Used, UsedBy, Ledger, Pending, Sound;
  }

  lemma StepAccounted(s: State, e: Event, took: seq<Text>)
    requires Inv(s) && Balanced(s) && Done(s) && Accounted(s, took)
    ensures Step(s, e).Some?
    ensures Accounted(Step(s, e).value, if Takes(Some(s), e) then took + [e.line] else took)
  {
    hide Accounted, Inv, Balanced, Done, BeginSend, ProcessLine;
    StepKeeps(s, e);
    StepKeepsPartition(s, e);
    if Enabled(s, e) {
      match e
      case Send(req, written) => NoResponse(s); SendAccounted(s, took, req, written);
      case Retry(written) =>
        NoResponse(s);
        SendAccounted(s, took, s.req.(retries := if s.req.retries > 0 then s.req.retries - 1 else 0), written);
      case Line(line) => LineAccounted(s, took, line);
      case Resume => ResumeAccounted(s, took);
      case _ => OthersAccounted(s, e, took);
    }
  }

  lemma NoResponse(s: State)
    requires Inv(s) && (s.pc == Idle || s.pc == Retrying)
    ensures s.chan.response.None?
  {
  }

  /** Conservation, over every interleaving. */
  lemma {:induction false} EveryLineAccounted(es: seq<Event>)
    ensures Run(INIT, es).Some?
    ensures Accounted(Run(INIT, es).value, Took(es))
  {
    Reachable(es);
    if es != [] {
      var front := es[..|es| - 1];
      EveryLineAccounted(front);
      Reachable(front);
      RunKeepsPartition(front);
      StepAccounted(Run(INIT, front).value, es[|es| - 1], Took(front));
    }
  }

  // ----- Which lines each command saw -----

  /** Offsets into the lines processed. */
  datatype Span = Span(from: nat, to: nat)

  /** For each completed send what came in during it, and where the pending one began. */
  datatype Marks = Marks(spans: seq<Span>, begun: nat)

  function Grown(m: Marks, ended: bool, begun: nat, took: nat): Marks {
    Marks(if ended then m.spans + [Span(begun, took)] else m.spans, begun)
  }

  function MarksAfter(m: Marks, s: State, t: State, e: Event, took: nat): Marks {
    var begun := if (e.Send? || e.Retry?) && Enabled(s, e) then took else m.begun;
    Grown(m, |t.results| > |s.results|, begun, took)
  }

  function MarksOf(es: seq<Event>): Marks {
    if es == [] then Marks([], 0)
    else
      var front := es[..|es| - 1];
      match (Run(INIT, front), Run(INIT, es))
      case (Some(s), Some(t)) => MarksAfter(MarksOf(front), s, t, es[|es| - 1], |Took(front)|)
      case _ => MarksOf(front)
  }

  predicate SawBlock(r: Result, took: seq<Text>, span: Span) {
    span.from <= span.to <= |took| && r.seen == took[span.from..span.to]
  }

  /** Each command saw one unbroken stretch of the lines processed, one after the other. */
  predicate Marked(s: State, took: seq<Text>, m: Marks) {
    && |m.spans| == |s.results|
    && (forall i :: 0 <= i < |m.spans| ==> SawBlock(s.results[i], took, m.spans[i]))
    && (forall i, j :: 0 <= i < j < |m.spans| ==> m.spans[i].to <= m.spans[j].from)
    && (s.chan.response.Some? ==> Since(s, took, m))
  }

  predicate Since(s: State, took: seq<Text>, m: Marks) {
    && m.begun <= |took| && s.seen == took[m.begun..]
    && forall i :: 0 <= i < |m.spans| ==> m.spans[i].to <= m.begun
  }

  lemma MarkedSame(s: State, t: State, took: seq<Text>, m: Marks)
    requires Marked(s, took, m) && t.results == s.results
    requires t.chan.response.Some? ==> s.chan.response.Some? && t.seen == s.seen
    ensures Marked(t, took, m)
  {
  }

  lemma MarkedLine(s: State, t: State, took: seq<Text>, line: Text, m: Marks)
    requires Marked(s, took, m) && t.results == s.results
    requires t.chan.response.Some? ==> s.chan.response.Some? && t.seen == s.seen + [line]
    ensures Marked(t, took + [line], m)
  {
    forall i | 0 <= i < |m.spans| ensures SawBlock(t.results[i], took + [line], m.spans[i]) {
      assert SawBlock(s.results[i], took, m.spans[i]);
      assert (took + [line])[m.spans[i].from..m.spans[i].to] == took[m.spans[i].from..m.spans[i].to];
    }
    if t.chan.response.Some? {
      assert (took + [line])[m.begun..] == took[m.begun..] + [line];
    }
  }

  lemma MarkedResult(s: State, t: State, took: seq<Text>, m: Marks, begun: nat)
    requires Marked(s, took, m) && |t.results| == |s.results| + 1 && t.results[..|s.results|] == s.results
    requires t.chan.response.None? && begun <= |took| && t.results[|s.results|].seen == took[begun..]
    requires forall i :: 0 <= i < |m.spans| ==> m.spans[i].to <= begun
    ensures Marked(t, took, Marks(m.spans + [Span(begun, |took|)], begun))
  {
    var spans := m.spans + [Span(begun, |took|)];
    forall i | 0 <= i < |spans| ensures SawBlock(t.results[i], took, spans[i]) {
      assert i < |m.spans| ==> SawBlock(s.results[i], took, m.spans[i]) && t.results[i] == t.results[..|s.results|][i];
      assert took[begun..|took|] == took[begun..];
    }
  }

  lemma MarkedSend(s: State, took: seq<Text>, m: Marks, req: Request, written: bool)
    requires Inv(s) && s.chan.response.None? && Marked(s, took, m)
    ensures var t := BeginSend(s, req, written);
            Marked(t, took, Grown(m, |t.results| > |s.results|, |took|, |took|))
  {
    hide Marked, Ledger, Sound;
    SendCases(s, req, written);
    SpansBelow(s, took, m);
    var t := BeginSend(s, req, written);
    assert took[|took|..] == [];
    if t.chan.response.None? {
      MarkedResult(s, t, took, m, |took|);
    } else {
      MarkedInstalled(s, t, took, m);
    }
  }

  lemma SendCases(s: State, req: Request, written: bool)
    requires Inv(s) && s.chan.response.None?
    ensures var t := BeginSend(s, req, written);
            if t.chan.response.None? then
              && |t.results| == |s.results| + 1 && t.results[..|s.results|] == s.results
              && t.results[|s.results|].seen == []
            else t.results == s.results && t.seen == []
  {
  }

  lemma SpansBelow(s: State, took: seq<Text>, m: Marks)
    requires Marked(s, took, m)
    ensures forall i :: 0 <= i < |m.spans| ==> m.spans[i].to <= |took|
    ensures s.chan.response.Some? ==> Since(s, took, m)
  {
    assert forall i :: 0 <= i < |m.spans| ==> SawBlock(s.results[i], took, m.spans[i]);
  }

  lemma MarkedInstalled(s: State, t: State, took: seq<Text>, m: Marks)
    requires Marked(s, took, m) && t.results == s.results && t.seen == []
    ensures Marked(t, took, Marks(m.spans, |took|))
  {
    SpansBelow(s, took, m);
    assert took[|took|..] == [];
  }

  lemma MarkedResume(s: State, took: seq<Text>, m: Marks)
    requires s.chan.response.Some? && Marked(s, took, m) && Enabled(s, Resume)
    ensures Step(s, Resume).Some?
    ensures var t := Step(s, Resume).value;
            Marked(t, took, Grown(m, |t.results| > |s.results|, m.begun, |took|))
  {
    hide Marked, Step;
    ResultAfterResume(s);
    SpansBelow(s, took, m);
    var t := Step(s, Resume).value;
    if t.results == s.results {
      MarkedSame(s, t, took, m);
    } else {
      MarkedResult(s, t, took, m, m.begun);
    }
  }

  lemma OthersSame(s: State, e: Event)
    requires e in {ReaderClosed, CloseFd, Close, Open, Wake, Expire}
    ensures Step(s, e).Some?
    ensures var t := Step(s, e).value;
            t.results == s.results && (t.chan.response.Some? ==> s.chan.response.Some? && t.seen == s.seen)
  {
  }

  lemma StepMarked(s: State, e: Event, took: seq<Text>, m: Marks)
    requires Inv(s) && Marked(s, took, m)
    ensures Step(s, e).Some?
    ensures var t := Step(s, e).value;
            Marked(t, if Takes(Some(s), e) then took + [e.line] else took, MarksAfter(m, s, t, e, |took|))
  {
    hide Marked, Inv, BeginSend, ProcessLine;
    if !Enabled(s, e) {
      assert MarksAfter(m, s, s, e, |took|) == m;
    } else {
      match e
      case Send(req, written) => NoResponse(s); MarkedSend(s, took, m, req, written);
      case Retry(written) =>
        NoResponse(s);
        MarkedSend(s, took, m, s.req.(retries := if s.req.retries > 0 then s.req.retries - 1 else 0), written);
      case Line(line) =>
        LineFrame(s, line);
        UnsolicitedAfter(s, line);
        MarkedLine(s, ProcessLine(s, line), took, line, m);
      case Resume =>
        WaitingResponse(s);
        MarkedResume(s, took, m);
      case _ =>
        OthersSame(s, e);
        MarkedSame(s, Step(s, e).value, took, m);
    }
  }

  lemma WaitingResponse(s: State)
    requires Inv(s) && Enabled(s, Resume)
    ensures s.chan.response.Some?
  {
  }

  /** Over every interleaving, each send saw one stretch of the lines processed, and
      later sends saw later lines. */
  lemma {:induction false} EachSawItsBlock(es: seq<Event>)
    ensures Run(INIT, es).Some? && Marked(Run(INIT, es).value, Took(es), MarksOf(es))
  {
    Reachable(es);
    if es != [] {
      var front := es[..|es| - 1];
      EachSawItsBlock(front);
      Reachable(front);
      StepMarked(Run(INIT, front).value, es[|es| - 1], Took(front), MarksOf(front));
    }
  }

  // ----- End to end -----

  /** The lines that readerLoop gives to processLine. */
  function Singles(ds: seq<Delivery>): seq<Text> {
    if ds == [] then []
    else if ds[0].Single? then [ds[0].line] + Singles(ds[1..]) else Singles(ds[1..])
  }

  /** The lines of the two-line messages. */
  function PairLines(ds: seq<Delivery>): seq<Text> {
    if ds == [] then []
    else if ds[0].SmsPair? then LinesOf(ds[0]) + PairLines(ds[1..]) else PairLines(ds[1..])
  }

  lemma {:induction false} HandedSplit(ds: seq<Delivery>)
    ensures multiset(Handed(ds)) == multiset(Singles(ds)) + multiset(PairLines(ds))
  {
    if ds != [] {
      HandedSplit(ds[1..]);
    }
  }

  /** Every line of the byte stream ends in exactly one place: in a two-line message, cut
      off with its header by the end of the stream, with a command it was due to, ended or
      prompted, or with the unsolicited handler. */
  lemma {:induction false} StreamAccounted(lines: seq<Text>, es: seq<Event>)
    requires Took(es) == Singles(Group(lines))
    ensures Run(INIT, es).Some?
    ensures var t := Run(INIT, es).value;
            multiset(lines)
            == multiset(PairLines(Group(lines))) + multiset(CutOff(lines))
               + multiset(t.chan.unsolicited) + UsedBy(t.results) + UsedSoFar(t)
  {
    hide Took, Group, CutOff, Run, UsedBy, UsedSoFar;
    EveryLineAccounted(es);
    GroupPartitions(lines);
    HandedSplit(Group(lines));
    assert multiset(Handed(Group(lines)) + CutOff(lines)) == multiset(Handed(Group(lines))) + multiset(CutOff(lines));
  }

  /** What the callers get, read off the byte stream: send number i is given the lines due
      to it among one stretch of the single lines of the stream, in their order, and the
      stretches of later sends come later. */
  lemma {:induction false} StreamDelivered(lines: seq<Text>, es: seq<Event>, i: nat)
    requires Took(es) == Singles(Group(lines))
    requires Run(INIT, es).Some? && i < |Run(INIT, es).value.results|
    ensures var r := Run(INIT, es).value.results[i];
            var spans := MarksOf(es).spans;
            var singles := Singles(Group(lines));
            && i < |spans| && SawBlock(r, singles, spans[i])
            && (forall j :: i < j < |spans| ==> spans[i].to <= spans[j].from)
            && (r.response.Some? ==>
                  r.response.value.lines == Due(r.req, singles[spans[i].from..spans[i].to]))
  {
    hide Took, Group, Run, MarksOf, Due, Singles;
    EachSawItsBlock(es);
    var r := Run(INIT, es).value.results[i];
    if r.response.Some? {
      Delivered(es, r);
    }
  }

  /** The same, of the bytes: for any chunks that bring a stream whose lines fit the buffer
      and do not begin with a prompt, and any run that processes what the reader hands on. */
  lemma {:induction false} BytesAccounted(chunks: seq<Text>, es: seq<Event>)
    requires var s := Joined(chunks);
             && NoneEmpty(chunks) && PromptFree(s) && LinesFit(s, 0)
             && Took(es) == Singles(Group(Received(s, 0, 0, chunks)))
    ensures Run(INIT, es).Some?
    ensures var lines, t := Lines(Joined(chunks), 0), Run(INIT, es).value;
            multiset(lines)
            == multiset(PairLines(Group(lines))) + multiset(CutOff(lines))
               + multiset(t.chan.unsolicited) + UsedBy(t.results) + UsedSoFar(t)
  {
    hide *;
    StreamBrought(chunks);
    StreamAccounted(Lines(Joined(chunks), 0), es);
  }

  lemma StreamBrought(chunks: seq<Text>)
    requires var s := Joined(chunks); NoneEmpty(chunks) && PromptFree(s) && LinesFit(s, 0)
    ensures Received(Joined(chunks), 0, 0, chunks) == Lines(Joined(chunks), 0)
  {
    hide Received, Lines, PromptFree, LinesFit, Joined, NoneEmpty;
    assert Joined(chunks)[0..] == Joined(chunks);
    ReceivesLines(Joined(chunks), 0, 0, chunks);
  }
}
