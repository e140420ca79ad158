/** Reading byte by byte: the chunks that lose every line too long for the buffer, and so the
    exact condition under which no chunks do. */
module AtBytewise {
  import opened CText
  import opened AtLines
  import opened AtFetch
  import opened AtDelivery

  /** s[e..] in chunks of one byte. */
  function Bytes(s: Text, e: nat): seq<Text>
    requires e <= |s|
    decreases |s| - e
  {
    if e == |s| then [] else [[s[e]]] + Bytes(s, e + 1)
  }

  lemma {:induction false} BytesBring(s: Text, e: nat)
    requires e <= |s|
    ensures Brings(s, e, Bytes(s, e)) && NoneEmpty(Bytes(s, e))
    decreases |s| - e
  {
    if e < |s| {
      BytesBring(s, e + 1);
      assert Bytes(s, e)[1..] == Bytes(s, e + 1);
      assert [s[e]] + s[e + 1..] == s[e..];
    }
  }

  /** One pass of the read loop then reads one byte. */
  lemma ByteStep(s: Text, w: Wait)
    requires Fits(s, w) && w.end < |s|
    ensures CountOf(w, Bytes(s, w.end)) == 1 && Rest(Bytes(s, w.end), 1) == Bytes(s, w.end + 1)
    ensures var v := AfterRead(s, w, 1);
            var f := Await(s, w, Bytes(s, w.end));
            var q := EolAt(s, v.cur, v.end);
            && v.end == w.end + 1
            && (q >= 0 ==> q >= w.end && f == Found(s, v.from, v.cur, q, v.end, Bytes(s, v.end)))
            && (q < 0 ==> Fits(s, v) && f == Await(s, v, Bytes(s, v.end)))
  {
    AwaitStep(s, w, Bytes(s, w.end));
  }

  /** A line is returned as soon as its terminator has been read. */
  lemma {:induction false} ByteEnds(s: Text, w: Wait)
    requires Fits(s, w)
    ensures var f := Await(s, w, Bytes(s, w.end));
            f.outcome.GotLine? ==> f.end == f.outcome.line.end + 1 && f.chunks == Bytes(s, f.end)
    decreases |s| - w.end
  {
    hide Await, EolAt, AfterRead;
    if w.end < |s| {
      ByteStep(s, w);
      if EolAt(s, AfterRead(s, w, 1).cur, w.end + 1) < 0 {
        ByteEnds(s, AfterRead(s, w, 1));
      }
    } else {
      AwaitStep(s, w, []);
    }
  }

  /** A line that starts in the first buffer and ends behind it is not returned whole. */
  lemma {:induction false} ByteLoses(s: Text, k: nat, l: Line, w: Wait)
    requires k <= l.start < l.end < |s| && AllEol(s, k, l.start) && NoEol(s, l.start, l.end)
    requires l.start < k + MAX_AT_RESPONSE <= l.end
    requires Fits(s, w) && w.from == w.base == k
    ensures var f := Await(s, w, Bytes(s, w.end)); f.outcome.GotLine? ==> f.outcome.line.start > l.start
    decreases |s| - w.end
  {
    hide Await, EolAt;
    if w.end == k + MAX_AT_RESPONSE {
      AwaitLater(s, w, Bytes(s, w.end));
    } else {
      ByteStep(s, w);
      var v := AfterRead(s, w, 1);
      NoEndYet(s, k, l, v.cur, v.end);
      if EolAt(s, v.cur, v.end) < 0 {
        ByteLoses(s, k, l, v);
      }
    }
  }

  lemma NoEndYet(s: Text, k: nat, l: Line, c: nat, e: nat)
    requires k <= l.start < l.end < |s| && AllEol(s, k, l.start) && NoEol(s, l.start, l.end)
    requires k <= c <= e <= l.end && AllEol(s, k, c) && (c < e ==> !IsEol(s[c]))
    ensures EolAt(s, c, e) < 0 || EolAt(s, c, e) == e
  {
  }

  lemma AwaitLater(s: Text, w: Wait, chunks: seq<Text>)
    requires Fits(s, w) && w.from == w.base && w.end == w.base + MAX_AT_RESPONSE
    ensures var f := Await(s, w, chunks); f.outcome.GotLine? ==> f.outcome.line.start >= w.end
  {
    AwaitDiscards(s, w.from, w, chunks);
  }

  // ----- Counting -----

  lemma {:induction false} LinesBehind(s: Text, c: nat, d: nat)
    requires c <= d <= |s|
    ensures |Lines(s, d)| <= |Lines(s, c)|
    decreases d - c
  {
    hide *;
    if c < d {
      LinesBehind(s, c + 1, d);
      OneLater(s, c);
    }
  }

  lemma OneLater(s: Text, c: nat)
    requires c < |s|
    ensures |Lines(s, c + 1)| <= |Lines(s, c)|
  {
    hide *;
    LinesAt(s, c);
    LinesAt(s, c + 1);
    LineEndNext(s, c);
  }

  lemma LineEndNext(s: Text, c: nat)
    requires c < |s|
    ensures LineEnd(s, c, |s|) == c || LineEnd(s, c, |s|) == LineEnd(s, c + 1, |s|)
  {
  }

  lemma {:induction false} ReceivedCount(s: Text, c: nat, e: nat, chunks: seq<Text>)
    requires c <= e <= |s| && e - c <= MAX_AT_RESPONSE
    ensures |Received(s, c, e, chunks)| <= |Lines(s, c)|
    decreases |s| - c
  {
    hide FetchLine, NextLine;
    var f := FetchLine(s, c, e, chunks);
    FetchDiscards(s, c, e, chunks);
    if f.outcome.GotLine? {
      LinesBehind(s, c, f.from);
      ReceivedCount(s, f.outcome.line.end + 1, f.end, f.chunks);
    }
  }

  /** When a call does not return the next line whole, the lines received are not those
      of the stream, whatever comes after. */
  lemma LostForGood(s: Text, k: nat, e: nat, chunks: seq<Text>)
    requires k <= e <= |s| && e - k <= MAX_AT_RESPONSE && NextLine(s, k).Some?
    requires var f := FetchLine(s, k, e, chunks);
             f.outcome.GotLine? ==> f.outcome.line.start > NextLine(s, k).value.start
    ensures Received(s, k, e, chunks) != Lines(s, k)
  {
    hide *;
    var f := FetchLine(s, k, e, chunks);
    var l := NextLine(s, k).value;
    LinesBegin(s, k);
    ReceivedBegins(s, k, e, chunks);
    if f.outcome.GotLine? {
      var m := f.outcome.line;
      NextBehindGap(s, k, e, chunks);
      ReceivedCount(s, m.end + 1, f.end, f.chunks);
      LaterLine(s, k, f.from);
      if m.end == l.end {
        assert |s[m.start..m.end]| < |s[l.start..l.end]|;
      }
    }
  }

  lemma LinesBegin(s: Text, k: nat)
    requires k <= |s| && NextLine(s, k).Some?
    ensures var l := NextLine(s, k).value;
            k <= l.start < l.end < |s| && Lines(s, k) != [] && Lines(s, k)[0] == s[l.start..l.end]
  {
    hide NextLine;
  }

  lemma ReceivedBegins(s: Text, k: nat, e: nat, chunks: seq<Text>)
    requires k <= e <= |s| && e - k <= MAX_AT_RESPONSE
    ensures var f := FetchLine(s, k, e, chunks);
            var r := Received(s, k, e, chunks);
            if f.outcome.GotLine? then
              var m := f.outcome.line;
              && m.end + 1 <= f.end <= |s| && f.end - (m.end + 1) <= MAX_AT_RESPONSE && m.start < m.end
              && r == [s[m.start..m.end]] + Received(s, m.end + 1, f.end, f.chunks)
            else r == []
  {
    hide FetchLine;
  }

  lemma NextBehindGap(s: Text, k: nat, e: nat, chunks: seq<Text>)
    requires k <= e <= |s| && e - k <= MAX_AT_RESPONSE
    ensures var f := FetchLine(s, k, e, chunks);
            f.outcome.GotLine? ==> k <= f.from <= |s| && NextLine(s, f.from) == Some(f.outcome.line)
  {
    hide FetchLine, NextLine, Discarded;
    FetchDiscards(s, k, e, chunks);
  }

  /** The next line from a later offset is the end of this line or a later one. */
  lemma LaterStart(s: Text, k: nat, d: nat)
    requires k <= d <= |s| && NextLine(s, k).Some? && NextLine(s, d).Some?
    ensures NextLine(s, d).value.end == NextLine(s, k).value.end
            || NextLine(s, d).value.start > NextLine(s, k).value.end
  {
    NextLineParts(s, k);
    NextLineParts(s, d);
    hide NextLine;
    var l, m := NextLine(s, k).value, NextLine(s, d).value;
    assert !IsEol(s[m.start]) && l.start <= m.start && IsEol(s[m.end]) && l.end <= m.end;
  }

  lemma LaterLine(s: Text, k: nat, d: nat)
    requires k <= d <= |s| && NextLine(s, k).Some? && NextLine(s, d).Some?
    ensures var l, m := NextLine(s, k).value, NextLine(s, d).value;
            m.end == l.end || |Lines(s, m.end + 1)| + 1 < |Lines(s, k)|
  {
    hide *;
    var l, m := NextLine(s, k).value, NextLine(s, d).value;
    LaterStart(s, k, d);
    OneMoreLine(s, k);
    if m.end != l.end {
      SameLine(s, d);
      OneMoreLine(s, m.start);
      LinesBehind(s, l.end + 1, m.start);
    }
  }

  lemma SameLine(s: Text, d: nat)
    requires d <= |s| && NextLine(s, d).Some?
    ensures NextLine(s, NextLine(s, d).value.start) == NextLine(s, d)
  {
    NextLineParts(s, d);
    NextLineIs(s, NextLine(s, d).value.start, NextLine(s, d).value.start, NextLine(s, d).value.end);
  }

  lemma OneMoreLine(s: Text, k: nat)
    requires k <= |s| && NextLine(s, k).Some?
    ensures |Lines(s, k)| == 1 + |Lines(s, NextLine(s, k).value.end + 1)|
  {
  }

  // ----- The exact condition -----

  /** Byte by byte, the lines are received only if each of them fits. */
  lemma {:induction false} BytewiseFits(s: Text, k: nat)
    requires PromptFree(s) && AtStart(s, k) && RunsFit(s, k)
    requires Received(s, k, k, Bytes(s, k)) == Lines(s, k)
    ensures LinesFit(s, k)
    decreases |s| - k
  {
    hide FetchLine, PromptFree, Brings, NoneEmpty, OneLine;
    if NextLine(s, k).Some? {
      var l := NextLine(s, k).value;
      NextLineParts(s, k);
      BytesBring(s, k);
      FetchBytes(s, k);
      if l.end < k + MAX_AT_RESPONSE {
        NextIsOne(s, k);
        FetchFits(s, k, l.start, l.end, k, Bytes(s, k));
        assert Received(s, k, k, Bytes(s, k))[1..] == Received(s, l.end + 1, l.end + 1, Bytes(s, l.end + 1));
        assert Lines(s, k)[1..] == Lines(s, l.end + 1);
        BytewiseFits(s, l.end + 1);
      } else {
        ByteLoses(s, k, l, Wait(k, k, k, k));
        LostForGood(s, k, k, Bytes(s, k));
      }
    }
  }

  lemma FetchBytes(s: Text, k: nat)
    requires k <= |s|
    ensures var f := FetchLine(s, k, k, Bytes(s, k));
            && f == Await(s, Wait(k, k, k, k), Bytes(s, k))
            && (f.outcome.GotLine? ==> f.end == f.outcome.line.end + 1 && f.chunks == Bytes(s, f.end))
  {
    ByteEnds(s, Wait(k, k, k, k));
  }

  /** All chunks that bring the stream bring its lines, exactly when each line fits the
      buffer together with the newlines before it (which alone are taken to fit). */
  lemma AllChunksIffLinesFit(s: Text)
    requires PromptFree(s) && RunsFit(s, 0)
    ensures LinesFit(s, 0) <==>
            forall chunks :: Brings(s, 0, chunks) && NoneEmpty(chunks) ==> Received(s, 0, 0, chunks) == Lines(s, 0)
  {
    hide Received, Brings, NoneEmpty, PromptFree, LinesFit, RunsFit;
    BytesBring(s, 0);
    if LinesFit(s, 0) {
      forall chunks | Brings(s, 0, chunks) && NoneEmpty(chunks)
        ensures Received(s, 0, 0, chunks) == Lines(s, 0)
      {
        ReceivesLines(s, 0, 0, chunks);
      }
    } else if Received(s, 0, 0, Bytes(s, 0)) == Lines(s, 0) {
      BytewiseFits(s, 0);
    }
  }

  /** A line as long as the buffer is never returned whole, for any chunks. */
  lemma AlwaysLost(s: Text, k: nat, e: nat, chunks: seq<Text>)
    requires k <= e <= |s| && e - k <= MAX_AT_RESPONSE && NextLine(s, k).Some?
    requires NextLine(s, k).value.end - NextLine(s, k).value.start >= MAX_AT_RESPONSE
    ensures Received(s, k, e, chunks) != Lines(s, k)
  {
    hide FetchLine;
    var f := FetchLine(s, k, e, chunks);
    var l := NextLine(s, k).value;
    if f.outcome.GotLine? {
      FetchDiscards(s, k, e, chunks);
      NextLineParts(s, k);
      NextLineParts(s, f.from);
    }
    LostForGood(s, k, e, chunks);
  }
}
