/** One call of readline on values: which text of the stream it returns, for a buffer that
    still holds s[c..e] and chunks that bring the rest. */
module AtFetch {
  import opened CText
  import opened AtLines

  // ----- Chunks -----

  function Joined(chunks: seq<Text>): Text {
    if chunks == [] then [] else chunks[0] + Joined(chunks[1..])
  }

  /** What a read of n bytes leaves. */
  function Rest(chunks: seq<Text>, n: nat): seq<Text> {
    if chunks == [] then []
    else if n < |chunks[0]| then [chunks[0][n..]] + chunks[1..] else chunks[1..]
  }

  /** How much a read into the given room delivers: at most one chunk. Nothing is end of
      file or a read error. */
  function ReadSize(chunks: seq<Text>, room: nat): (n: nat)
    ensures n <= room
  {
    if chunks == [] then 0 else if |chunks[0]| <= room then |chunks[0]| else room
  }

  /** The chunks bring s[e..]. */
  predicate Brings(s: Text, e: nat, chunks: seq<Text>) {
    e <= |s| && Joined(chunks) == s[e..]
  }

  predicate NoneEmpty(chunks: seq<Text>) {
    forall i :: 0 <= i < |chunks| ==> chunks[i] != []
  }

  lemma JoinedRest(chunks: seq<Text>, n: nat)
    requires chunks != [] && n <= |chunks[0]|
    ensures n <= |Joined(chunks)| && Joined(Rest(chunks, n)) == Joined(chunks)[n..]
    ensures chunks[0][..n] == Joined(chunks)[..n]
  {
    if n < |chunks[0]| {
      assert Rest(chunks, n)[1..] == chunks[1..];
    }
  }

  lemma BringsRest(s: Text, e: nat, chunks: seq<Text>, room: nat)
    requires Brings(s, e, chunks)
    ensures var n := ReadSize(chunks, room); e + n <= |s| && Brings(s, e + n, Rest(chunks, n))
    ensures room > 0 && NoneEmpty(chunks) && ReadSize(chunks, room) == 0 ==> e == |s|
    ensures NoneEmpty(chunks) ==> NoneEmpty(Rest(chunks, ReadSize(chunks, room)))
  {
    if chunks != [] {
      JoinedRest(chunks, ReadSize(chunks, room));
    }
  }

  // ----- A call -----

  datatype Outcome = GotLine(line: Line) | GotPrompt(at: nat) | Exhausted(at: nat)

  /** What a call returns, from where it looked for it, how far the stream has then been
      read, and the chunks left. */
  datatype Fetch = Fetch(outcome: Outcome, from: nat, end: nat, chunks: seq<Text>)

  /** Between two reads: the buffer begins with s[base], the cursor is at cur, and end has
      been read. Only newlines lie between from and the cursor. */
  datatype Wait = Wait(from: nat, base: nat, cur: nat, end: nat)

  predicate Fits(s: Text, w: Wait) {
    && w.from <= w.base <= w.cur <= w.end <= |s| && w.end <= w.base + MAX_AT_RESPONSE
    && AllEol(s, w.from, w.cur) && NoEol(s, w.cur, w.end)
  }

  /** What findNextEOL reports for s[c..e]: a prompt that is all there is ends at e. */
  function EolAt(s: Text, c: nat, e: nat): (q: int)
    requires c <= e <= |s|
    ensures q < 0 ==> NoEol(s, c, e)
    ensures 0 <= q < e ==> NoEol(s, c, q) && IsEol(s[q])
    ensures q >= e ==> q == e == c + 2 && PromptAt(s, c)
  {
    if e == c + 2 && PromptAt(s, c) then e
    else if LineEnd(s, c, e) == e then -1 else LineEnd(s, c, e)
  }

  function Found(s: Text, from: nat, c: nat, q: nat, e: nat, chunks: seq<Text>): Fetch {
    Fetch(if q == e then GotPrompt(c) else GotLine(Line(c, q)), from, e, chunks)
  }

  /** A full buffer is emptied. */
  function Emptied(w: Wait): Wait {
    if w.end - w.base == MAX_AT_RESPONSE then Wait(w.end, w.end, w.end, w.end) else w
  }

  /** How much the next read delivers. */
  function CountOf(w: Wait, chunks: seq<Text>): nat
    requires w.base <= w.end <= w.base + MAX_AT_RESPONSE
  {
    ReadSize(chunks, Emptied(w).base + MAX_AT_RESPONSE - w.end)
  }

  /** A read of n bytes, and the newlines at the cursor passed over. */
  function AfterRead(s: Text, w: Wait, n: nat): Wait
    requires w.cur <= w.end && w.end + n <= |s|
  {
    var v := Emptied(w);
    Wait(v.from, v.base, EolsEnd(s, v.cur, w.end + n), w.end + n)
  }

  /** The read loop. */
  function Await(s: Text, w: Wait, chunks: seq<Text>): (f: Fetch)
    requires Fits(s, w)
    ensures Wellformed(s, w.cur, f)
    decreases |s| - w.end
  {
    var n := CountOf(w, chunks);
    if n == 0 || w.end + n > |s| then Fetch(Exhausted(Emptied(w).cur), Emptied(w).from, w.end, chunks)
    else
      var v := AfterRead(s, w, n);
      var q := EolAt(s, v.cur, v.end);
      if q >= 0 then Found(s, v.from, v.cur, q, v.end, Rest(chunks, n))
      else Await(s, v, Rest(chunks, n))
  }

  /** One pass of the read loop. */
  lemma AwaitStep(s: Text, w: Wait, chunks: seq<Text>)
    requires Fits(s, w) && w.end + CountOf(w, chunks) <= |s|
    ensures var n := CountOf(w, chunks);
            var v := AfterRead(s, w, n);
            var f := Await(s, w, chunks);
            var q := EolAt(s, v.cur, v.end);
            && (n == 0 ==> f == Fetch(Exhausted(v.cur), v.from, v.end, chunks))
            && (n > 0 && q >= 0 ==> f == Found(s, v.from, v.cur, q, v.end, Rest(chunks, n)))
            && (n > 0 && q < 0 ==> Fits(s, v) && f == Await(s, v, Rest(chunks, n)))
  {
    if CountOf(w, chunks) == 0 {
      assert EolsEnd(s, Emptied(w).cur, w.end) == Emptied(w).cur;
    }
  }

  predicate Wellformed(s: Text, c: nat, f: Fetch) {
    && c <= f.end <= |s|
    && match f.outcome
       case GotLine(l) => c <= l.start < l.end < f.end && l.end - l.start < MAX_AT_RESPONSE
                          && f.end - l.end <= MAX_AT_RESPONSE
       case GotPrompt(at) => c <= at && f.end == at + 2 && PromptAt(s, at)
       case Exhausted(at) => c <= at <= f.end
  }

  function FetchLine(s: Text, c: nat, e: nat, chunks: seq<Text>): (f: Fetch)
    requires c <= e <= |s| && e - c <= MAX_AT_RESPONSE
    ensures Wellformed(s, c, f)
  {
    var p := EolsEnd(s, c, e);
    var q := EolAt(s, p, e);
    if q >= 0 then Found(s, c, p, q, e, chunks) else Await(s, Wait(c, p, p, e), chunks)
  }
}
