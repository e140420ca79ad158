/** The AT reader's 8 KB input buffer and the loop that empties it into lines. */
module LineBuffer {
  import opened CText
  import opened AtLines
  import opened AtFetch

  /** The serial port: bytes arrive in chunks. A read delivers at most one chunk,
      and an empty chunk (like no chunk at all) is end of file or a read error. */
  class Port {
    var chunks: seq<Text>

    constructor (chunks: seq<Text>)
      ensures this.chunks == chunks
    {
      this.chunks := chunks;
    }

    method Read(dst: array<char>, at: nat, room: nat) returns (count: nat)
      requires 0 < room && at + room <= dst.Length
      modifies this, dst
      ensures count == ReadSize(old(chunks), room) && chunks == Rest(old(chunks), count)
      ensures forall i :: at <= i < at + count ==> dst[i] == old(chunks[0])[i - at]
      ensures forall i :: 0 <= i < dst.Length && !(at <= i < at + count) ==> dst[i] == old(dst[i])
    {
      if chunks == [] {
        return 0;
      }
      var first := chunks[0];
      count := if |first| <= room then |first| else room;
      forall i | 0 <= i < count {
        dst[at + i] := first[i];
      }
      chunks := if count == |first| then chunks[1..] else [first[count..]] + chunks[1..];
    }
  }

  class AtBuffer {
    const bytes: array<char>  // s_ATBuffer
    var cur: nat              // s_ATBufferCur
    ghost var end: nat        // where the NUL that ends the unread bytes is

    constructor ()
      ensures fresh(bytes) && cur == end && forall s: Text :: Unread(s, 0, 0)
    {
      bytes := new char[MAX_AT_RESPONSE + 1](_ => NUL);
      cur, end := 0, 0;
    }

    /** The unread bytes are s[k..e], and the NUL behind them is at n. */
    ghost predicate Held(s: Text, k: nat, e: nat, n: nat)
      reads this, bytes
    {
      && bytes.Length == MAX_AT_RESPONSE + 1 && cur <= n <= MAX_AT_RESPONSE
      && e == k + (n - cur) <= |s| && bytes[n] == NUL
      && forall i :: cur <= i < n ==> bytes[i] == s[k + (i - cur)]
    }

    ghost predicate Unread(s: Text, k: nat, e: nat)
      reads this, bytes
    {
      Held(s, k, e, end)
    }

    /** The array begins with s[base..e], and the cursor is at c. */
    ghost predicate Filled(s: Text, base: nat, c: nat, e: nat)
      reads this, bytes
    {
      && bytes.Length == MAX_AT_RESPONSE + 1
      && base <= c <= e <= |s| && e - base <= MAX_AT_RESPONSE
      && cur == c - base && end == e - base && bytes[end] == NUL
      && forall i :: 0 <= i < end ==> bytes[i] == s[base + i]
    }

    ghost predicate Loaded(s: Text, w: Wait)
      reads this, bytes
    {
      Fits(s, w) && Filled(s, w.base, w.cur, w.end)
    }

    /** Offset eol in the array is where s[c..e] has its first line end. */
    ghost predicate Ends(s: Text, c: nat, e: nat, eol: int)
      requires c <= e <= |s|
      reads this
    {
      if EolAt(s, c, e) < 0 then eol == -1 else eol == cur + (EolAt(s, c, e) - c)
    }

    lemma FilledUnread(s: Text, base: nat, c: nat, e: nat)
      requires Filled(s, base, c, e)
      ensures Unread(s, c, e)
    {
    }

    /** Steps the cursor over leading newlines. */
    method SkipNewlines(ghost s: Text, ghost k: nat, ghost e: nat)
      requires NulFree(s) && Unread(s, k, e)
      modifies this`cur
      ensures Unread(s, EolsEnd(s, k, e), e) && cur == old(cur) + (EolsEnd(s, k, e) - k)
    {
      ghost var c: nat := k;
      while IsEol(bytes[cur])
        invariant Unread(s, c, e) && k <= c && cur == old(cur) + (c - k)
        invariant EolsEnd(s, k, e) == EolsEnd(s, c, e)
        decreases end - cur
      {
        cur := cur + 1;
        c := c + 1;
      }
    }

    /** The end of the line at the cursor, or -1 when it is not complete. A prompt that
        is all the buffer holds ends at its terminator. */
    method FindNextEol(ghost s: Text, ghost c: nat, ghost e: nat) returns (eol: int)
      requires NulFree(s) && Unread(s, c, e)
      ensures Ends(s, c, e, eol)
    {
      if bytes[cur] == '>' && bytes[cur + 1] == ' ' && bytes[cur + 2] == NUL {
        assert s[c] == '>' && s[c + 1] == ' ';
        return cur + 2;
      }
      var p := cur;
      while bytes[p] != NUL && bytes[p] != '\r' && bytes[p] != '\n'
        invariant cur <= p <= end
        invariant LineEnd(s, c, e) == LineEnd(s, c + (p - cur), e)
        decreases end - p
      {
        p := p + 1;
      }
      return if bytes[p] == NUL then -1 else p;
    }

    /** Moves the partial line to the front of the buffer; p is its end there. */
    method MoveUp(ghost s: Text, ghost c: nat, ghost e: nat) returns (p: nat)
      requires NulFree(s) && Unread(s, c, e)
      modifies this, bytes
      ensures Filled(s, c, c, e) && p == end
    {
      NoNulBefore(s, c, e);
      hide NulFree;
      p := Compact();
      forall i | 0 <= i < p ensures bytes[i] == s[c + i] {
        assert old(bytes[cur + i]) == s[c + (old(cur) + i - old(cur))];
      }
    }

    lemma NoNulBefore(s: Text, c: nat, e: nat)
      requires NulFree(s) && Unread(s, c, e)
      ensures forall i :: cur <= i < end ==> bytes[i] != NUL
    {
    }

    /** strlen and memmove. */
    method Compact() returns (len: nat)
      requires cur <= end < bytes.Length && bytes[end] == NUL && forall i :: cur <= i < end ==> bytes[i] != NUL
      modifies this, bytes
      ensures len == old(end - cur) && cur == 0 && end == len
      ensures forall i :: 0 <= i <= len ==> bytes[i] == old(bytes[cur + i])
    {
      hide *;
      len := 0;
      while bytes[cur + len] != NUL
        invariant cur + len <= end
        decreases end - len
      {
        len := len + 1;
      }
      forall i | 0 <= i <= len {
        bytes[i] := bytes[cur + i];
      }
      cur, end := 0, len;
    }

    /** The part of readline before its read loop; p is where to read to. */
    method Prepare(ghost s: Text, ghost k: nat, ghost e: nat) returns (eol: int, p: nat)
      requires NulFree(s) && Unread(s, k, e)
      modifies this, bytes
      ensures var c := EolsEnd(s, k, e);
              Unread(s, c, e) && Ends(s, c, e, eol) && (eol < 0 ==> Filled(s, c, c, e) && p == end)
      ensures old(cur == end) ==> eol < 0 && forall i :: 0 < i < bytes.Length ==> bytes[i] == old(bytes[i])
    {
      hide NulFree;
      if bytes[cur] == NUL {
        NothingUnread(s, k, e);
        cur, end := 0, 0;
        bytes[0] := NUL;
        return -1, 0;
      }
      eol, p := Resume(s, k, e);
    }

    lemma NothingUnread(s: Text, k: nat, e: nat)
      requires NulFree(s) && Unread(s, k, e) && bytes[cur] == NUL
      ensures k == e && EolsEnd(s, k, e) == e && EolAt(s, e, e) == -1
    {
    }

    /** There is unread data: skip newlines and look for a line; move up a partial one. */
    method Resume(ghost s: Text, ghost k: nat, ghost e: nat) returns (eol: int, p: nat)
      requires NulFree(s) && Unread(s, k, e)
      modifies this, bytes
      ensures var c := EolsEnd(s, k, e);
              Unread(s, c, e) && Ends(s, c, e, eol) && (eol < 0 ==> Filled(s, c, c, e) && p == end)
    {
      hide NulFree;
      SkipNewlines(s, k, e);
      ghost var c := EolsEnd(s, k, e);
      p := 0;
      eol := FindNextEol(s, c, e);
      if eol < 0 {
        p := MoveUp(s, c, e);
        FilledUnread(s, c, c, e);
      }
    }

    /** A full buffer in which no line ended is emptied. */
    method Ditch(ghost s: Text, ghost w: Wait)
      requires Loaded(s, w) && end == MAX_AT_RESPONSE
      modifies this, bytes
      ensures Loaded(s, Emptied(w)) && cur == end == 0
    {
      cur, end := 0, 0;
      bytes[0] := NUL;
    }

    method MakeRoom(p: nat, ghost s: Text, ghost w: Wait) returns (p2: nat)
      requires Loaded(s, w) && p == end
      modifies this, bytes
      ensures Loaded(s, Emptied(w)) && p2 == end < MAX_AT_RESPONSE
      ensures Emptied(w).base == w.base ==> forall i :: 0 <= i < bytes.Length ==> bytes[i] == old(bytes[i])
    {
      p2 := p;
      if MAX_AT_RESPONSE - p == 0 {
        Ditch(s, w);
        p2 := 0;
      }
    }

    /** Reads once behind the bytes in the buffer and ends them with NUL. Nothing
        changes when the port has nothing to give. */
    method Append(port: Port, p: nat, ghost s: Text, ghost base: nat, ghost c: nat, ghost e: nat)
      returns (count: nat)
      requires Filled(s, base, c, e) && Brings(s, e, port.chunks) && p == end < MAX_AT_RESPONSE
      modifies this`end, bytes, port
      ensures count == ReadSize(old(port.chunks), base + MAX_AT_RESPONSE - e)
      ensures e + count <= |s| && Filled(s, base, c, e + count)
      ensures Brings(s, e + count, port.chunks) && port.chunks == Rest(old(port.chunks), count)
      ensures forall i :: end < i < bytes.Length ==> bytes[i] == old(bytes[i])
    {
      hide Brings;
      ghost var chunks := port.chunks;
      BringsRest(s, e, chunks, base + MAX_AT_RESPONSE - e);
      ReadText(s, e, chunks, base + MAX_AT_RESPONSE - e);
      count := ReadBehind(port, p);
      forall i | p <= i < p + count ensures bytes[i] == s[base + i] {
        assert chunks[0][i - p] == s[e + (i - p)];
      }
    }

    /** read, and the NUL behind it. */
    method ReadBehind(port: Port, p: nat) returns (count: nat)
      requires p == end < MAX_AT_RESPONSE && bytes.Length == MAX_AT_RESPONSE + 1
      modifies this`end, bytes, port
      ensures count == ReadSize(old(port.chunks), MAX_AT_RESPONSE - p) && port.chunks == Rest(old(port.chunks), count)
      ensures end == p + count <= MAX_AT_RESPONSE
      ensures if count == 0 then bytes[end] == old(bytes[end]) else bytes[end] == NUL
      ensures forall i :: p <= i < p + count ==> bytes[i] == old(port.chunks[0])[i - p]
      ensures forall i :: 0 <= i < p || p + count < i < bytes.Length ==> bytes[i] == old(bytes[i])
    {
      hide *;
      count := port.Read(bytes, p, MAX_AT_RESPONSE - p);
      if count > 0 {
        bytes[p + count] := NUL;
        end := p + count;
      }
    }

    /** One pass of the read loop: empty a full buffer, then read once. w2 is the state
        after it, with the cursor behind the newlines. */
    method ReadMore(port: Port, p: nat, ghost s: Text, ghost w: Wait)
      returns (count: nat, eol: int, p2: nat, ghost w2: Wait)
      requires NulFree(s) && Loaded(s, w) && p == end && Brings(s, w.end, port.chunks)
      modifies this, bytes, port
      ensures w.end + count <= |s| && w2 == AfterRead(s, w, count) && Brings(s, w2.end, port.chunks)
      ensures Filled(s, w2.base, w2.cur, w2.end) && p2 == end
      ensures if count > 0 then Ends(s, w2.cur, w2.end, eol) else eol == -1
      ensures count == CountOf(w, old(port.chunks)) && port.chunks == Rest(old(port.chunks), count)
      ensures w2.base == w.base ==> forall i :: end < i < bytes.Length ==> bytes[i] == old(bytes[i])
    {
      hide NulFree, Brings, Fits, Ends, EolAt, EolsEnd;
      ghost var v := Emptied(w);
      p2 := MakeRoom(p, s, w);
      count := Append(port, p2, s, v.base, v.cur, v.end);
      eol := -1;
      NothingRead(s, v);
      if count > 0 {
        eol := Scan(s, v, v.end + count);
      }
      p2 := p2 + count;
      w2 := AfterRead(s, w, count);
    }

    /** Skip newlines and look for a line in what was read. */
    method Scan(ghost s: Text, ghost v: Wait, ghost e: nat) returns (eol: int)
      requires NulFree(s) && Filled(s, v.base, v.cur, e)
      modifies this`cur
      ensures var c := EolsEnd(s, v.cur, e); Filled(s, v.base, c, e) && Ends(s, c, e, eol)
    {
      hide NulFree;
      SkipNewlines(s, v.cur, e);
      eol := FindNextEol(s, EolsEnd(s, v.cur, e), e);
    }

    /** The read loop has come to w, and f is what the call will return. */
    ghost predicate Underway(s: Text, w: Wait, f: Fetch, chunks: seq<Text>, eol: int, p: nat)
      reads this, bytes
    {
      && w.cur <= w.end <= |s| && Unread(s, w.cur, w.end) && Brings(s, w.end, chunks)
      && if eol < 0 then Loaded(s, w) && p == end && f == Await(s, w, chunks)
         else Located(s, w, eol) && f == FoundAt(s, w, chunks)
    }

    /** As long as nothing is thrown away, the array begins with s[k]. */
    ghost predicate Whole(s: Text, k: nat, w: Wait)
      reads this, bytes
    {
      w.from == k ==> w.base == k && Filled(s, k, w.cur, w.end)
    }

    /** The read loop: the end of the next line, or -1 when the port is exhausted. */
    method AwaitEol(port: Port, ghost s: Text, ghost k: nat, ghost e: nat)
      returns (eol: int, ghost w: Wait, ghost f: Fetch)
      requires NulFree(s) && Unread(s, k, e) && Brings(s, e, port.chunks)
      modifies this, bytes, port
      ensures f == FetchLine(s, k, e, old(port.chunks))
      ensures Unread(s, w.cur, w.end) && Brings(s, w.end, port.chunks) && k <= w.from
      ensures if eol < 0 then f.outcome == Exhausted(w.cur) && f.end == w.end
              else Located(s, w, eol) && f == FoundAt(s, w, port.chunks)
      ensures eol >= 0 && old(cur == end) && w.from == k ==>
                Filled(s, k, w.cur, w.end) && forall i :: end < i < bytes.Length ==> bytes[i] == old(bytes[i])
    {
      hide NulFree, Brings, FetchLine, Await, Underway, Whole, Unread, Filled;
      var p;
      eol, p, w, f := Begin(port, s, k, e);
      while eol < 0
        invariant k <= w.from && w.end <= |s| && Underway(s, w, f, port.chunks, eol, p)
        invariant old(cur == end) ==>
                    Whole(s, k, w)
                    && (w.from == k ==> forall i :: end < i < bytes.Length ==> bytes[i] == old(bytes[i]))
        decreases |s| - w.end
      {
        var more;
        more, eol, p, w := Pass(port, eol, p, s, k, w, f);
        if !more {
          return;
        }
      }
      Arrived(s, k, w, f, port.chunks, eol, p);
    }

    lemma Arrived(s: Text, k: nat, w: Wait, f: Fetch, chunks: seq<Text>, eol: int, p: nat)
      requires Underway(s, w, f, chunks, eol, p) && eol >= 0
      ensures Unread(s, w.cur, w.end) && Brings(s, w.end, chunks) && Located(s, w, eol) && f == FoundAt(s, w, chunks)
      ensures Whole(s, k, w) && w.from == k ==> Filled(s, k, w.cur, w.end)
    {
    }

    method Begin(port: Port, ghost s: Text, ghost k: nat, ghost e: nat)
      returns (eol: int, p: nat, ghost w: Wait, ghost f: Fetch)
      requires NulFree(s) && Unread(s, k, e) && Brings(s, e, port.chunks)
      modifies this, bytes
      ensures f == FetchLine(s, k, e, port.chunks) && w.from == k && w.end == e <= |s|
      ensures Underway(s, w, f, port.chunks, eol, p)
      ensures old(cur == end) ==> Whole(s, k, w) && forall i :: end < i < bytes.Length ==> bytes[i] == old(bytes[i])
    {
      hide NulFree, Brings, FetchLine, Await;
      eol, p := Prepare(s, k, e);
      w := Wait(k, EolsEnd(s, k, e), EolsEnd(s, k, e), e);
      f := FetchLine(s, k, e, port.chunks);
      FetchStart(s, k, e, port.chunks);
    }

    /** The body of the read loop. */
    method Pass(port: Port, eol0: int, p: nat, ghost s: Text, ghost k: nat, ghost w: Wait, ghost f: Fetch)
      returns (more: bool, eol: int, p2: nat, ghost w2: Wait)
      requires NulFree(s) && w.end <= |s| && eol0 < 0 && Underway(s, w, f, port.chunks, eol0, p)
      modifies this, bytes, port
      ensures w.from <= w2.from
      ensures more ==> w.end < w2.end <= |s| && Underway(s, w2, f, port.chunks, eol, p2)
      ensures !more ==> eol == -1 && f.outcome == Exhausted(w2.cur) && f.end == w2.end
      ensures !more ==> Unread(s, w2.cur, w2.end) && Brings(s, w2.end, port.chunks)
      ensures old(Whole(s, k, w)) && k <= w.from ==>
                Whole(s, k, w2)
                && (w2.from == k ==>
                      && w.from == k && old(end) <= end
                      && forall i :: end < i < bytes.Length ==> bytes[i] == old(bytes[i]))
    {
      hide NulFree, Brings, Await, AfterRead, Emptied, CountOf, EolAt, EolsEnd;
      var count;
      count, eol, p2, w2 := ReadMore(port, p, s, w);
      FilledUnread(s, w2.base, w2.cur, w2.end);
      AwaitStep(s, w, old(port.chunks));
      BaseKept(s, w, count);
      more := count > 0;
    }

    ghost predicate Located(s: Text, w: Wait, eol: int)
      reads this
    {
      w.cur <= w.end <= |s| && EolAt(s, w.cur, w.end) >= 0 && eol == cur + (EolAt(s, w.cur, w.end) - w.cur)
    }

    /** After a prompt the cursor is one past the terminator, on a byte of earlier text
        or past the array. The array holds what the stream goes on with, all of it still
        to be read, exactly when that byte is there and is NUL; otherwise no NUL behind
        the cursor makes it so, and earlier text will be taken for new. */
    ghost predicate AfterPrompt(ret: nat, s: Text, e: nat)
      reads this, bytes
    {
      && cur == ret + 3 <= bytes.Length && bytes[ret] == '>' && bytes[ret + 1] == ' ' && bytes[ret + 2] == NUL
      && ((exists n :: Held(s, e, e, n)) <==> cur < bytes.Length && bytes[cur] == NUL)
      && ((exists n :: Held(s, e, e, n)) ==> Unread(s, e, e))
    }

    /** Ends the line found at s[w.cur..w.end] and steps over its terminator. */
    method Take(eol: nat, ghost s: Text, ghost w: Wait) returns (ret: nat)
      requires NulFree(s) && Located(s, w, eol) && Unread(s, w.cur, w.end)
      modifies this, bytes
      ensures var q := EolAt(s, w.cur, w.end);
              && ret == old(cur) && cur == eol + 1 && eol < bytes.Length && bytes[eol] == NUL
              && (q < w.end ==> Unread(s, q + 1, w.end) && CString(bytes[ret..]) == s[w.cur..q])
              && (q == w.end ==> AfterPrompt(ret, s, w.end))
      ensures forall i :: 0 <= i < bytes.Length && i != eol ==> bytes[i] == old(bytes[i])
    {
      hide NulFree, CString, NoEol;
      ret := cur;
      bytes[eol] := NUL;
      cur := eol + 1;
      ghost var q := EolAt(s, w.cur, w.end);
      if q < w.end {
        assert bytes[ret..][..eol - ret] == s[w.cur..q];
        SliceNulFree(s, w.cur, q);
        CStringIs(bytes[ret..], eol - ret);
      } else if cur < bytes.Length && bytes[cur] == NUL {
        end := cur;
        assert Held(s, w.end, w.end, cur);
      }
    }

    /** What the array holds after a call that began with an empty buffer and threw
        nothing away: the bytes read, the NUL set, and behind them what was there. */
    twostate predicate Written(s: Text, k: nat, f: Fetch, ret: nat)
      reads this, bytes
    {
      && !f.outcome.Exhausted?
      && var c := if f.outcome.GotLine? then f.outcome.line.start else f.outcome.at;
         var q := if f.outcome.GotLine? then f.outcome.line.end else f.end;
         && k <= c <= q <= f.end <= |s| && f.end - k < bytes.Length
         && ret == c - k && cur == q + 1 - k && bytes[q - k] == NUL
         && (forall i :: 0 <= i < f.end - k && i != q - k ==> bytes[i] == s[k + i])
         && (forall i :: f.end - k < i < bytes.Length ==> bytes[i] == old(bytes[i]))
    }

    /** Returns the offset of the next line, or -1 when the port is exhausted: exactly
        what FetchLine says, for any chunks. */
    method ReadLine(port: Port, ghost s: Text, ghost k: nat, ghost e: nat)
      returns (ret: int, ghost f: Fetch)
      requires NulFree(s) && Unread(s, k, e) && Brings(s, e, port.chunks)
      modifies this, bytes, port
      ensures f == FetchLine(s, k, e, old(port.chunks)) && Brings(s, f.end, port.chunks)
      ensures match f.outcome
              case GotLine(l) =>
                && port.chunks == f.chunks && Unread(s, l.end + 1, f.end)
                && 0 <= ret <= bytes.Length && CString(bytes[ret..]) == s[l.start..l.end]
              case GotPrompt(at) => port.chunks == f.chunks && 0 <= ret && AfterPrompt(ret, s, f.end)
              case Exhausted(at) => ret == -1 && Unread(s, at, f.end)
      ensures old(cur == end) && f.from == k && ret >= 0 ==> Written(s, k, f, ret)
    {
      hide NulFree, Brings, FetchLine, Await, AfterPrompt, CString;
      var eol;
      ghost var w;
      eol, w, f := AwaitEol(port, s, k, e);
      if eol < 0 {
        return -1, f;
      }
      ret := Take(eol, s, w);
    }
  }

  lemma SliceNulFree(s: Text, c: nat, q: nat)
    requires NulFree(s) && c <= q <= |s|
    ensures NulFree(s[c..q])
  {
  }

  ghost function FoundAt(s: Text, w: Wait, chunks: seq<Text>): Fetch
    requires w.cur <= w.end <= |s| && EolAt(s, w.cur, w.end) >= 0
  {
    Found(s, w.from, w.cur, EolAt(s, w.cur, w.end), w.end, chunks)
  }

  lemma FetchStart(s: Text, k: nat, e: nat, chunks: seq<Text>)
    requires k <= e <= |s| && e - k <= MAX_AT_RESPONSE
    ensures var c := EolsEnd(s, k, e);
            var w := Wait(k, c, c, e);
            var f := FetchLine(s, k, e, chunks);
            if EolAt(s, c, e) >= 0 then f == FoundAt(s, w, chunks)
            else Fits(s, w) && f == Await(s, w, chunks)
  {
  }

  /** Only discarding a full buffer moves its front. */
  lemma BaseKept(s: Text, w: Wait, n: nat)
    requires Fits(s, w) && w.end + n <= |s|
    ensures var v := AfterRead(s, w, n);
            w.from <= v.from && (v.from == w.from <==> v.base == w.base) && v.end == w.end + n
  {
  }

  lemma NothingRead(s: Text, v: Wait)
    requires Fits(s, v)
    ensures EolsEnd(s, v.cur, v.end) == v.cur
  {
  }

  lemma ReadText(s: Text, e: nat, chunks: seq<Text>, room: nat)
    requires Brings(s, e, chunks)
    ensures var n := ReadSize(chunks, room);
            e + n <= |s| && (forall i :: 0 <= i < n ==> chunks[0][i] == s[e + i])
  {
    hide Joined;
    BringsRest(s, e, chunks, room);
    if chunks != [] {
      var n := ReadSize(chunks, room);
      JoinedRest(chunks, n);
      var first, rest := chunks[0][..n], s[e..];
      assert first == rest[..n];
      forall i | 0 <= i < n ensures chunks[0][i] == s[e + i] {
        assert chunks[0][i] == first[i] == rest[i];
      }
    }
  }
}
