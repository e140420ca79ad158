/** The AT response tokenizer: a cursor that cuts a shared string into fields by
    writing NULs into it. */
module AtTok {
  import opened CText
  import opened Numerals

  predicate IsSpace(c: char) {
    c == ' ' || '\t' <= c <= '\r'
  }

  // ----- What a call does to a cursor at offset k of the string s -----

  /** A token: s[start..start + len], ended by a NUL. */
  datatype Span = Span(start: nat, len: nat)

  /** A token and where the cursor goes; -1 is NULL. */
  datatype Cut = Cut(span: Span, next: int)

  function SpacesEnd(s: Text, k: nat): (e: nat)
    requires k <= |s|
    ensures k <= e <= |s|
    decreases |s| - k
  {
    if k < |s| && IsSpace(s[k]) then SpacesEnd(s, k + 1) else k
  }

  function SeparateAt(s: Text, c: char, k: nat): Cut
    requires k <= |s|
  {
    var p := Find(s, c, k, |s|);
    Cut(Span(k, p - k), if p == |s| then -1 else p + 1)
  }

  function AfterComma(s: Text, k: int): (p: int)
    requires -1 <= k <= |s|
    ensures k <= p <= |s|
  {
    if k < 0 then -1 else
      var p := Find(s, ',', k, |s|);
      if p == |s| then p else p + 1
  }

  function TakeAt(s: Text, k: nat): (t: Cut)
    requires k <= |s|
    ensures k <= t.span.start && t.span.start + t.span.len <= |s| && -1 <= t.next <= |s|
    ensures t.next >= 0 ==> t.span.start + t.span.len < t.next
  {
    var e := SpacesEnd(s, k);
    if e < |s| && s[e] == '"' then
      var q := SeparateAt(s, '"', e + 1);
      Cut(q.span, AfterComma(s, q.next))
    else SeparateAt(s, ',', e)
  }

  function TokenAt(s: Text, t: Span): Text
    requires t.start + t.len <= |s|
  {
    s[t.start..t.start + t.len]
  }

  /** 0 for a NULL cursor, else 1 and the length of the text at it. */
  function Measure(s: Text, k: int): nat
    requires k <= |s|
  {
    if k < 0 then 0 else 1 + |s| - k
  }

  /** at_tok_start: past the first colon, or NULL. */
  function StartAt(s: Text, k: int): (n: int)
    requires -1 <= k <= |s|
    ensures -1 <= n <= |s|
  {
    if k < 0 then -1 else SeparateAt(s, ':', k).next
  }

  // ----- strtol and strtoul with 32-bit longs -----

  /** The length of an optional sign at k. */
  function Sign(s: Text, k: nat): nat {
    if k < |s| && (s[k] == '-' || s[k] == '+') then 1 else 0
  }

  /** The length of an optional "0x" at k, which counts only before a digit. */
  function HexMark(s: Text, b: nat, k: nat): nat {
    if b == 16 && k + 2 < |s| && s[k] == '0' && (s[k + 1] == 'x' || s[k + 1] == 'X') && IsDigit(s[k + 2], 16)
    then 2 else 0
  }

  function DigitsEnd(s: Text, b: nat, k: nat): (e: nat)
    requires k <= |s|
    ensures k <= e <= |s| && forall i :: k <= i < e ==> IsDigit(s[i], b)
    decreases |s| - k
  {
    if k < |s| && IsDigit(s[k], b) then DigitsEnd(s, b, k + 1) else k
  }

  function Clamp(x: int, lo: int, hi: int): int {
    if x < lo then lo else if x > hi then hi else x
  }

  function ToInt32(x: int): (r: int)
    ensures -0x8000_0000 <= r < 0x8000_0000
  {
    var m := x % 0x1_0000_0000;
    if m < 0x8000_0000 then m else m - 0x1_0000_0000
  }

  /** What the digits x, with or without a minus sign, become as a long and then
      as an int. */
  function Converted(x: nat, negative: bool, unsigned: bool): int {
    var signed := if negative then 0 - x else x;
    ToInt32(if !unsigned then Clamp(signed, -0x8000_0000, 0x7FFF_FFFF)
            else if x > 0xFFFF_FFFF then 0xFFFF_FFFF
            else signed)
  }

  /** (int) strtol or strtoul of a token; None when it begins with no number. */
  function Integer(s: Text, b: nat, unsigned: bool): Option<int> {
    var i := SpacesEnd(s, 0);
    var j := i + Sign(s, i);
    var k := j + HexMark(s, b, j);
    var e := DigitsEnd(s, b, k);
    if e == k then None
    else Some(Converted(ValueOf(s[k..e], b), i < |s| && s[i] == '-', unsigned))
  }

  // ----- The cursor -----

  class Cursor {
    const text: array<char>
    var cur: int                  // *p_cur, -1 for NULL
    ghost const original: Text    // the string as it was before any call
    ghost var issued: seq<Span>   // the tokens handed out so far

    /** Token stability, as an invariant: each token issued still reads as it did,
        tokens and their NULs do not overlap and lie before the cursor, and the
        text from the cursor on is untouched. */
    ghost predicate Valid()
      reads this, text
    {
      && |original| < text.Length && text[|original|] == NUL && NulFree(original)
      && -1 <= cur <= |original|
      && (cur >= 0 ==> forall i :: cur <= i < |original| ==> text[i] == original[i])
      && (forall i :: 0 <= i < |issued| ==> Stable(issued[i]))
      && (forall i, j :: 0 <= i < j < |issued| ==> issued[i].start + issued[i].len < issued[j].start)
      && (cur >= 0 ==> forall i :: 0 <= i < |issued| ==> issued[i].start + issued[i].len < cur)
    }

    ghost predicate Stable(t: Span)
      requires |original| < text.Length
      reads text
    {
      && t.start + t.len <= |original|
      && (forall i :: t.start <= i < t.start + t.len ==> text[i] == original[i])
      && text[t.start + t.len] == NUL
    }

    constructor (s: Text)
      requires NulFree(s)
      ensures Valid() && original == s && cur == 0 && issued == [] && fresh(text)
    {
      text := new char[|s| + 1](i requires 0 <= i <= |s| => if i < |s| then s[i] else NUL);
      cur, original, issued := 0, s, [];
    }

    /** A token handed out is, after any further calls, still the C string it was. */
    lemma TokenReads(t: Span)
      requires Valid() && t in issued
      ensures t.start + t.len <= |original| && CString(text[t.start..]) == TokenAt(original, t)
    {
      var s := text[t.start..];
      assert s[..t.len] == TokenAt(original, t);
      CStringIs(s, t.len);
    }

    method AtTokStart() returns (ok: bool)
      requires Valid()
      modifies this`cur
      ensures Valid() && cur == StartAt(original, old(cur)) && (ok <==> cur >= 0)
    {
      if cur < 0 {
        return false;
      }
      while text[cur] != NUL && text[cur] != ':'
        invariant Valid() && 0 <= old(cur) <= cur
        invariant Find(original, ':', old(cur), |original|) == Find(original, ':', cur, |original|)
        decreases |original| - cur
      {
        cur := cur + 1;
      }
      if text[cur] == NUL {
        cur := -1;
        return false;
      }
      cur := cur + 1;
      return true;
    }

    method SkipWhiteSpace()
      requires Valid()
      modifies this`cur
      ensures Valid() && old(cur) <= cur
      ensures cur == if old(cur) < 0 then -1 else SpacesEnd(original, old(cur))
    {
      if cur < 0 {
        return;
      }
      while text[cur] != NUL && IsSpace(text[cur])
        invariant Valid() && 0 <= old(cur) <= cur
        invariant SpacesEnd(original, old(cur)) == SpacesEnd(original, cur)
        decreases |original| - cur
      {
        cur := cur + 1;
      }
    }

    method SkipNextComma()
      requires Valid()
      modifies this`cur
      ensures Valid() && cur == AfterComma(original, old(cur))
    {
      if cur < 0 {
        return;
      }
      while text[cur] != NUL && text[cur] != ','
        invariant Valid() && 0 <= old(cur) <= cur
        invariant Find(original, ',', old(cur), |original|) == Find(original, ',', cur, |original|)
        decreases |original| - cur
      {
        cur := cur + 1;
      }
      if text[cur] == ',' {
        cur := cur + 1;
      }
    }

    /** strsep with one delimiter, on a cursor that is not NULL. */
    method Strsep(delim: char) returns (ret: nat)
      requires Valid() && cur >= 0 && delim != NUL
      modifies this`cur, this`issued, text
      ensures Valid() && ret == old(cur)
      ensures cur == SeparateAt(original, delim, ret).next
      ensures issued == old(issued) + [SeparateAt(original, delim, ret).span]
    {
      ret := cur;
      var p := cur;
      while text[p] != NUL && text[p] != delim
        invariant ret <= p <= |original|
        invariant Find(original, delim, ret, |original|) == Find(original, delim, p, |original|)
        decreases |original| - p
      {
        p := p + 1;
      }
      EndToken(p);
    }

    /** Ends the token from the cursor to p and steps past it. */
    method EndToken(p: nat)
      requires Valid() && 0 <= cur <= p <= |original|
      modifies this`cur, this`issued, text
      ensures Valid() && cur == if p == |original| then -1 else p + 1
      ensures issued == old(issued) + [Span(old(cur), p - old(cur))]
    {
      var start := cur;
      cur := if text[p] == NUL then -1 else p + 1;
      text[p] := NUL;
      issued := issued + [Span(start, p - start)];
    }

    method NextTok() returns (ret: int)
      requires Valid()
      modifies this`cur, this`issued, text
      ensures Valid()
      ensures old(cur) < 0 ==> ret == -1 && cur < 0 && issued == old(issued)
      ensures old(cur) >= 0 ==>
                var t := TakeAt(original, old(cur));
                ret == t.span.start && cur == t.next && issued == old(issued) + [t.span]
    {
      SkipWhiteSpace();
      if cur < 0 {
        return -1;
      }
      if text[cur] == '"' {
        cur := cur + 1;
        ret := Strsep('"');
        SkipNextComma();
      } else {
        ret := Strsep(',');
      }
    }

    /** What a call that takes a token does to the cursor and the tokens. */
    twostate predicate Advanced(t: Cut)
      reads this
    {
      cur == t.next && issued == old(issued) + [t.span]
    }

    /** at_tok_nextint_base: on failure the number is 0 if a token was taken. */
    method NextIntBase(b: nat, unsigned: bool) returns (ok: bool, out: int)
      requires Valid() && IsBase(b)
      modifies this`cur, this`issued, text
      ensures Valid()
      ensures old(cur) < 0 ==> !ok && cur == old(cur) && issued == old(issued)
      ensures old(cur) >= 0 ==>
                var t := TakeAt(original, old(cur));
                var n := Integer(TokenAt(original, t.span), b, unsigned);
                && Advanced(t) && (ok <==> n.Some?) && out == if n.Some? then n.value else 0
    {
      if cur < 0 {
        return false, 0;
      }
      var ret := NextTok();
      TokenReads(issued[|issued| - 1]);
      var n := Integer(CString(text[ret..]), b, unsigned);  // strtol, strtoul
      return n.Some?, if n.Some? then n.value else 0;
    }

    method NextInt() returns (ok: bool, out: int)
      requires Valid()
      modifies this`cur, this`issued, text
      ensures Valid()
      ensures old(cur) < 0 ==> !ok && cur == old(cur) && issued == old(issued)
      ensures old(cur) >= 0 ==>
                var t := TakeAt(original, old(cur));
                var n := Integer(TokenAt(original, t.span), 10, false);
                && Advanced(t) && (ok <==> n.Some?) && out == if n.Some? then n.value else 0
    {
      ok, out := NextIntBase(10, false);
    }

    method NextHexInt() returns (ok: bool, out: int)
      requires Valid()
      modifies this`cur, this`issued, text
      ensures Valid()
      ensures old(cur) < 0 ==> !ok && cur == old(cur) && issued == old(issued)
      ensures old(cur) >= 0 ==>
                var t := TakeAt(original, old(cur));
                var n := Integer(TokenAt(original, t.span), 16, true);
                && Advanced(t) && (ok <==> n.Some?) && out == if n.Some? then n.value else 0
    {
      ok, out := NextIntBase(16, true);
    }

    method NextBool() returns (ok: bool, out: bool)
      requires Valid()
      modifies this`cur, this`issued, text
      ensures Valid()
      ensures old(cur) < 0 ==> !ok && cur == old(cur) && issued == old(issued)
      ensures old(cur) >= 0 ==>
                var t := TakeAt(original, old(cur));
                var n := Integer(TokenAt(original, t.span), 10, false);
                && Advanced(t) && (ok <==> n == Some(0) || n == Some(1)) && (ok ==> out == (n == Some(1)))
    {
      var read, result := NextInt();
      if !read || !(result == 0 || result == 1) {
        return false, false;
      }
      return true, result == 1;
    }

    /** at_tok_nextstr; success always comes with a token. */
    method NextStr() returns (ok: bool, out: int)
      requires Valid()
      modifies this`cur, this`issued, text
      ensures Valid() && (ok <==> old(cur) >= 0)
      ensures !ok ==> cur == old(cur) && issued == old(issued)
      ensures ok ==> var t := TakeAt(original, old(cur));
                     0 <= out == t.span.start < text.Length && Advanced(t)
                     && CString(text[out..]) == TokenAt(original, t.span)
    {
      if cur < 0 {
        return false, -1;
      }
      out := NextTok();
      TokenReads(issued[|issued| - 1]);
      ok := true;
    }

    method HasMore() returns (more: bool)
      requires Valid()
      ensures more <==> 0 <= cur < |original|
    {
      return cur >= 0 && text[cur] != NUL;
    }
  }

  // ----- Termination of token loops -----

  /** Every call on a cursor that is not NULL makes the measure smaller. */
  lemma TakeShrinks(s: Text, k: nat)
    requires k <= |s|
    ensures Measure(s, TakeAt(s, k).next) < Measure(s, k)
  {
    var e := SpacesEnd(s, k);
    if e < |s| && s[e] == '"' {
      var q := SeparateAt(s, '"', e + 1);
      assert q.next >= 0 ==> q.next <= AfterComma(s, q.next);
    }
  }

  /** The tokens that repeated calls take from k on, until the cursor is NULL. */
  function AllTokens(s: Text, k: int): seq<Span>
    requires -1 <= k <= |s|
    decreases Measure(s, k)
  {
    if k < 0 then [] else
      TakeShrinks(s, k);
      [TakeAt(s, k).span] + AllTokens(s, TakeAt(s, k).next)
  }

  /** A token loop takes at most one token more than there are characters left;
      the tokens and their NULs lie inside the string and do not overlap. */
  lemma {:induction false} TokenLoop(s: Text, k: int)
    requires -1 <= k <= |s|
    ensures |AllTokens(s, k)| <= Measure(s, k)
    ensures forall i :: 0 <= i < |AllTokens(s, k)| ==>
              var t := AllTokens(s, k)[i]; k <= t.start && t.start + t.len <= |s|
    ensures forall i, j :: 0 <= i < j < |AllTokens(s, k)| ==>
              AllTokens(s, k)[i].start + AllTokens(s, k)[i].len < AllTokens(s, k)[j].start
    decreases Measure(s, k)
  {
    if k >= 0 {
      var t := TakeAt(s, k);
      TakeShrinks(s, k);
      TokenLoop(s, t.next);
    }
  }

  // ----- Printing fields and reading them back -----

  datatype Field = Quoted(text: Text) | Plain(text: Text)

  predicate Printable(f: Field) {
    && NulFree(f.text)
    && match f
       case Quoted(t) => '"' !in t
       case Plain(t) => ',' !in t && (t != [] ==> !IsSpace(t[0]) && t[0] != '"')
  }

  /** A field as it may stand in a line: behind white space, and, if it is quoted, with
      anything but a comma between its closing quote and the next comma. */
  datatype Slot = Slot(pad: Text, field: Field, tail: Text)

  predicate AllSpaces(s: Text) {
    forall i :: 0 <= i < |s| ==> IsSpace(s[i])
  }

  predicate Fits(sl: Slot) {
    && AllSpaces(sl.pad) && Printable(sl.field) && NulFree(sl.tail) && ',' !in sl.tail
    && (sl.field.Plain? ==> sl.tail == [])
  }

  predicate AllPrintable(fs: seq<Slot>) {
    forall i :: 0 <= i < |fs| ==> Fits(fs[i])
  }

  function PrintField(f: Field): Text {
    match f
    case Quoted(t) => ['"'] + t + ['"']
    case Plain(t) => t
  }

  function Print(sl: Slot): Text {
    sl.pad + PrintField(sl.field) + sl.tail
  }

  function PrintAll(fs: seq<Slot>): Text
    requires fs != []
  {
    if |fs| == 1 then Print(fs[0]) else Print(fs[0]) + [','] + PrintAll(fs[1..])
  }

  function Texts(fs: seq<Slot>): seq<Text> {
    if fs == [] then [] else [fs[0].field.text] + Texts(fs[1..])
  }

  /** n calls of at_tok_nextstr from k on. */
  datatype ReadBack = ReadBack(tokens: seq<Text>, cur: int)

  function ReadStrings(s: Text, k: int, n: nat): ReadBack
    requires -1 <= k <= |s|
    decreases n
  {
    if n == 0 || k < 0 then ReadBack([], k)
    else
      var t := TakeAt(s, k);
      var rest := ReadStrings(s, t.next, n - 1);
      ReadBack([TokenAt(s, t.span)] + rest.tokens, rest.cur)
  }

  lemma {:induction false} SpacesEndIs(s: Text, k: nat, e: nat)
    requires k <= e <= |s| && (forall i :: k <= i < e ==> IsSpace(s[i])) && (e < |s| ==> !IsSpace(s[e]))
    ensures SpacesEnd(s, k) == e
    decreases e - k
  {
    if k < e {
      SpacesEndIs(s, k + 1, e);
    }
  }

  /** One printed field, with the end of the string or a comma behind it: its text comes
      back without the white space, quotes and tail, and the cursor is behind the comma. */
  lemma FieldRoundTrip(s: Text, k: nat, sl: Slot)
    requires Fits(sl) && k + |Print(sl)| <= |s| && s[k..k + |Print(sl)|] == Print(sl)
    requires k + |Print(sl)| < |s| ==> s[k + |Print(sl)|] == ','
    ensures var t := TakeAt(s, k);
            var e := k + |Print(sl)|;
            && TokenAt(s, t.span) == sl.field.text
            && t.next == if e < |s| then e + 1 else if sl.field.Quoted? then |s| else -1
  {
    hide *;
    SlotAt(s, k, sl);
    SlotPrinted(sl);
    SlotReads(s, k, sl);
  }

  lemma SlotPrinted(sl: Slot)
    requires Fits(sl)
    ensures Printable(sl.field) && |Print(sl)| >= |sl.pad| + |sl.field.text|
    ensures sl.field.Plain? ==> |Print(sl)| == |sl.pad| + |sl.field.text|
    ensures sl.field.Quoted? ==> |Print(sl)| >= |sl.pad| + |sl.field.text| + 2
  {
  }

  lemma SlotReads(s: Text, k: nat, sl: Slot)
    requires Printable(sl.field) && k + |Print(sl)| <= |s| && Placed(s, k, sl)
    requires k + |Print(sl)| < |s| ==> s[k + |Print(sl)|] == ','
    ensures var t := TakeAt(s, k);
            var e := k + |Print(sl)|;
            && TokenAt(s, t.span) == sl.field.text
            && t.next == if e < |s| then e + 1 else if sl.field.Quoted? then |s| else -1
  {
    hide Print, PrintField, TakeAt, TokenAt, NulFree;
    match sl.field
    case Quoted(t) => QuotedRoundTrip(s, k, k + |sl.pad|, t, k + |Print(sl)|);
    case Plain(t) => PlainRoundTrip(s, k, k + |sl.pad|, t);
  }

  /** Where the parts of a printed field are. */
  predicate Placed(s: Text, k: nat, sl: Slot)
    requires k + |Print(sl)| <= |s|
  {
    var e, m, n := k + |Print(sl)|, k + |sl.pad|, |sl.field.text|;
    && (forall i :: k <= i < m ==> IsSpace(s[i]))
    && (sl.field.Plain? ==> e == m + n && forall i :: m <= i < e ==> s[i] == sl.field.text[i - m])
    && (sl.field.Quoted? ==>
          && m + n + 2 <= e
          && (forall i :: m <= i < m + n + 2 ==> s[i] == (['"'] + sl.field.text + ['"'])[i - m])
          && (forall i :: m + n + 2 <= i < e ==> s[i] != ','))
  }

  lemma SlotAt(s: Text, k: nat, sl: Slot)
    requires Fits(sl) && k + |Print(sl)| <= |s| && s[k..k + |Print(sl)|] == Print(sl)
    ensures Placed(s, k, sl)
  {
    var e, m := k + |Print(sl)|, k + |sl.pad|;
    var x := m + |PrintField(sl.field)|;
    SliceParts(s, k, m, x, e, sl.pad, PrintField(sl.field), sl.tail);
    hide Print, NulFree, Printable;
    forall i | k <= i < m ensures IsSpace(s[i]) {
      assert s[i] == sl.pad[i - k];
    }
    forall i | x <= i < e ensures s[i] != ',' {
      assert s[i] == sl.tail[i - x];
    }
  }

  lemma SliceParts(s: Text, k: nat, m: nat, x: nat, e: nat, a: Text, b: Text, c: Text)
    requires e <= |s| && m == k + |a| && x == m + |b| && e == x + |c| && s[k..e] == a + b + c
    ensures forall i :: k <= i < m ==> s[i] == a[i - k]
    ensures forall i :: m <= i < x ==> s[i] == b[i - m]
    ensures forall i :: x <= i < e ==> s[i] == c[i - x]
  {
    forall i | k <= i < e ensures s[i] == (a + b + c)[i - k] {
      assert s[i] == s[k..e][i - k];
    }
  }

  lemma PlainRoundTrip(s: Text, k: nat, m: nat, t: Text)
    requires Printable(Plain(t)) && k <= m && m + |t| <= |s|
    requires forall i :: k <= i < m ==> IsSpace(s[i])
    requires forall i :: m <= i < m + |t| ==> s[i] == t[i - m]
    requires m + |t| < |s| ==> s[m + |t|] == ','
    ensures var e := m + |t|;
            && TakeAt(s, k) == Cut(Span(m, |t|), if e < |s| then e + 1 else -1)
            && TokenAt(s, Span(m, |t|)) == t
  {
    var e := m + |t|;
    assert m < |s| ==> !IsSpace(s[m]) && s[m] != '"';
    SpacesEndIs(s, k, m);
    FindIs(s, ',', m, |s|, e);
  }

  lemma QuotedRoundTrip(s: Text, k: nat, m: nat, t: Text, e: nat)
    requires '"' !in t && k <= m && m + |t| + 2 <= e <= |s|
    requires forall i :: k <= i < m ==> IsSpace(s[i])
    requires forall i :: m <= i < m + |t| + 2 ==> s[i] == (['"'] + t + ['"'])[i - m]
    requires (forall i :: m + |t| + 2 <= i < e ==> s[i] != ',') && (e < |s| ==> s[e] == ',')
    ensures TakeAt(s, k) == Cut(Span(m + 1, |t|), if e < |s| then e + 1 else |s|)
    ensures TokenAt(s, Span(m + 1, |t|)) == t
  {
    var q := m + |t| + 1;
    assert s[m] == '"' && s[q] == '"';
    assert forall i :: m + 1 <= i < q ==> s[i] == t[i - m - 1];
    SpacesEndIs(s, k, m);
    FindIs(s, '"', m + 1, |s|, q);
    FindIs(s, ',', q + 1, |s|, e);
    assert SeparateAt(s, '"', m + 1) == Cut(Span(m + 1, |t|), q + 1);
    assert s[m + 1..q] == t;
    hide Find;
  }

  /** A quote that is never closed: the token is all that follows, and the cursor is NULL. */
  lemma UnclosedQuote(pad: Text, t: Text)
    requires AllSpaces(pad) && '"' !in t
    ensures var s := pad + ['"'] + t;
            TokenAt(s, TakeAt(s, 0).span) == t && TakeAt(s, 0).next == -1
  {
    var s := pad + ['"'] + t;
    var m := |pad|;
    assert s[m] == '"' && forall i :: 0 <= i < m ==> s[i] == pad[i];
    assert forall i :: m + 1 <= i < |s| ==> s[i] == t[i - m - 1];
    SpacesEndIs(s, 0, m);
    FindIs(s, '"', m + 1, |s|, |s|);
    assert s[m + 1..|s|] == t;
  }

  /** at_tok_start on a string without a colon leaves a NULL cursor. */
  lemma NoColon(s: Text, k: nat)
    requires k <= |s| && ':' !in s
    ensures StartAt(s, k) == -1 && StartAt(s, -1) == -1
  {
    FindIs(s, ':', k, |s|, |s|);
  }

  /** Calls from k on take the fields one by one and then find nothing more. */
  predicate ReadsAs(s: Text, k: int, fs: seq<Slot>)
    requires -1 <= k <= |s|
    decreases |fs|
  {
    if fs == [] then k < 0 || k == |s|
    else k >= 0 && TokenAt(s, TakeAt(s, k).span) == fs[0].field.text && ReadsAs(s, TakeAt(s, k).next, fs[1..])
  }

  lemma {:induction false} FieldsRoundTrip(s: Text, k: nat, fs: seq<Slot>)
    requires fs != [] && AllPrintable(fs)
    requires k <= |s| && s[k..] == PrintAll(fs)
    ensures ReadsAs(s, k, fs)
    decreases |fs|
  {
    hide TakeAt, Fits, Print, Find, SpacesEnd;
    var p := Print(fs[0]);
    if |fs| == 1 {
      assert s[k..][..|p|] == s[k..k + |p|];
      FieldRoundTrip(s, k, fs[0]);
      ReadsLast(s, k, fs);
    } else {
      FirstOfMore(s, k, p, PrintAll(fs[1..]));
      FieldRoundTrip(s, k, fs[0]);
      FieldsRoundTrip(s, k + |p| + 1, fs[1..]);
      ReadsMore(s, k, fs);
    }
  }

  lemma ReadsLast(s: Text, k: nat, fs: seq<Slot>)
    requires k <= |s| && |fs| == 1
    requires TokenAt(s, TakeAt(s, k).span) == fs[0].field.text
    requires var next := TakeAt(s, k).next; next < 0 || next == |s|
    ensures ReadsAs(s, k, fs)
  {
    assert fs[1..] == [];
    assert ReadsAs(s, TakeAt(s, k).next, []);
  }

  lemma ReadsMore(s: Text, k: nat, fs: seq<Slot>)
    requires k <= |s| && fs != []
    requires TokenAt(s, TakeAt(s, k).span) == fs[0].field.text && ReadsAs(s, TakeAt(s, k).next, fs[1..])
    ensures ReadsAs(s, k, fs)
  {
  }

  lemma {:induction false} ReadsAsTexts(s: Text, k: int, fs: seq<Slot>)
    requires -1 <= k <= |s| && ReadsAs(s, k, fs)
    ensures var r := ReadStrings(s, k, |fs|);
            r.tokens == Texts(fs) && !(0 <= r.cur < |s|)
    decreases |fs|
  {
    hide TakeAt;
    if fs != [] {
      ReadsAsTexts(s, TakeAt(s, k).next, fs[1..]);
    }
  }

  lemma FirstOfMore(s: Text, k: nat, p: Text, more: Text)
    requires k <= |s| && s[k..] == p + [','] + more
    ensures k + |p| < |s| && s[k..k + |p|] == p && s[k + |p|] == ',' && s[k + |p| + 1..] == more
  {
    assert s[k..k + |p|] == s[k..][..|p|];
    assert s[k + |p|] == s[k..][|p|];
    assert s[k + |p| + 1..] == s[k..][|p| + 1..];
  }

  /** Round trip: a response line built from a prefix and fields reads back as
      those fields, after which at_tok_hasmore reports nothing. */
  lemma LineRoundTrip(prefix: Text, fs: seq<Slot>)
    requires ':' !in prefix && fs != [] && AllPrintable(fs)
    ensures var s := prefix + [':'] + PrintAll(fs);
            var k := StartAt(s, 0);
            && k == |prefix| + 1
            && ReadStrings(s, k, |fs|).tokens == Texts(fs)
            && !(0 <= ReadStrings(s, k, |fs|).cur < |s|)
  {
    hide PrintAll, AllPrintable, TakeAt;
    var s := prefix + [':'] + PrintAll(fs);
    assert forall i :: 0 <= i < |prefix| ==> s[i] == prefix[i];
    FindIs(s, ':', 0, |s|, |prefix|);
    assert s[|prefix| + 1..] == PrintAll(fs);
    FieldsRoundTrip(s, |prefix| + 1, fs);
    ReadsAsTexts(s, |prefix| + 1, fs);
  }

  // ----- Numbers -----

  lemma {:induction false} DigitsEndIs(s: Text, b: nat, k: nat, e: nat)
    requires k <= e <= |s| && (forall i :: k <= i < e ==> IsDigit(s[i], b)) && (e < |s| ==> !IsDigit(s[e], b))
    ensures DigitsEnd(s, b, k) == e
    decreases e - k
  {
    if k < e {
      DigitsEndIs(s, b, k + 1, e);
    }
  }

  /** A number, alone or behind a minus sign, prints as a plain field. */
  lemma NumberIsPlain(s: Text, b: nat, k: nat)
    requires NulFree(s) && k < |s| && k <= 1 && (k == 1 ==> s[0] == '-')
    requires forall i :: k <= i < |s| ==> IsDigit(s[i], b)
    ensures Printable(Plain(s))
  {
    assert forall i :: 0 <= i < |s| ==> s[i] == '-' || IsDigit(s[i], b);
  }

  predicate IsSign(sign: Text) {
    sign == [] || sign == ['-'] || sign == ['+']
  }

  predicate IsHexMark(mark: Text, b: nat) {
    mark == [] || (b == 16 && |mark| == 2 && mark[0] == '0' && (mark[1] == 'x' || mark[1] == 'X'))
  }

  /** Digits d end a numeral where rest begins: with no digit, and, behind a lone 0 without
      a mark, not with the rest of a mark. */
  predicate Stops(mark: Text, d: Text, rest: Text, b: nat) {
    && (rest != [] ==> !IsDigit(rest[0], b))
    && (b == 16 && mark == [] && d == ['0'] && |rest| >= 2 ==>
          !((rest[0] == 'x' || rest[0] == 'X') && IsDigit(rest[1], 16)))
  }

  /** strtol and strtoul read a numeral behind white space, a sign and a hexadecimal mark,
      and ignore what follows it. */
  lemma NumeralReads(pad: Text, sign: Text, mark: Text, d: Text, rest: Text, b: nat, unsigned: bool)
    requires IsBase(b) && AllSpaces(pad) && IsSign(sign) && IsHexMark(mark, b)
    requires d != [] && AllDigits(d, b) && Stops(mark, d, rest, b)
    ensures Integer(pad + sign + mark + d + rest, b, unsigned)
         == Some(Converted(ValueOf(d, b), sign == ['-'], unsigned))
  {
    hide Integer, Converted, ValueOf, IsDigit, AllDigits;
    var s := pad + sign + mark + d + rest;
    var i, e := |pad|, |pad| + |sign| + |mark| + |d|;
    var j, k := i + |sign|, i + |sign| + |mark|;
    NumeralPlaced(s, pad, sign, mark, d, rest);
    NumeralAt(s, pad, sign, mark, d, rest, b);
    IntegerIs(s, i, j, k, e, b, unsigned);
    assert s[k..e] == d;
  }

  lemma IntegerIs(s: Text, i: nat, j: nat, k: nat, e: nat, b: nat, unsigned: bool)
    requires i <= j <= k < e <= |s| && SpacesEnd(s, 0) == i && i + Sign(s, i) == j && j + HexMark(s, b, j) == k
    requires DigitsEnd(s, b, k) == e
    ensures Integer(s, b, unsigned) == Some(Converted(ValueOf(s[k..e], b), s[i] == '-', unsigned))
  {
    hide SpacesEnd, Sign, HexMark, Converted, ValueOf, IsDigit;
  }

  lemma NumeralAt(s: Text, pad: Text, sign: Text, mark: Text, d: Text, rest: Text, b: nat)
    requires s == pad + sign + mark + d + rest
    requires IsBase(b) && AllSpaces(pad) && IsSign(sign) && IsHexMark(mark, b)
    requires d != [] && AllDigits(d, b) && Stops(mark, d, rest, b)
    ensures var i, j := |pad|, |pad| + |sign|;
            var k := j + |mark|;
            && SpacesEnd(s, 0) == i && i + Sign(s, i) == j && j + HexMark(s, b, j) == k
            && DigitsEnd(s, b, k) == k + |d|
            && (s[i] == '-' <==> sign == ['-'])
  {
    hide SpacesEnd, Sign, HexMark, DigitsEnd;
    NumeralPlaced(s, pad, sign, mark, d, rest);
    var i, j := |pad|, |pad| + |sign|;
    var k := j + |mark|;
    var e := k + |d|;
    assert IsDigit(s[k], b) && s[k] == d[0];
    assert e < |s| ==> s[e] == rest[0];
    assert e + 1 < |s| ==> s[e + 1] == rest[1];
    assert |d| == 1 ==> d == [d[0]];
    NumeralParts(s, i, j, k, e, b);
    assert sign == [] && mark == [] ==> s[i] == d[0];
    assert sign == [] && mark != [] ==> s[i] == '0';
  }

  lemma NumeralPlaced(s: Text, pad: Text, sign: Text, mark: Text, d: Text, rest: Text)
    requires s == pad + sign + mark + d + rest
    ensures var i, j := |pad|, |pad| + |sign|;
            var k := j + |mark|;
            var e := k + |d|;
            && (forall x :: 0 <= x < i ==> s[x] == pad[x]) && (|sign| == 1 ==> s[i] == sign[0])
            && (|mark| == 2 ==> s[j] == mark[0] && s[j + 1] == mark[1])
            && (forall x :: k <= x < e ==> s[x] == d[x - k])
            && (forall x :: e <= x < |s| ==> s[x] == rest[x - e])
  {
  }

  lemma NumeralParts(s: Text, i: nat, j: nat, k: nat, e: nat, b: nat)
    requires IsBase(b) && i <= j <= k < e <= |s| && j - i <= 1
    requires (forall x :: 0 <= x < i ==> IsSpace(s[x])) && (j > i ==> s[i] == '-' || s[i] == '+')
    requires k == j || (b == 16 && k == j + 2 && s[j] == '0' && (s[j + 1] == 'x' || s[j + 1] == 'X'))
    requires (forall x :: k <= x < e ==> IsDigit(s[x], b)) && (e < |s| ==> !IsDigit(s[e], b))
    requires b == 16 && k == j && e == k + 1 && s[k] == '0' && e + 1 < |s| ==>
               !((s[e] == 'x' || s[e] == 'X') && IsDigit(s[e + 1], 16))
    ensures SpacesEnd(s, 0) == i && i + Sign(s, i) == j && j + HexMark(s, b, j) == k && DigitsEnd(s, b, k) == e
    ensures (s[i] == '-') == (j > i && s[i] == '-')
  {
    assert IsDigit(s[k], b) && !IsSpace(s[i]);
    SpacesEndIs(s, 0, i);
    DigitsEndIs(s, b, k, e);
    assert k == j && k + 1 < e ==> IsDigit(s[k + 1], b);
  }

  /** Without a digit behind white space and sign there is no number. */
  lemma NoNumeralReads(pad: Text, sign: Text, rest: Text, b: nat, unsigned: bool)
    requires IsBase(b) && AllSpaces(pad) && IsSign(sign) && (rest != [] ==> !IsDigit(rest[0], b))
    requires sign == [] && rest != [] ==> !IsSpace(rest[0]) && rest[0] != '-' && rest[0] != '+'
    ensures Integer(pad + sign + rest, b, unsigned) == None
  {
    var s := pad + sign + rest;
    NumeralPlaced(s, pad, sign, [], [], rest);
    SpacesEndIs(s, 0, |pad|);
    DigitsEndIs(s, b, |pad| + |sign|, |pad| + |sign|);
    assert |pad| + |sign| < |s| ==> s[|pad| + |sign|] == rest[0] && rest[0] != '0';
  }

  /** A number too large or too small for a long becomes the last one that is not. */
  lemma SignedSaturates(x: nat, negative: bool)
    ensures Converted(x, negative, false) ==
              if negative then (if x > 0x8000_0000 then -0x8000_0000 else 0 - x)
              else (if x > 0x7FFF_FFFF then 0x7FFF_FFFF else x)
  {
  }

  /** As an unsigned long it is taken modulo 2^32, and is all ones when it is too large. */
  lemma UnsignedWraps(x: nat, negative: bool)
    ensures var r := Converted(x, negative, true);
            && -0x8000_0000 <= r < 0x8000_0000
            && (x > 0xFFFF_FFFF ==> r == -1)
            && (x <= 0xFFFF_FFFF ==> (r - (if negative then 0 - x else x)) % 0x1_0000_0000 == 0)
  {
  }

  lemma NumberReads(s: Text, b: nat, k: nat, unsigned: bool, d: Text)
    requires IsBase(b) && k <= 1 && s == (if k == 1 then ['-'] + d else d) && d != [] && AllDigits(d, b)
    ensures Integer(s, b, unsigned) == Some(Converted(ValueOf(d, b), k == 1, unsigned))
  {
    hide Integer, Converted, ValueOf;
    var sign: Text := if k == 1 then ['-'] else [];
    NumeralReads([], sign, [], d, [], b, unsigned);
    assert [] + sign + [] + d + [] == s;
  }

  /** %d and at_tok_nextint: every number is read back, but for what 32 bits do not hold. */
  lemma DecimalRoundTrip(n: int)
    ensures Printable(Plain(Decimal(n)))
    ensures Integer(Decimal(n), 10, false) ==
              Some(if n < -0x8000_0000 then -0x8000_0000 else if n > 0x7FFF_FFFF then 0x7FFF_FFFF else n)
  {
    var u: nat := if n < 0 then 0 - n else n;
    DigitsDenote(u, 10, false);
    SignedSaturates(u, n < 0);
    DecimalReads(n, u);
  }

  lemma DecimalReads(n: int, u: nat)
    requires u == if n < 0 then 0 - n else n
    ensures Printable(Plain(Decimal(n)))
    ensures Integer(Decimal(n), 10, false) == Some(Converted(ValueOf(Digits(u, 10, false), 10), n < 0, false))
  {
    SignedReads(Digits(u, 10, false), n < 0);
  }

  lemma SignedReads(d: Text, negative: bool)
    requires d != [] && AllDigits(d, 10) && NulFree(d)
    ensures var s := if negative then ['-'] + d else d;
            && Printable(Plain(s))
            && Integer(s, 10, false) == Some(Converted(ValueOf(d, 10), negative, false))
  {
    hide Integer, Converted, ValueOf;
    var s := if negative then ['-'] + d else d;
    var k := if negative then 1 else 0;
    NumberReads(s, 10, k, false, d);
    assert forall i :: k <= i < |s| ==> s[i] == d[i - k];
    NumberIsPlain(s, 10, k);
  }

  /** %x or %X and at_tok_nexthexint: every 32-bit number is read back as the int with the
      same bits, a larger one as -1. */
  lemma HexRoundTrip(n: nat, upper: bool)
    ensures Printable(Plain(Digits(n, 16, upper)))
    ensures Integer(Digits(n, 16, upper), 16, true) ==
              Some(if n > 0xFFFF_FFFF then -1 else if n > 0x7FFF_FFFF then n - 0x1_0000_0000 else n)
  {
    hide Integer, Converted, ValueOf, AllDigits, Digits;
    DigitsDenote(n, 16, upper);
    HexConverted(n);
    NumberReads(Digits(n, 16, upper), 16, 0, true, Digits(n, 16, upper));
    HexIsPlain(Digits(n, 16, upper));
  }

  lemma HexConverted(n: nat)
    ensures Converted(n, false, true) ==
              if n > 0xFFFF_FFFF then -1 else if n > 0x7FFF_FFFF then n - 0x1_0000_0000 else n
  {
  }

  lemma HexIsPlain(s: Text)
    requires s != [] && AllDigits(s, 16) && NulFree(s)
    ensures Printable(Plain(s))
  {
    NumberIsPlain(s, 16, 0);
  }
}
