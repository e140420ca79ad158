/** Satellite lists assembled from several GSV sentences. */
module NmeaGsv {
  import opened CText
  import opened NmeaReader
  import opened NmeaLines

  function AfterAll(st: SvStatus, ss: seq<Text>): SvStatus
    decreases |ss|
  {
    if ss == [] then st else AfterAll(AfterSentence(st, ss[0]), ss[1..])
  }

  function SentencesFor(total: nat): nat {
    (total + 3) / 4
  }

  /** The GSV sentences in ss are numbers k..SentencesFor(total) of a message about
      total satellites, in order; other sentences may come in between. */
  predicate Train(ss: seq<Text>, total: nat, k: nat) {
    if ss == [] then k == SentencesFor(total) + 1
    else if IsGsv(ss[0]) then
      && k <= SentencesFor(total)
      && Decode(F(ss[0], 1)) == SentencesFor(total) && Decode(F(ss[0], 2)) == k && Decode(F(ss[0], 3)) == total
      && Train(ss[1..], total, k + 1)
    else Train(ss[1..], total, k)
  }

  /** The blocks of the sentences: four satellites each, the rest in the last one. */
  function Blocks(ss: seq<Text>, total: nat, k: nat): seq<Sv> {
    if ss == [] then []
    else if IsGsv(ss[0]) then
      Part(ss[0], total, k) + Blocks(ss[1..], total, k + 1)
    else Blocks(ss[1..], total, k)
  }

  /** The satellites held before sentence k. */
  function Before(total: nat, k: nat): int
    requires k > 0
  {
    Min(4 * (k - 1), total)
  }

  lemma OtherSentence(st: SvStatus, s: Text)
    requires !IsGsv(s)
    ensures AfterSentence(st, s).svs == st.svs && (st.changed ==> AfterSentence(st, s).changed)
  {
  }

  lemma GsvSentence(st: SvStatus, s: Text, total: nat, k: nat)
    requires IsGsv(s) && total > 0 && 0 < k <= SentencesFor(total) && (k > 1 ==> |st.svs| == Before(total, k))
    requires Decode(F(s, 1)) == SentencesFor(total) && Decode(F(s, 2)) == k && Decode(F(s, 3)) == total
    ensures var t := AfterSentence(st, s);
            && t.svs == (if k == 1 then Part(s, total, k) else st.svs + Part(s, total, k))
            && |t.svs| == Before(total, k + 1)
            && (k == SentencesFor(total) ==> t.changed)
  {
    if k == 1 {
      assert [] + Part(s, total, k) == Part(s, total, k);
    }
  }

  /** The part of a message that sentence k brings. */
  function Part(s: Text, total: nat, k: nat): seq<Sv> {
    if 4 * k <= total then Block(s, 4) else if 4 * k < total + 4 then Block(s, total + 4 - 4 * k) else []
  }

  lemma {:induction false} Assembly(st: SvStatus, ss: seq<Text>, total: nat, k: nat)
    requires total > 0 && 0 < k <= SentencesFor(total) + 1 && Train(ss, total, k)
    requires k > 1 ==> |st.svs| == Before(total, k)
    requires k > SentencesFor(total) ==> st.changed
    ensures AfterAll(st, ss).svs == if k == 1 then Blocks(ss, total, 1) else st.svs + Blocks(ss, total, k)
    ensures |AfterAll(st, ss).svs| == total && AfterAll(st, ss).changed
    decreases |ss|
  {
    hide AfterSentence, IsGsv, Part, Decode, F;
    if ss == [] {
      assert st.svs + [] == st.svs;
    } else if IsGsv(ss[0]) {
      GsvSentence(st, ss[0], total, k);
      var t := AfterSentence(st, ss[0]);
      Assembly(t, ss[1..], total, k + 1);
      var part, rest := Part(ss[0], total, k), Blocks(ss[1..], total, k + 1);
      if k > 1 {
        assert (st.svs + part) + rest == st.svs + (part + rest);
      }
    } else {
      OtherSentence(st, ss[0]);
      Assembly(AfterSentence(st, ss[0]), ss[1..], total, k);
    }
  }

  /** Whatever was held before, a complete message leaves exactly its satellites,
      block after block, and marks the status as changed. */
  lemma MessageAssembled(st: SvStatus, ss: seq<Text>, total: nat)
    requires total > 0 && Train(ss, total, 1)
    ensures AfterAll(st, ss).svs == Blocks(ss, total, 1)
    ensures |AfterAll(st, ss).svs| == total && AfterAll(st, ss).changed
  {
    Assembly(st, ss, total, 1);
  }

  /** While no sentence announces more than n satellites, no more than n are held:
      a list of that size is never overrun. */
  lemma {:induction false} Capacity(st: SvStatus, ss: seq<Text>, n: nat)
    requires |st.svs| <= n && forall i :: 0 <= i < |ss| && IsGsv(ss[i]) ==> Decode(F(ss[i], 3)) <= n
    ensures |AfterAll(st, ss).svs| <= n
    decreases |ss|
  {
    if ss != [] {
      assert IsGsv(ss[0]) ==> Decode(F(ss[0], 3)) <= n;
      Capacity(AfterSentence(st, ss[0]), ss[1..], n);
    }
  }

  lemma {:induction false} AfterOneMore(st: SvStatus, ss: seq<Text>, s: Text)
    ensures AfterAll(st, ss + [s]) == AfterSentence(AfterAll(st, ss), s)
    decreases |ss|
  {
    hide AfterSentence;
    if ss == [] {
      assert ([] + [s])[0] == s && ([] + [s])[1..] == [];
      assert AfterAll(AfterSentence(st, s), []) == AfterSentence(st, s);
    } else {
      assert (ss + [s])[1..] == ss[1..] + [s];
      AfterOneMore(AfterSentence(st, ss[0]), ss[1..], s);
    }
  }

  /** The reader thread feeds what it has read, character by character: the
      assembler and the satellite status go through every sentence of it. */
  method FeedBuffer(r: Reader, buf: Text)
    requires r.Valid()
    modifies r, r.buffer, r.tokenizer`count, r.tokenizer.tokens
    ensures r.Valid() && r.State() == FeedFrom(old(r.State()), buf, 0)
    ensures |old(r.parsed)| <= |r.parsed| && r.parsed[..|old(r.parsed)|] == old(r.parsed)
    ensures r.Status() == AfterAll(old(r.Status()), r.parsed[|old(r.parsed)|..])
  {
    hide AfterSentence, FeedFrom, AfterAll;
    ghost var n := |r.parsed|;
    ghost var st := r.Status();
    NothingMore(st, r.parsed);
    var i := 0;
    while i < |buf|
      invariant i <= |buf| && r.Valid() && FeedFrom(r.State(), buf, i) == FeedFrom(old(r.State()), buf, 0)
      invariant n <= |r.parsed| && r.parsed[..n] == old(r.parsed)
      invariant r.Status() == AfterAll(st, r.parsed[n..])
    {
      ghost var before := r.parsed;
      FeedStep(r.State(), buf, i);
      r.Addc(buf[i]);
      if |r.parsed| > |before| {
        assert r.parsed == before + [r.parsed[|before|]];
        assert r.parsed[n..] == before[n..] + [r.parsed[|before|]];
        AfterOneMore(st, before[n..], r.parsed[|before|]);
      }
      i := i + 1;
    }
    FeedEnd(r.State(), buf);
  }

  lemma NothingMore(st: SvStatus, parsed: seq<Text>)
    ensures AfterAll(st, parsed[|parsed|..]) == st
  {
  }

  lemma FeedStep(a: Assembler, s: Text, i: nat)
    requires i < |s|
    ensures FeedFrom(a, s, i) == FeedFrom(Feed(a, s[i]), s, i + 1)
  {
  }

  lemma FeedEnd(a: Assembler, s: Text)
    ensures FeedFrom(a, s, |s|) == a
  {
  }
}
