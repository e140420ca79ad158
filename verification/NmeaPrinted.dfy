/** Satellite sentences as they are printed, and what the parser makes of them: every value
    in its place. */
module NmeaPrinted {
  import opened CText
  import opened Numerals
  import opened NmeaTokenizer
  import opened NmeaReader
  import opened NmeaGsv

  // ----- A sentence from its fields -----

  /** What stands around the fields: the talker's two letters, the checksum, the line end. */
  datatype Frame = Frame(talker: Text, checksum: Text, ending: Text)

  predicate IsFrame(f: Frame) {
    && |f.talker| == 2 && ',' !in f.talker
    && |f.checksum| == 3 && f.checksum[0] == '*' && f.checksum[2] != '\n' && f.checksum[2] != '\r'
    && (f.ending == "\n" || f.ending == "\r\n")
  }

  predicate CommaFree(fs: seq<Text>) {
    forall i :: 0 <= i < |fs| ==> ',' !in fs[i]
  }

  function Sentence(f: Frame, kind: Text, fs: seq<Text>): Text {
    "$" + Join([f.talker + kind] + fs) + f.checksum + f.ending
  }

  /** The fields of a printed sentence are those printed. */
  lemma SentenceFields(f: Frame, kind: Text, fs: seq<Text>)
    requires IsFrame(f) && ',' !in kind && CommaFree(fs)
    ensures var s := Sentence(f, kind, fs);
            && Fields(s, 0, |s|) == [f.talker + kind] + fs
            && |s| >= 7 + |kind|
  {
    hide Fields, Join;
    var all := [f.talker + kind] + fs;
    assert forall i :: 0 <= i < |all| ==> ',' !in all[i];
    SplitJoin(all);
    FieldsOfBody(true, Join(all), f.checksum, f.ending);
    JoinLength(all);
  }

  lemma JoinLength(fs: seq<Text>)
    requires fs != []
    ensures |Join(fs)| >= |fs[0]|
  {
  }

  /** A printed sentence of more than one field is not too short, and of its kind. */
  lemma SentenceKind(f: Frame, kind: Text, fs: seq<Text>)
    requires IsFrame(f) && |kind| == 3 && ',' !in kind && CommaFree(fs)
    ensures Kind(Sentence(f, kind, fs)) == kind
  {
    hide Fields, Sentence;
    SentenceFields(f, kind, fs);
    assert (f.talker + kind)[2..5] == kind;
  }

  /** Field number i of a printed sentence. */
  lemma SentenceField(f: Frame, kind: Text, fs: seq<Text>, i: nat)
    requires IsFrame(f) && ',' !in kind && CommaFree(fs) && 0 < i <= |fs|
    ensures F(Sentence(f, kind, fs), i) == fs[i - 1]
  {
    hide Fields, Sentence;
    SentenceFields(f, kind, fs);
  }

  // ----- Satellites in view -----

  /** A satellite as printed; the texts are anything without a comma. */
  datatype Satellite = Satellite(number: nat, elevation: Text, azimuth: Text, signal: Text)

  predicate IsSatellite(sat: Satellite) {
    ',' !in sat.elevation && ',' !in sat.azimuth && ',' !in sat.signal
  }

  predicate AreSatellites(sats: seq<Satellite>) {
    forall i :: 0 <= i < |sats| ==> IsSatellite(sats[i])
  }

  function Numeral(n: nat): Text {
    Digits(n, 10, false)
  }

  function SatFields(sats: seq<Satellite>): (fs: seq<Text>)
    ensures |fs| == 4 * |sats|
  {
    if sats == [] then []
    else
      var sat := sats[|sats| - 1];
      SatFields(sats[..|sats| - 1]) + [Numeral(sat.number), sat.elevation, sat.azimuth, sat.signal]
  }

  function GsvFields(total: nat, number: nat, count: nat, sats: seq<Satellite>): seq<Text> {
    [Numeral(total), Numeral(number), Numeral(count)] + SatFields(sats)
  }

  /** Sentence number of total about count satellites in all, sats of them. */
  function Gsv(f: Frame, total: nat, number: nat, count: nat, sats: seq<Satellite>): Text {
    Sentence(f, "GSV", GsvFields(total, number, count, sats))
  }

  lemma {:induction false} DigitsNoComma(n: nat)
    ensures ',' !in Numeral(n)
    decreases n
  {
    if n >= 10 {
      DigitsNoComma(n / 10);
    }
  }

  lemma {:induction false} SatFieldAt(sats: seq<Satellite>, i: nat)
    requires i < |sats|
    ensures var fs, sat := SatFields(sats), sats[i];
            && fs[4 * i] == Numeral(sat.number) && fs[4 * i + 1] == sat.elevation
            && fs[4 * i + 2] == sat.azimuth && fs[4 * i + 3] == sat.signal
  {
    hide Numeral;
    if i < |sats| - 1 {
      SatFieldAt(sats[..|sats| - 1], i);
    }
  }

  lemma {:induction false} SatFieldsCommaFree(sats: seq<Satellite>)
    requires AreSatellites(sats)
    ensures CommaFree(SatFields(sats))
  {
    hide Numeral;
    if sats != [] {
      SatFieldsCommaFree(sats[..|sats| - 1]);
      DigitsNoComma(sats[|sats| - 1].number);
      assert IsSatellite(sats[|sats| - 1]);
    }
  }

  lemma GsvCommaFree(total: nat, number: nat, count: nat, sats: seq<Satellite>)
    requires AreSatellites(sats)
    ensures CommaFree(GsvFields(total, number, count, sats))
  {
    hide Numeral, SatFields;
    SatFieldsCommaFree(sats);
    DigitsNoComma(total);
    DigitsNoComma(number);
    DigitsNoComma(count);
  }

  lemma GsvHeader(f: Frame, total: nat, number: nat, count: nat, sats: seq<Satellite>)
    requires IsFrame(f) && AreSatellites(sats)
    ensures var s := Gsv(f, total, number, count, sats);
            IsGsv(s) && Decode(F(s, 1)) == total && Decode(F(s, 2)) == number && Decode(F(s, 3)) == count
  {
    hide Sentence, F, Kind, Decode, SatFields, CommaFree;
    var fs := GsvFields(total, number, count, sats);
    GsvCommaFree(total, number, count, sats);
    SentenceKind(f, "GSV", fs);
    SentenceField(f, "GSV", fs, 1);
    SentenceField(f, "GSV", fs, 2);
    SentenceField(f, "GSV", fs, 3);
    DecodeDigits(total);
    DecodeDigits(number);
    DecodeDigits(count);
  }

  /** A printed satellite as the program holds it. */
  function SvOf(sat: Satellite): Sv {
    Sv(sat.number, sat.elevation, sat.azimuth, sat.signal)
  }

  function SvsOf(sats: seq<Satellite>): (svs: seq<Sv>)
    ensures |svs| == |sats| && forall i :: 0 <= i < |svs| ==> svs[i] == SvOf(sats[i])
  {
    seq(|sats|, i requires 0 <= i < |sats| => SvOf(sats[i]))
  }

  /** Satellite number i of a printed sentence is read back, each value in its place. */
  lemma GsvSatellite(f: Frame, total: nat, number: nat, count: nat, sats: seq<Satellite>, i: nat)
    requires IsFrame(f) && AreSatellites(sats) && i < |sats|
    ensures SvAt(Gsv(f, total, number, count, sats), i) == SvOf(sats[i])
  {
    hide Sentence, F, Decode, SatFields, CommaFree, Numeral;
    var fs := GsvFields(total, number, count, sats);
    GsvCommaFree(total, number, count, sats);
    SatFieldAt(sats, i);
    SentenceField(f, "GSV", fs, 4 * i + 4);
    SentenceField(f, "GSV", fs, 4 * i + 5);
    SentenceField(f, "GSV", fs, 4 * i + 6);
    SentenceField(f, "GSV", fs, 4 * i + 7);
    DecodeNumeral(sats[i].number);
  }

  lemma DecodeNumeral(n: nat)
    ensures Decode(Numeral(n)) == n
  {
    DecodeDigits(n);
  }

  lemma {:induction false} GsvBlock(f: Frame, total: nat, number: nat, count: nat, sats: seq<Satellite>, n: nat)
    requires IsFrame(f) && AreSatellites(sats) && n <= |sats|
    ensures Block(Gsv(f, total, number, count, sats), n) == SvsOf(sats[..n])
    decreases n
  {
    hide Gsv, SvAt;
    if n > 0 {
      GsvBlock(f, total, number, count, sats, n - 1);
      GsvSatellite(f, total, number, count, sats, n - 1);
    }
  }

  /** How many satellites a sentence adds, when count are announced and n are held. */
  function Room(count: nat, n: nat): nat {
    if n >= count then 0 else Least(4, count - n)
  }

  /** What a printed sentence does: as many of its satellites as are still announced, four
      at most, are appended, each value in its place, to those held, or to none if it is the
      first; and the status has changed when it is the last one of its message. */
  lemma GsvParsed(st: SvStatus, f: Frame, total: nat, number: nat, count: nat, sats: seq<Satellite>)
    requires IsFrame(f) && AreSatellites(sats) && count > 0
    requires Room(count, if number == 1 then 0 else |st.svs|) <= |sats|
    ensures var n := Room(count, if number == 1 then 0 else |st.svs|);
            AfterSentence(st, Gsv(f, total, number, count, sats))
            == SvStatus((if number == 1 then [] else st.svs) + SvsOf(sats[..n]),
                        number == total || (number != 1 && st.changed), st.usedInFix)
  {
    hide Gsv, F, Decode, Block, SvsOf, Kind;
    var n := Room(count, if number == 1 then 0 else |st.svs|);
    var s := Gsv(f, total, number, count, sats);
    GsvHeader(f, total, number, count, sats);
    GsvBlock(f, total, number, count, sats, n);
    NoSatellites(sats[..n]);
    var before := if number == 1 then [] else st.svs;
    assert n == 0 ==> before + SvsOf(sats[..n]) == before;
  }

  /** A sentence that announces no satellite changes nothing. */
  lemma GsvOfNone(st: SvStatus, f: Frame, total: nat, number: nat, sats: seq<Satellite>)
    requires IsFrame(f) && AreSatellites(sats)
    ensures AfterSentence(st, Gsv(f, total, number, 0, sats)) == st
  {
    hide Gsv, F, Decode, Block, Kind;
    GsvHeader(f, total, number, 0, sats);
  }

  lemma NoSatellites(sats: seq<Satellite>)
    ensures sats == [] ==> SvsOf(sats) == []
  {
  }

  // ----- Whole messages -----

  /** A sentence of the message, or another one that comes in between. */
  datatype Item = Own(frame: Frame) | Other(text: Text)

  function Least(a: nat, b: nat): nat { if a < b then a else b }

  /** The satellites that sentence k is about. */
  function BlockOf(sats: seq<Satellite>, k: nat): seq<Satellite>
    requires 0 < k && 4 * (k - 1) <= |sats|
  {
    sats[4 * (k - 1)..Least(4 * k, |sats|)]
  }

  /** From sentence k on: the sentences of a message about sats, each with its block, and
      whatever else comes in between. */
  predicate IsMessage(ss: seq<Text>, items: seq<Item>, sats: seq<Satellite>, k: nat)
    requires 0 < k
    decreases |ss|
  {
    && |ss| == |items|
    && if ss == [] then 4 * (k - 1) >= |sats|
       else match items[0]
         case Other(text) => ss[0] == text && !IsGsv(text) && IsMessage(ss[1..], items[1..], sats, k)
         case Own(f) =>
           && IsFrame(f) && 4 * (k - 1) < |sats|
           && ss[0] == Gsv(f, SentencesFor(|sats|), k, |sats|, BlockOf(sats, k))
           && IsMessage(ss[1..], items[1..], sats, k + 1)
  }

  lemma OwnSentence(st: SvStatus, f: Frame, sats: seq<Satellite>, k: nat)
    requires IsFrame(f) && AreSatellites(sats) && 0 < k && 4 * (k - 1) < |sats|
    requires k > 1 ==> st.svs == SvsOf(sats[..4 * (k - 1)])
    ensures var t := AfterSentence(st, Gsv(f, SentencesFor(|sats|), k, |sats|, BlockOf(sats, k)));
            && t.svs == SvsOf(sats[..Least(4 * k, |sats|)])
            && t.changed == (4 * k >= |sats| || (k > 1 && st.changed))
  {
    hide Gsv, AfterSentence;
    var b := BlockOf(sats, k);
    assert forall i :: 0 <= i < |b| ==> b[i] == sats[4 * (k - 1) + i];
    assert k == 1 ==> sats[..4 * (k - 1)] == [] && SvsOf([]) == [];
    GsvParsed(st, f, SentencesFor(|sats|), k, |sats|, b);
    assert b[..|b|] == b;
    assert SvsOf(sats[..4 * (k - 1)]) + SvsOf(b) == SvsOf(sats[..Least(4 * k, |sats|)]);
  }

  lemma {:induction false} MessageFrom(st: SvStatus, ss: seq<Text>, items: seq<Item>, sats: seq<Satellite>, k: nat)
    requires AreSatellites(sats) && sats != [] && 0 < k && IsMessage(ss, items, sats, k)
    requires k > 1 ==> st.svs == SvsOf(sats[..Least(4 * (k - 1), |sats|)])
    requires 4 * (k - 1) >= |sats| ==> st.changed
    ensures AfterAll(st, ss).svs == SvsOf(sats) && AfterAll(st, ss).changed
    decreases |ss|
  {
    hide AfterSentence, IsGsv, Gsv, SvsOf;
    if ss == [] {
      assert sats[..|sats|] == sats;
    } else {
      match items[0]
      case Other(text) =>
        OtherSentence(st, text);
        MessageFrom(AfterSentence(st, ss[0]), ss[1..], items[1..], sats, k);
      case Own(f) =>
        OwnSentence(st, f, sats, k);
        MessageFrom(AfterSentence(st, ss[0]), ss[1..], items[1..], sats, k + 1);
    }
  }

  /** Whatever was held before: a message printed for any satellites, in order and with
      other sentences in between, leaves exactly those satellites, each value in its place,
      and a status that has changed. */
  lemma PrintedMessage(st: SvStatus, ss: seq<Text>, items: seq<Item>, sats: seq<Satellite>)
    requires AreSatellites(sats) && sats != [] && IsMessage(ss, items, sats, 1)
    ensures AfterAll(st, ss).svs == SvsOf(sats) && AfterAll(st, ss).changed
  {
    hide AfterAll, IsMessage;
    MessageFrom(st, ss, items, sats, 1);
  }

  // ----- Satellites in use -----

  /** A channel's satellite number, or nothing. */
  function Channel(c: Option<nat>): Text {
    match c
    case None => []
    case Some(n) => Numeral(n)
  }

  function Channels(cs: seq<Option<nat>>): (fs: seq<Text>)
    ensures |fs| == |cs| && forall i :: 0 <= i < |fs| ==> fs[i] == Channel(cs[i])
  {
    seq(|cs|, i requires 0 <= i < |cs| => Channel(cs[i]))
  }

  function Gsa(f: Frame, mode: Text, fix: Text, cs: seq<Option<nat>>, more: seq<Text>): Text {
    Sentence(f, "GSA", [mode, fix] + Channels(cs) + more)
  }

  lemma ChannelCommaFree(c: Option<nat>)
    ensures ',' !in Channel(c)
  {
    hide Numeral;
    match c {
      case None =>
      case Some(n) => DigitsNoComma(n);
    }
  }

  lemma GsaCommaFree(mode: Text, fix: Text, cs: seq<Option<nat>>, more: seq<Text>)
    requires ',' !in mode && ',' !in fix && CommaFree(more)
    ensures CommaFree([mode, fix] + Channels(cs) + more)
  {
    hide Channel;
    forall i | 0 <= i < |cs| ensures ',' !in Channels(cs)[i] {
      ChannelCommaFree(cs[i]);
    }
  }

  /** The numbers in use among the first n channels. */
  function InUse(cs: seq<Option<nat>>): set<int> {
    set c | c in cs && c.Some? && c.value > 0 :: c.value
  }

  lemma DecodeChannel(c: Option<nat>)
    ensures Decode(Channel(c)) == if c.Some? then c.value else -1
  {
    hide Numeral;
    match c {
      case None =>
      case Some(n) => DecodeNumeral(n);
    }
  }

  lemma {:induction false} GsaUsed(f: Frame, mode: Text, fix: Text, cs: seq<Option<nat>>, more: seq<Text>, n: nat)
    requires IsFrame(f) && ',' !in mode && ',' !in fix && CommaFree(more) && |cs| == 12 && n <= 12
    ensures UsedInFix(Gsa(f, mode, fix, cs, more), n) == InUse(cs[..n])
    decreases n
  {
    hide Sentence, F, Decode, Channel, CommaFree;
    if n > 0 {
      GsaUsed(f, mode, fix, cs, more, n - 1);
      GsaCommaFree(mode, fix, cs, more);
      SentenceField(f, "GSA", [mode, fix] + Channels(cs) + more, n + 2);
      DecodeChannel(cs[n - 1]);
      assert cs[..n] == cs[..n - 1] + [cs[n - 1]];
    }
  }

  /** The byte that decides on a fix is the first of the field, or, when the field is empty,
      the comma behind it. */
  lemma FixByte(f: Frame, kind: Text, fs: seq<Text>)
    requires IsFrame(f) && ',' !in kind && CommaFree(fs) && |fs| > 2
    ensures FixStatusByte(Sentence(f, kind, fs)) == if fs[1] == [] then ',' else fs[1][0]
  {
    hide Sentence, Fields, BodyStart, BodyEnd, CommaFree;
    var s := Sentence(f, kind, fs);
    SentenceFields(f, kind, fs);
    FieldsAreSplit(s);
    TokenByte(s, BodyStart(s, 0, |s|), BodyEnd(s, 0, |s|), 2);
  }

  lemma FieldsAreSplit(s: Text)
    ensures Fields(s, 0, |s|) == Split(s, BodyStart(s, 0, |s|), BodyEnd(s, 0, |s|))
  {
  }

  /** A field with a comma behind it has a token, whose first byte is the field's or, if
      that is empty, the comma. */
  lemma {:induction false} TokenByte(s: Text, k: nat, e: nat, i: nat)
    requires k <= e <= |s| && i + 1 < |Split(s, k, e)|
    ensures var ts, fs := Tokens(s, k, e), Split(s, k, e);
            i < |ts| && FirstOf(s, ts[i]) == if fs[i] == [] then ',' else fs[i][0]
    decreases i
  {
    hide Split, Tokens;
    SplitStep(s, k, e);
    TokensStep(s, k, e);
    if i > 0 {
      TokenByte(s, Find(s, ',', k, e) + 1, e, i - 1);
    }
  }

  lemma SplitStep(s: Text, k: nat, e: nat)
    requires k <= e <= |s|
    ensures var q := Find(s, ',', k, e);
            && (q == e ==> |Split(s, k, e)| == 1)
            && (q < e ==> Split(s, k, e) == [s[k..q]] + Split(s, q + 1, e))
  {
  }

  lemma TokensStep(s: Text, k: nat, e: nat)
    requires k <= e <= |s|
    ensures var q := Find(s, ',', k, e);
            q < e ==> Tokens(s, k, e) == [Token(k, q)] + Tokens(s, q + 1, e)
  {
  }

  /** What a printed sentence with twelve channels does: the satellites in use are the
      numbers printed, and the status has changed if there are any, unless the sentence says
      that there is no fix. An empty fix field does not say so. */
  lemma GsaParsed(st: SvStatus, f: Frame, mode: Text, fix: Text, cs: seq<Option<nat>>, more: seq<Text>)
    requires IsFrame(f) && ',' !in mode && ',' !in fix && NulFree(fix) && CommaFree(more) && |cs| == 12
    ensures AfterSentence(st, Gsa(f, mode, fix, cs, more))
         == if fix != [] && fix[0] == '1' then st
            else SvStatus(st.svs, st.changed || InUse(cs) != {}, InUse(cs))
  {
    hide Sentence, F, FixStatusByte, UsedInFix, InUse, Kind, CommaFree;
    var fs := [mode, fix] + Channels(cs) + more;
    GsaCommaFree(mode, fix, cs, more);
    SentenceKind(f, "GSA", fs);
    FixByte(f, "GSA", fs);
    GsaUsed(f, mode, fix, cs, more, 12);
    assert cs[..12] == cs;
  }
}
