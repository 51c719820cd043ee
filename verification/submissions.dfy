/**
 * The festival's table of accepted submission filename formats and `parse`,
 * which tries every format on a filename and hands back the named fields of
 * the match only when exactly one format matched.
 */
module Submissions {
  import opened Wrappers
  import opened RegexPieces
  import opened Grammars
  import Overlap

  /** The four grammars of the table. */
  datatype Grammar = Kristina | N6GN | W2NAF | Jj1bdx

  /**
   * `re.match(fmt['re'], filename)`, reduced to its `groupdict()`: a match
   * reports exactly the named groups of its expression: a station only for
   * kristina and jj1bdx, a type for all but jj1bdx.
   */
  function Match(g: Grammar, s: string): (r: Option<Groups>)
    ensures r.Some? ==> r.value.Keys == Keys(g)
  {
    match g
    case Kristina => MatchKristina(s)
    case N6GN => MatchN6GN(s)
    case W2NAF => MatchW2NAF(s)
    case Jj1bdx => MatchJj1bdx(s)
  }

  /**
   * The `re` entry of each grammar's row. The text is documentation only:
   * nothing here compiles it, and `Match` runs the matcher written by hand
   * from it.
   */
  function Pattern(g: Grammar): string {
    match g
    case Kristina =>
      @"(?P<callsign>[^_]+)_(?P<station>[^_]+)_(?P<band>[^_]+)_(?P<timestamp>\d{4}-\d{2}-\d{2}_\d{2}-\d{2})_(?P<type>am|iq).wav"
    case N6GN =>
      @"(?P<callsign>[^_\n]+)_(?P<timestamp>\d{4}\d{2}\d{2}T\d{2}\d{2}\d{2})_(?P<type>am|iq)_(?P<band>[0-9]+).wav"
    case W2NAF =>
      @"(?P<callsign>[^_\n]+)_(?P<timestamp>\d{4}-\d{2}-\d{2}T\d{2}_\d{2}_\d{2}Z)_(?P<band>[\d.]+)_(?P<type>am|iq).wav"
    case Jj1bdx =>
      @"(?P<callsign>[^_]+)_(?P<station>[^_]+)_(?P<band>[^_]+)_(?P<timestamp>\d{4}-\d{2}-\d{2}_\d{2}-\d{2}).wav"
  }

  /** The `name` entry of each grammar's row; `parse` never reads it. */
  function Name(g: Grammar): string {
    match g
    case Kristina => "kristina"
    case N6GN => "N6GN"
    case W2NAF => "W2NAF"
    case Jj1bdx => "jj1bdx"
  }

  /** The `human` entry of each grammar's row, the layout shown to people; `parse` never reads it. */
  function Human(g: Grammar): string {
    match g
    case Kristina => "CALLSIGN_STATION_BAND_YYYY-MM-DD_HH-MM_(iq|am).wav"
    case N6GN => "CALLSIGN_YYYYMMDDTHHMMSS_(iq|am)_BAND.wav"
    case W2NAF => "CALLSIGN_YYYY-MM-DDTHH_MM_SSZ_FREQUENCY_iq.wav"
    case Jj1bdx => "CALLSIGN_STATION_BAND_YYYY-MM-DD_HH-MM.wav"
  }

  /** The table, in the order `parse` walks it: each row is its grammar, whose entries are `Name`, `Human` and `Pattern`. */
  const Formats: seq<Grammar> := [Kristina, N6GN, W2NAF, Jj1bdx]

  /** The message `parse` raises whenever the number of matching formats is not one, zero included. */
  const ParseError := "more than one match"

  /** 1 when grammar `g` matches `s`, 0 otherwise. */
  function Hit(g: Grammar, s: string): nat {
    if Match(g, s).Some? then 1 else 0
  }

  /** How many formats of `fs` match `s`. */
  function MatchCount(fs: seq<Grammar>, s: string): (n: nat)
    ensures n <= |fs|
    ensures n == 0 <==> forall i :: 0 <= i < |fs| ==> Match(fs[i], s).None?
  {
    if fs == [] then 0
    else
      var init := fs[..|fs| - 1];
      assert forall i :: 0 <= i < |init| ==> init[i] == fs[i];
      MatchCount(init, s) + Hit(fs[|fs| - 1], s)
  }

  /**
   * `parse`: count the formats that match, remember the groups of the last
   * one, and give them back only when the count is exactly one.
   */
  method Parse(filename: string) returns (r: Result<Groups, string>)
    ensures r.Success? <==> MatchCount(Formats, filename) == 1
    ensures r.Success? ==> exists i :: 0 <= i < |Formats| && Match(Formats[i], filename) == Some(r.value)
    ensures r.Failure? ==> r.error == ParseError
  {
    var foundMatches := 0;
    var temp: Groups := map[];
    ghost var from := 0;
    for i := 0 to |Formats|
      invariant foundMatches == MatchCount(Formats[..i], filename)
      invariant foundMatches > 0 ==> from < i && Match(Formats[from], filename) == Some(temp)
    {
      assert Formats[..i + 1][..i] == Formats[..i];
      CountStep(Formats[..i + 1], filename);
      var m := Match(Formats[i], filename);
      if m.Some? {
        foundMatches := foundMatches + 1;
        temp := m.value;
        from := i;
      }
    }
    assert Formats[..|Formats|] == Formats;
    if foundMatches != 1 {
      return Failure(ParseError);
    }
    return Success(temp);
  }

  /** The count over the table is the count over the four grammars. */
  lemma CountFormats(s: string)
    ensures MatchCount(Formats, s) == Hit(Kristina, s) + Hit(N6GN, s) + Hit(W2NAF, s) + Hit(Jj1bdx, s)
  {
    var f1, f2, f3 := Formats[..1], Formats[..2], Formats[..3];
    assert f1[..0] == [] && f2[..1] == f1 && f3[..2] == f2 && Formats[..3] == f3;
    CountStep(f1, s);
    CountStep(f2, s);
    CountStep(f3, s);
    CountStep(Formats, s);
  }

  lemma CountStep(fs: seq<Grammar>, s: string)
    requires |fs| > 0
    ensures MatchCount(fs, s) == MatchCount(fs[..|fs| - 1], s) + Hit(fs[|fs| - 1], s)
  {
  }

  /** No filename matches two grammars, so `parse` never sees two matches. */
  lemma AtMostOneFormat(s: string)
    ensures MatchCount(Formats, s) <= 1
  {
    CountFormats(s);
    if MatchN6GN(s).Some? {
      Overlap.N6GNNotKristina(s);
      Overlap.N6GNNotW2NAF(s);
      Overlap.N6GNNotJj1bdx(s);
    }
    if MatchW2NAF(s).Some? {
      Overlap.W2NAFNotKristina(s);
      Overlap.W2NAFNotJj1bdx(s);
    }
    if MatchKristina(s).Some? {
      Overlap.KristinaNotJj1bdx(s);
    }
  }

  /**
   * `parse` succeeds exactly when some grammar matches; its error, whatever it
   * says, is raised only for a filename that no format matches.
   */
  lemma ParseSucceedsIff(s: string)
    ensures MatchCount(Formats, s) == 1 <==> exists g :: Match(g, s).Some?
  {
    AtMostOneFormat(s);
    CountFormats(s);
    if exists g :: Match(g, s).Some? {
      var g :| Match(g, s).Some?;
      assert Hit(g, s) == 1;
    }
  }

  /** The groups of the one matching format are the groups of whichever grammar matches. */
  lemma ParseResultIsTheMatch(s: string, g: Grammar, i: nat)
    requires i < |Formats| && Match(Formats[i], s).Some? && Match(g, s).Some?
    ensures Match(Formats[i], s) == Match(g, s)
  {
    var h := Formats[i];
    if h != g {
      AtMostOneFormat(s);
      CountFormats(s);
      TwoHits(g, h, s);
      assert false;
    }
  }

  /** Two different grammars contribute two separate terms of the count. */
  lemma TwoHits(g: Grammar, h: Grammar, s: string)
    requires g != h
    ensures Hit(g, s) + Hit(h, s) <= Hit(Kristina, s) + Hit(N6GN, s) + Hit(W2NAF, s) + Hit(Jj1bdx, s)
  {
  }

  /** The keys of the dictionary each grammar reports. */
  function Keys(g: Grammar): set<Group> {
    match g
    case Kristina => {Callsign, Station, Band, Timestamp, Type}
    case N6GN => {Callsign, Timestamp, Type, Band}
    case W2NAF => {Callsign, Timestamp, Band, Type}
    case Jj1bdx => {Callsign, Station, Band, Timestamp}
  }

  /** The timestamp layout of each grammar. */
  function StampShape(g: Grammar): string {
    match g
    case Kristina => DashStamp
    case N6GN => CompactStamp
    case W2NAF => IsoStamp
    case Jj1bdx => DashStamp
  }

  /** The character class of each free-text field of each grammar. */
  function FieldClass(g: Grammar, f: Group): CharClass {
    match (g, f)
    case (N6GN, Band) => Digit
    case (W2NAF, Band) => DigitOrDot
    case (N6GN, _) => NotUnderscoreOrNewline
    case (W2NAF, _) => NotUnderscoreOrNewline
    case _ => NotUnderscore
  }

  /** What a reported value looks like, field by field. */
  predicate Fits(g: Grammar, f: Group, v: string) {
    match f
    case Timestamp => FitsStamp(v, StampShape(g))
    case Type => IsKind(v)
    case _ => IsRun(v, FieldClass(g, f))
  }

  /**
   * Every reported value has the form its group demands: the type is `am` or
   * `iq`, the timestamp has its grammar's fixed layout, and callsign, station
   * and band are non-empty runs without `_` (and without a newline in an N6GN
   * or W2NAF callsign; only digits in an N6GN band, digits and dots in a
   * W2NAF band).
   */
  lemma ReportedValuesFit(g: Grammar, s: string)
    requires Match(g, s).Some?
    ensures forall f :: f in Match(g, s).value ==> Fits(g, f, Match(g, s).value[f])
  {
    match g
    case Kristina => KristinaValuesFit(s);
    case N6GN => N6GNValuesFit(s);
    case W2NAF => W2NAFValuesFit(s);
    case Jj1bdx => Jj1bdxValuesFit(s);
  }

  lemma KristinaValuesFit(s: string)
    requires MatchKristina(s).Some?
    ensures forall f :: f in MatchKristina(s).value ==> Fits(Kristina, f, MatchKristina(s).value[f])
  {
    KristinaSound(s);
  }

  lemma N6GNValuesFit(s: string)
    requires MatchN6GN(s).Some?
    ensures forall f :: f in MatchN6GN(s).value ==> Fits(N6GN, f, MatchN6GN(s).value[f])
  {
    N6GNSound(s);
  }

  lemma W2NAFValuesFit(s: string)
    requires MatchW2NAF(s).Some?
    ensures forall f :: f in MatchW2NAF(s).value ==> Fits(W2NAF, f, MatchW2NAF(s).value[f])
  {
    W2NAFSound(s);
  }

  lemma Jj1bdxValuesFit(s: string)
    requires MatchJj1bdx(s).Some?
    ensures forall f :: f in MatchJj1bdx(s).value ==> Fits(Jj1bdx, f, MatchJj1bdx(s).value[f])
  {
    Jj1bdxSound(s);
  }

  /** `re.match` anchors only at the start: text after the `wav` changes nothing. */
  lemma MatchIgnoresTrailing(g: Grammar, s: string, t: string)
    requires Match(g, s).Some?
    ensures Match(g, s + t) == Match(g, s)
  {
    match g
    case Kristina =>
      KristinaSound(s);
      var m := MatchKristina(s).value;
      Extend(s, t, m[Callsign] + "_" + m[Station] + "_" + m[Band] + "_" + m[Timestamp] + "_" + m[Type]);
      KristinaComplete(s + t, m[Callsign], m[Station], m[Band], m[Timestamp], m[Type]);
    case N6GN =>
      N6GNSound(s);
      var m := MatchN6GN(s).value;
      Extend(s, t, m[Callsign] + "_" + m[Timestamp] + "_" + m[Type] + "_" + m[Band]);
      N6GNComplete(s + t, m[Callsign], m[Timestamp], m[Type], m[Band]);
    case W2NAF =>
      W2NAFSound(s);
      var m := MatchW2NAF(s).value;
      Extend(s, t, m[Callsign] + "_" + m[Timestamp] + "_" + m[Band] + "_" + m[Type]);
      W2NAFComplete(s + t, m[Callsign], m[Timestamp], m[Band], m[Type]);
    case Jj1bdx =>
      Jj1bdxSound(s);
      var m := MatchJj1bdx(s).value;
      Extend(s, t, m[Callsign] + "_" + m[Station] + "_" + m[Band] + "_" + m[Timestamp]);
      Jj1bdxComplete(s + t, m[Callsign], m[Station], m[Band], m[Timestamp]);
  }

  /** A filename `parse` accepts stays accepted, with the same fields, whatever is appended to it. */
  lemma ParseIgnoresTrailing(s: string, t: string, g: Grammar)
    requires Match(g, s).Some?
    ensures MatchCount(Formats, s + t) == 1 && Match(g, s + t) == Match(g, s)
  {
    MatchIgnoresTrailing(g, s, t);
    ParseSucceedsIff(s + t);
  }
}
