/**
 * The four filename grammars of the festival submission table, each read two
 * ways: as a matcher that follows Python's `re.match` step by step (anchored
 * at the start only, greedy repeats, backtracking where it can matter), and as
 * a declarative shape, the language of the expression. The Sound and Complete
 * lemmas connect the two: a grammar matches exactly the filenames of its shape,
 * and the groups it reports are the fields of that shape.
 */
module Grammars {
  import opened Wrappers
  import opened RegexPieces

  /** The named groups of the four expressions; `Name` is the key Python reports. */
  datatype Group = Callsign | Station | Band | Timestamp | Type {
    function Name(): string {
      match this
      case Callsign => "callsign"
      case Station => "station"
      case Band => "band"
      case Timestamp => "timestamp"
      case Type => "type"
    }
  }

  /** What `match.groupdict()` returns: each group of the expression to the text it captured. */
  type Groups = map<Group, string>

  /** `\d{4}-\d{2}-\d{2}_\d{2}-\d{2}` (kristina, jj1bdx). */
  const DashStamp := "DDDD-DD-DD_DD-DD"
  /** `\d{4}\d{2}\d{2}T\d{2}\d{2}\d{2}` (N6GN). */
  const CompactStamp := "DDDDDDDDTDDDDDD"
  /** `\d{4}-\d{2}-\d{2}T\d{2}_\d{2}_\d{2}Z` (W2NAF). */
  const IsoStamp := "DDDD-DD-DDTDD_DD_DDZ"

  // ---------------------------------------------------------------- kristina
  // callsign, station and band as `[^_]+` fields, a `YYYY-MM-DD_HH-MM` timestamp, the type, then `.wav`

  function KristinaGroups(callsign: string, station: string, band: string, timestamp: string, kind: string): Groups {
    map[Callsign := callsign, Station := station, Band := band, Timestamp := timestamp, Type := kind]
  }

  lemma KristinaFields(callsign: string, station: string, band: string, timestamp: string, kind: string)
    ensures var g := KristinaGroups(callsign, station, band, timestamp, kind);
      && g[Callsign] == callsign && g[Station] == station && g[Band] == band
      && g[Timestamp] == timestamp && g[Type] == kind
  {
  }

  ghost predicate KristinaShape(s: string, callsign: string, station: string, band: string, timestamp: string, kind: string) {
    && IsRun(callsign, NotUnderscore) && IsRun(station, NotUnderscore) && IsRun(band, NotUnderscore)
    && FitsStamp(timestamp, DashStamp) && IsKind(kind)
    && LeadsToWav(s, callsign + "_" + station + "_" + band + "_" + timestamp + "_" + kind)
  }

  /** Where the three underscore-closed fields of a kristina name end, and the rest of the expression after them. */
  predicate KristinaCuts(s: string, e1: nat, e2: nat, e3: nat) {
    && 0 < e1 < e2 < e3 && e3 + 20 <= |s| && s[e1] == '_' && s[e2] == '_' && s[e3] == '_'
    && IsRun(s[..e1], NotUnderscore) && IsRun(s[e1 + 1..e2], NotUnderscore) && IsRun(s[e2 + 1..e3], NotUnderscore)
    && StampAt(s, e3 + 1, DashStamp) && s[e3 + 17] == '_' && KindAt(s, e3 + 18) && WavAt(s, e3 + 20)
  }

  /** The engine's walk through the kristina expression: the field ends it settles on, if it gets to `wav`. */
  function KristinaEnds(s: string): (r: Option<(nat, nat, nat)>)
    ensures r.Some? ==> KristinaCuts(s, r.value.0, r.value.1, r.value.2)
  {
    var r1 := FieldEnd(s, 0, NotUnderscore);
    if r1.None? then None else
    var e1 := r1.value;
    var r2 := FieldEnd(s, e1 + 1, NotUnderscore);
    if r2.None? then None else
    var e2 := r2.value;
    var r3 := FieldEnd(s, e2 + 1, NotUnderscore);
    if r3.None? then None else
    var e3 := r3.value;
    var t := e3 + 1;
    if StampAt(s, t, DashStamp) && t + 16 < |s| && s[t + 16] == '_' && KindAt(s, t + 17) && WavAt(s, t + 19)
    then
      assert s[0..e1] == s[..e1];
      Some((e1, e2, e3))
    else None
  }

  /** `re.match` of the kristina expression, as `groupdict()` reports it. */
  function MatchKristina(s: string): (r: Option<Groups>)
    ensures r.Some? ==> r.value.Keys == {Callsign, Station, Band, Timestamp, Type}
    ensures r.Some? ==> FitsStamp(r.value[Timestamp], DashStamp) && IsKind(r.value[Type])
  {
    var r := KristinaEnds(s);
    if r.None? then None else
    var (e1, e2, e3) := r.value;
    KristinaReport(s, e1, e2, e3);
    Some(KristinaGroups(s[..e1], s[e1 + 1..e2], s[e2 + 1..e3], s[e3 + 1..e3 + 17], s[e3 + 18..e3 + 20]))
  }

  /** The groups read off a kristina walk: the five keys, a dashed timestamp and `am` or `iq`. */
  lemma KristinaReport(s: string, e1: nat, e2: nat, e3: nat)
    requires KristinaCuts(s, e1, e2, e3)
    ensures var g := KristinaGroups(s[..e1], s[e1 + 1..e2], s[e2 + 1..e3], s[e3 + 1..e3 + 17], s[e3 + 18..e3 + 20]);
      && g.Keys == {Callsign, Station, Band, Timestamp, Type}
      && FitsStamp(g[Timestamp], DashStamp) && IsKind(g[Type])
  {
    KristinaFields(s[..e1], s[e1 + 1..e2], s[e2 + 1..e3], s[e3 + 1..e3 + 17], s[e3 + 18..e3 + 20]);
    assert StampAt(s, e3 + 1, DashStamp) && |DashStamp| == 16;
  }

  /** A kristina match reports the fields of a kristina-shaped filename. */
  lemma KristinaSound(s: string)
    requires MatchKristina(s).Some?
    ensures var g := MatchKristina(s).value;
      && g == KristinaGroups(g[Callsign], g[Station], g[Band], g[Timestamp], g[Type])
      && KristinaShape(s, g[Callsign], g[Station], g[Band], g[Timestamp], g[Type])
  {
    var (e1, e2, e3) := KristinaEnds(s).value;
    var g := KristinaGroups(s[..e1], s[e1 + 1..e2], s[e2 + 1..e3], s[e3 + 1..e3 + 17], s[e3 + 18..e3 + 20]);
    assert MatchKristina(s).value == g;
    KristinaFields(s[..e1], s[e1 + 1..e2], s[e2 + 1..e3], s[e3 + 1..e3 + 17], s[e3 + 18..e3 + 20]);
    KristinaShapeAt(s, e1, e2, e3);
  }

  lemma KristinaShapeAt(s: string, e1: nat, e2: nat, e3: nat)
    requires KristinaCuts(s, e1, e2, e3)
    ensures KristinaShape(s, s[..e1], s[e1 + 1..e2], s[e2 + 1..e3], s[e3 + 1..e3 + 17], s[e3 + 18..e3 + 20])
  {
    var t := e3 + 1;
    assert s[0..e1] == s[..e1];
    Glue(s, 0, e1, e2);
    Glue(s, 0, e2, e3);
    Glue(s, 0, e3, t + 16);
    Glue(s, 0, t + 16, t + 19);
  }

  lemma KristinaLayout(s: string, callsign: string, station: string, band: string, timestamp: string, kind: string)
    requires KristinaShape(s, callsign, station, band, timestamp, kind)
    ensures var e1 := |callsign|; var e2 := e1 + 1 + |station|; var e3 := e2 + 1 + |band|; var t := e3 + 1;
      && t + 19 <= |s| && s[..e1] == callsign && s[e1] == '_' && s[e1 + 1..e2] == station && s[e2] == '_'
      && s[e2 + 1..e3] == band && s[e3] == '_' && s[t..t + 16] == timestamp && s[t + 16] == '_'
      && s[t + 17..t + 19] == kind
  {
    Unglue(s, callsign + "_" + station + "_" + band + "_" + timestamp, kind);
    Unglue(s, callsign + "_" + station + "_" + band, timestamp);
    Unglue(s, callsign + "_" + station, band);
    Unglue(s, callsign, station);
  }

  lemma KristinaAt(s: string, e1: nat, e2: nat, e3: nat)
    requires KristinaCuts(s, e1, e2, e3)
    ensures KristinaEnds(s) == Some((e1, e2, e3))
  {
    assert s[0..e1] == s[..e1];
    FieldEndAt(s, 0, NotUnderscore, e1);
    FieldEndAt(s, e1 + 1, NotUnderscore, e2);
    FieldEndAt(s, e2 + 1, NotUnderscore, e3);
  }

  /** Every kristina-shaped filename matches, and its fields are the groups reported. */
  lemma KristinaComplete(s: string, callsign: string, station: string, band: string, timestamp: string, kind: string)
    requires KristinaShape(s, callsign, station, band, timestamp, kind)
    ensures MatchKristina(s) == Some(KristinaGroups(callsign, station, band, timestamp, kind))
  {
    KristinaLayout(s, callsign, station, band, timestamp, kind);
    var e1 := |callsign|;
    var e2 := e1 + 1 + |station|;
    KristinaAt(s, e1, e2, e2 + 1 + |band|);
  }

  // ---------------------------------------------------------------- N6GN
  // a `[^_\n]+` callsign, a `YYYYMMDDTHHMMSS` timestamp, the type, a `[0-9]+` band, then `.wav`

  function N6GNGroups(callsign: string, timestamp: string, kind: string, band: string): Groups {
    map[Callsign := callsign, Timestamp := timestamp, Type := kind, Band := band]
  }

  ghost predicate N6GNShape(s: string, callsign: string, timestamp: string, kind: string, band: string) {
    && IsRun(callsign, NotUnderscoreOrNewline) && FitsStamp(timestamp, CompactStamp) && IsKind(kind)
    && IsRun(band, Digit)
    && LeadsToWav(s, callsign + "_" + timestamp + "_" + kind + "_" + band)
  }

  /** Where the callsign and the band of an N6GN name end, and the fixed fields between them. */
  predicate N6GNCuts(s: string, e1: nat, e: nat) {
    && 0 < e1 && e1 + 20 < e <= |s| && s[e1] == '_' && IsRun(s[..e1], NotUnderscoreOrNewline)
    && StampAt(s, e1 + 1, CompactStamp) && s[e1 + 16] == '_' && KindAt(s, e1 + 17) && s[e1 + 19] == '_'
    && IsRun(s[e1 + 20..e], Digit) && WavAt(s, e)
  }

  /** The engine's walk through the N6GN expression, with the band backing off until `.wav` fits. */
  function N6GNEnds(s: string): (r: Option<(nat, nat)>)
    ensures r.Some? ==> N6GNCuts(s, r.value.0, r.value.1)
  {
    var r1 := FieldEnd(s, 0, NotUnderscoreOrNewline);
    if r1.None? then None else
    var e1 := r1.value;
    var t := e1 + 1;
    if StampAt(s, t, CompactStamp) && t + 15 < |s| && s[t + 15] == '_' && KindAt(s, t + 16) && t + 18 < |s| && s[t + 18] == '_'
    then
      var band := DigitsThenWav(s, t + 19);
      if band.None? then None else
      assert s[0..e1] == s[..e1];
      Some((e1, band.value))
    else None
  }

  /** `re.match` of the N6GN expression, as `groupdict()` reports it. */
  function MatchN6GN(s: string): (r: Option<Groups>)
    ensures r.Some? ==> r.value.Keys == {Callsign, Timestamp, Type, Band}
    ensures r.Some? ==> FitsStamp(r.value[Timestamp], CompactStamp) && IsKind(r.value[Type])
  {
    var r := N6GNEnds(s);
    if r.None? then None else
    var (e1, e) := r.value;
    Some(N6GNGroups(s[..e1], s[e1 + 1..e1 + 16], s[e1 + 17..e1 + 19], s[e1 + 20..e]))
  }

  lemma N6GNFields(callsign: string, timestamp: string, kind: string, band: string)
    ensures var g := N6GNGroups(callsign, timestamp, kind, band);
      && g[Callsign] == callsign && g[Timestamp] == timestamp && g[Type] == kind && g[Band] == band
  {
  }

  /** An N6GN match reports the fields of an N6GN-shaped filename. */
  lemma N6GNSound(s: string)
    requires MatchN6GN(s).Some?
    ensures var g := MatchN6GN(s).value;
      && g == N6GNGroups(g[Callsign], g[Timestamp], g[Type], g[Band])
      && N6GNShape(s, g[Callsign], g[Timestamp], g[Type], g[Band])
  {
    var (e1, e) := N6GNEnds(s).value;
    var g := N6GNGroups(s[..e1], s[e1 + 1..e1 + 16], s[e1 + 17..e1 + 19], s[e1 + 20..e]);
    assert MatchN6GN(s).value == g;
    N6GNFields(s[..e1], s[e1 + 1..e1 + 16], s[e1 + 17..e1 + 19], s[e1 + 20..e]);
    N6GNShapeAt(s, e1, e);
  }

  lemma N6GNShapeAt(s: string, e1: nat, e: nat)
    requires N6GNCuts(s, e1, e)
    ensures N6GNShape(s, s[..e1], s[e1 + 1..e1 + 16], s[e1 + 17..e1 + 19], s[e1 + 20..e])
  {
    assert s[0..e1] == s[..e1];
    Glue(s, 0, e1, e1 + 16);
    Glue(s, 0, e1 + 16, e1 + 19);
    Glue(s, 0, e1 + 19, e);
  }

  lemma N6GNLayout(s: string, callsign: string, timestamp: string, kind: string, band: string)
    requires N6GNShape(s, callsign, timestamp, kind, band)
    ensures var e1 := |callsign|; var t := e1 + 1; var e := t + 19 + |band|;
      && e <= |s| && s[..e1] == callsign && s[e1] == '_' && s[t..t + 15] == timestamp && s[t + 15] == '_'
      && s[t + 16..t + 18] == kind && s[t + 18] == '_' && s[t + 19..e] == band && WavAt(s, e)
  {
    Unglue(s, callsign + "_" + timestamp + "_" + kind, band);
    Unglue(s, callsign + "_" + timestamp, kind);
    Unglue(s, callsign, timestamp);
  }

  lemma N6GNAt(s: string, e1: nat, e: nat)
    requires N6GNCuts(s, e1, e)
    ensures N6GNEnds(s) == Some((e1, e))
  {
    assert s[0..e1] == s[..e1];
    FieldEndAt(s, 0, NotUnderscoreOrNewline, e1);
    DigitsThenWavAt(s, e1 + 20, e);
  }

  /** Every N6GN-shaped filename matches, and its fields are the groups reported. */
  lemma N6GNComplete(s: string, callsign: string, timestamp: string, kind: string, band: string)
    requires N6GNShape(s, callsign, timestamp, kind, band)
    ensures MatchN6GN(s) == Some(N6GNGroups(callsign, timestamp, kind, band))
  {
    N6GNLayout(s, callsign, timestamp, kind, band);
    N6GNAt(s, |callsign|, |callsign| + 20 + |band|);
  }

  // ---------------------------------------------------------------- W2NAF
  // a `[^_\n]+` callsign, a `YYYY-MM-DDTHH_MM_SSZ` timestamp, a `[\d.]+` band, the type, then `.wav`

  function W2NAFGroups(callsign: string, timestamp: string, band: string, kind: string): Groups {
    map[Callsign := callsign, Timestamp := timestamp, Band := band, Type := kind]
  }

  ghost predicate W2NAFShape(s: string, callsign: string, timestamp: string, band: string, kind: string) {
    && IsRun(callsign, NotUnderscoreOrNewline) && FitsStamp(timestamp, IsoStamp) && IsRun(band, DigitOrDot)
    && IsKind(kind)
    && LeadsToWav(s, callsign + "_" + timestamp + "_" + band + "_" + kind)
  }

  /** Where the callsign and the band of a W2NAF name end, and the fixed fields around them. */
  predicate W2NAFCuts(s: string, e1: nat, e: nat) {
    && 0 < e1 && e1 + 22 < e && e + 3 <= |s| && s[e1] == '_' && IsRun(s[..e1], NotUnderscoreOrNewline)
    && StampAt(s, e1 + 1, IsoStamp) && s[e1 + 21] == '_'
    && IsRun(s[e1 + 22..e], DigitOrDot) && s[e] == '_' && KindAt(s, e + 1) && WavAt(s, e + 3)
  }

  /** The engine's walk through the W2NAF expression. */
  function W2NAFEnds(s: string): (r: Option<(nat, nat)>)
    ensures r.Some? ==> W2NAFCuts(s, r.value.0, r.value.1)
  {
    var r1 := FieldEnd(s, 0, NotUnderscoreOrNewline);
    if r1.None? then None else
    var e1 := r1.value;
    var t := e1 + 1;
    if StampAt(s, t, IsoStamp) && t + 20 < |s| && s[t + 20] == '_'
    then
      var band := FieldEnd(s, t + 21, DigitOrDot);
      if band.None? then None else
      var e := band.value;
      if KindAt(s, e + 1) && WavAt(s, e + 3)
      then
        assert s[0..e1] == s[..e1];
        Some((e1, e))
      else None
    else None
  }

  /** `re.match` of the W2NAF expression, as `groupdict()` reports it. */
  function MatchW2NAF(s: string): (r: Option<Groups>)
    ensures r.Some? ==> r.value.Keys == {Callsign, Timestamp, Band, Type}
    ensures r.Some? ==> FitsStamp(r.value[Timestamp], IsoStamp) && IsKind(r.value[Type])
  {
    var r := W2NAFEnds(s);
    if r.None? then None else
    var (e1, e) := r.value;
    Some(W2NAFGroups(s[..e1], s[e1 + 1..e1 + 21], s[e1 + 22..e], s[e + 1..e + 3]))
  }

  lemma W2NAFFields(callsign: string, timestamp: string, band: string, kind: string)
    ensures var g := W2NAFGroups(callsign, timestamp, band, kind);
      && g[Callsign] == callsign && g[Timestamp] == timestamp && g[Band] == band && g[Type] == kind
  {
  }

  /** A W2NAF match reports the fields of a W2NAF-shaped filename. */
  lemma W2NAFSound(s: string)
    requires MatchW2NAF(s).Some?
    ensures var g := MatchW2NAF(s).value;
      && g == W2NAFGroups(g[Callsign], g[Timestamp], g[Band], g[Type])
      && W2NAFShape(s, g[Callsign], g[Timestamp], g[Band], g[Type])
  {
    var (e1, e) := W2NAFEnds(s).value;
    var g := W2NAFGroups(s[..e1], s[e1 + 1..e1 + 21], s[e1 + 22..e], s[e + 1..e + 3]);
    assert MatchW2NAF(s).value == g;
    W2NAFFields(s[..e1], s[e1 + 1..e1 + 21], s[e1 + 22..e], s[e + 1..e + 3]);
    W2NAFShapeAt(s, e1, e);
  }

  lemma W2NAFShapeAt(s: string, e1: nat, e: nat)
    requires W2NAFCuts(s, e1, e)
    ensures W2NAFShape(s, s[..e1], s[e1 + 1..e1 + 21], s[e1 + 22..e], s[e + 1..e + 3])
  {
    assert s[0..e1] == s[..e1];
    Glue(s, 0, e1, e1 + 21);
    Glue(s, 0, e1 + 21, e);
    Glue(s, 0, e, e + 3);
  }

  lemma W2NAFLayout(s: string, callsign: string, timestamp: string, band: string, kind: string)
    requires W2NAFShape(s, callsign, timestamp, band, kind)
    ensures var e1 := |callsign|; var t := e1 + 1; var e := t + 21 + |band|;
      && e + 3 <= |s| && s[..e1] == callsign && s[e1] == '_' && s[t..t + 20] == timestamp && s[t + 20] == '_'
      && s[t + 21..e] == band && s[e] == '_' && s[e + 1..e + 3] == kind
  {
    Unglue(s, callsign + "_" + timestamp + "_" + band, kind);
    Unglue(s, callsign + "_" + timestamp, band);
    Unglue(s, callsign, timestamp);
  }

  lemma W2NAFAt(s: string, e1: nat, e: nat)
    requires W2NAFCuts(s, e1, e)
    ensures W2NAFEnds(s) == Some((e1, e))
  {
    assert s[0..e1] == s[..e1];
    FieldEndAt(s, 0, NotUnderscoreOrNewline, e1);
    FieldEndAt(s, e1 + 22, DigitOrDot, e);
  }

  /** Every W2NAF-shaped filename matches, and its fields are the groups reported. */
  lemma W2NAFComplete(s: string, callsign: string, timestamp: string, band: string, kind: string)
    requires W2NAFShape(s, callsign, timestamp, band, kind)
    ensures MatchW2NAF(s) == Some(W2NAFGroups(callsign, timestamp, band, kind))
  {
    W2NAFLayout(s, callsign, timestamp, band, kind);
    W2NAFAt(s, |callsign|, |callsign| + 22 + |band|);
  }

  // ---------------------------------------------------------------- jj1bdx
  // callsign, station and band as `[^_]+` fields, a `YYYY-MM-DD_HH-MM` timestamp, then `.wav`

  function Jj1bdxGroups(callsign: string, station: string, band: string, timestamp: string): Groups {
    map[Callsign := callsign, Station := station, Band := band, Timestamp := timestamp]
  }

  ghost predicate Jj1bdxShape(s: string, callsign: string, station: string, band: string, timestamp: string) {
    && IsRun(callsign, NotUnderscore) && IsRun(station, NotUnderscore) && IsRun(band, NotUnderscore)
    && FitsStamp(timestamp, DashStamp)
    && LeadsToWav(s, callsign + "_" + station + "_" + band + "_" + timestamp)
  }

  /** Where the three underscore-closed fields of a jj1bdx name end, and the stamp and `.wav` after them. */
  predicate Jj1bdxCuts(s: string, e1: nat, e2: nat, e3: nat) {
    && 0 < e1 < e2 < e3 && e3 + 17 <= |s| && s[e1] == '_' && s[e2] == '_' && s[e3] == '_'
    && IsRun(s[..e1], NotUnderscore) && IsRun(s[e1 + 1..e2], NotUnderscore) && IsRun(s[e2 + 1..e3], NotUnderscore)
    && StampAt(s, e3 + 1, DashStamp) && WavAt(s, e3 + 17)
  }

  /** The engine's walk through the jj1bdx expression. */
  function Jj1bdxEnds(s: string): (r: Option<(nat, nat, nat)>)
    ensures r.Some? ==> Jj1bdxCuts(s, r.value.0, r.value.1, r.value.2)
  {
    var r1 := FieldEnd(s, 0, NotUnderscore);
    if r1.None? then None else
    var e1 := r1.value;
    var r2 := FieldEnd(s, e1 + 1, NotUnderscore);
    if r2.None? then None else
    var e2 := r2.value;
    var r3 := FieldEnd(s, e2 + 1, NotUnderscore);
    if r3.None? then None else
    var e3 := r3.value;
    if StampAt(s, e3 + 1, DashStamp) && WavAt(s, e3 + 17)
    then
      assert s[0..e1] == s[..e1];
      Some((e1, e2, e3))
    else None
  }

  /** `re.match` of the jj1bdx expression, as `groupdict()` reports it. */
  function MatchJj1bdx(s: string): (r: Option<Groups>)
    ensures r.Some? ==> r.value.Keys == {Callsign, Station, Band, Timestamp}
    ensures r.Some? ==> FitsStamp(r.value[Timestamp], DashStamp)
  {
    var r := Jj1bdxEnds(s);
    if r.None? then None else
    var (e1, e2, e3) := r.value;
    Jj1bdxReport(s, e1, e2, e3);
    Some(Jj1bdxGroups(s[..e1], s[e1 + 1..e2], s[e2 + 1..e3], s[e3 + 1..e3 + 17]))
  }

  /** The groups read off a jj1bdx walk: the four keys and a dashed timestamp. */
  lemma Jj1bdxReport(s: string, e1: nat, e2: nat, e3: nat)
    requires Jj1bdxCuts(s, e1, e2, e3)
    ensures var g := Jj1bdxGroups(s[..e1], s[e1 + 1..e2], s[e2 + 1..e3], s[e3 + 1..e3 + 17]);
      && g.Keys == {Callsign, Station, Band, Timestamp} && FitsStamp(g[Timestamp], DashStamp)
  {
    Jj1bdxFields(s[..e1], s[e1 + 1..e2], s[e2 + 1..e3], s[e3 + 1..e3 + 17]);
    assert StampAt(s, e3 + 1, DashStamp) && |DashStamp| == 16;
  }

  lemma Jj1bdxFields(callsign: string, station: string, band: string, timestamp: string)
    ensures var g := Jj1bdxGroups(callsign, station, band, timestamp);
      && g[Callsign] == callsign && g[Station] == station && g[Band] == band && g[Timestamp] == timestamp
  {
  }

  /** A jj1bdx match reports the fields of a jj1bdx-shaped filename. */
  lemma Jj1bdxSound(s: string)
    requires MatchJj1bdx(s).Some?
    ensures var g := MatchJj1bdx(s).value;
      && g == Jj1bdxGroups(g[Callsign], g[Station], g[Band], g[Timestamp])
      && Jj1bdxShape(s, g[Callsign], g[Station], g[Band], g[Timestamp])
  {
    var (e1, e2, e3) := Jj1bdxEnds(s).value;
    var g := Jj1bdxGroups(s[..e1], s[e1 + 1..e2], s[e2 + 1..e3], s[e3 + 1..e3 + 17]);
    assert MatchJj1bdx(s).value == g;
    Jj1bdxFields(s[..e1], s[e1 + 1..e2], s[e2 + 1..e3], s[e3 + 1..e3 + 17]);
    Jj1bdxShapeAt(s, e1, e2, e3);
  }

  lemma Jj1bdxShapeAt(s: string, e1: nat, e2: nat, e3: nat)
    requires Jj1bdxCuts(s, e1, e2, e3)
    ensures Jj1bdxShape(s, s[..e1], s[e1 + 1..e2], s[e2 + 1..e3], s[e3 + 1..e3 + 17])
  {
    assert s[0..e1] == s[..e1];
    Glue(s, 0, e1, e2);
    Glue(s, 0, e2, e3);
    Glue(s, 0, e3, e3 + 17);
  }

  lemma Jj1bdxLayout(s: string, callsign: string, station: string, band: string, timestamp: string)
    requires Jj1bdxShape(s, callsign, station, band, timestamp)
    ensures var e1 := |callsign|; var e2 := e1 + 1 + |station|; var e3 := e2 + 1 + |band|; var t := e3 + 1;
      && t + 16 <= |s| && s[..e1] == callsign && s[e1] == '_' && s[e1 + 1..e2] == station && s[e2] == '_'
      && s[e2 + 1..e3] == band && s[e3] == '_' && s[t..t + 16] == timestamp && WavAt(s, t + 16)
  {
    Unglue(s, callsign + "_" + station + "_" + band, timestamp);
    Unglue(s, callsign + "_" + station, band);
    Unglue(s, callsign, station);
  }

  lemma Jj1bdxAt(s: string, e1: nat, e2: nat, e3: nat)
    requires Jj1bdxCuts(s, e1, e2, e3)
    ensures Jj1bdxEnds(s) == Some((e1, e2, e3))
  {
    assert s[0..e1] == s[..e1];
    FieldEndAt(s, 0, NotUnderscore, e1);
    FieldEndAt(s, e1 + 1, NotUnderscore, e2);
    FieldEndAt(s, e2 + 1, NotUnderscore, e3);
  }

  /** Every jj1bdx-shaped filename matches, and its fields are the groups reported. */
  lemma Jj1bdxComplete(s: string, callsign: string, station: string, band: string, timestamp: string)
    requires Jj1bdxShape(s, callsign, station, band, timestamp)
    ensures MatchJj1bdx(s) == Some(Jj1bdxGroups(callsign, station, band, timestamp))
  {
    Jj1bdxLayout(s, callsign, station, band, timestamp);
    var e1 := |callsign|;
    var e2 := e1 + 1 + |station|;
    Jj1bdxAt(s, e1, e2, e2 + 1 + |band|);
  }
}
