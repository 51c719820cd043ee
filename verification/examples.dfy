/**
 * Worked filenames: what `parse` makes of a well-formed N6GN submission, of an
 * N6GN name whose band has to give a digit back to `.wav`, and of a name that
 * no format accepts; and one well-formed name each for kristina, W2NAF and
 * jj1bdx, with the fields each reports.
 */
module Examples {
  import opened Wrappers
  import opened RegexPieces
  import opened Grammars
  import opened Submissions

  /** The fields the two N6GN names below share, joined by their underscores. */
  const N6GNHead := "N6XYZ_20230615T142233_iq_40"

  /** Any name that spells `N6GNHead` and then `.wav` (with any character for the dot) has these four fields. */
  lemma N6GNHeadFields(s: string)
    requires LeadsToWav(s, N6GNHead)
    ensures MatchN6GN(s) == Some(N6GNGroups("N6XYZ", "20230615T142233", "iq", "40"))
  {
    N6GNHeadShape(s);
    N6GNComplete(s, "N6XYZ", "20230615T142233", "iq", "40");
  }

  lemma N6GNHeadShape(s: string)
    requires LeadsToWav(s, N6GNHead)
    ensures N6GNShape(s, "N6XYZ", "20230615T142233", "iq", "40")
  {
    assert N6GNHead == "N6XYZ" + "_" + "20230615T142233" + "_" + "iq" + "_" + "40";
    N6GNHeadParts();
  }

  lemma N6GNHeadParts()
    ensures IsRun("N6XYZ", NotUnderscoreOrNewline) && FitsStamp("20230615T142233", CompactStamp)
    ensures IsKind("iq") && IsRun("40", Digit)
  {
  }

  const N6GNName := "N6XYZ_20230615T142233_iq_40.wav"

  /** The N6GN name parses to its four fields, and no other format matches it. */
  lemma N6GNNameFields()
    ensures Match(N6GN, N6GNName) == Some(N6GNGroups("N6XYZ", "20230615T142233", "iq", "40"))
    ensures MatchCount(Formats, N6GNName) == 1
  {
    assert N6GNName[..27] == N6GNHead;
    N6GNHeadFields(N6GNName);
    ParseSucceedsIff(N6GNName);
  }

  /** `parse` itself returns those fields for the N6GN name. */
  method ParseN6GNName() returns (r: Result<Groups, string>)
    ensures r == Success(map[Callsign := "N6XYZ", Timestamp := "20230615T142233", Type := "iq", Band := "40"])
  {
    r := Parse(N6GNName);
    N6GNNameFields();
    ghost var i :| 0 <= i < |Formats| && Match(Formats[i], N6GNName) == Some(r.value);
    ParseResultIsTheMatch(N6GNName, N6GN, i);
  }

  /**
   * The greedy band takes `405`, finds `wav` where `.wav` needs four
   * characters, and gives back the `5`, which then stands for the `.`.
   */
  const BacktrackName := "N6XYZ_20230615T142233_iq_405wav"

  lemma BacktrackNameBand()
    ensures Match(N6GN, BacktrackName) == Some(N6GNGroups("N6XYZ", "20230615T142233", "iq", "40"))
  {
    assert BacktrackName[..27] == N6GNHead;
    N6GNHeadFields(BacktrackName);
  }

  /** A name without the festival's fields matches nothing. */
  const PlainName := "sunrise.wav"

  lemma PlainNameMatchesNothing()
    ensures MatchCount(Formats, PlainName) == 0
  {
    assert forall m :: 0 <= m < |PlainName| ==> PlainName[m] != '_';
    assert FieldEnd(PlainName, 0, NotUnderscore).None? && FieldEnd(PlainName, 0, NotUnderscoreOrNewline).None?;
    CountFormats(PlainName);
  }

  /** `parse` rejects it with the message about more than one match. */
  method ParsePlainName() returns (r: Result<Groups, string>)
    ensures r == Failure("more than one match")
  {
    r := Parse(PlainName);
    PlainNameMatchesNothing();
  }

  /** A head followed by one character other than a newline and then `wav` leads to `.wav`. */
  lemma WavAfter(head: string, ending: string)
    requires |ending| == 4 && ending[0] != '\n' && ending[1..] == "wav"
    ensures LeadsToWav(head + ending, head)
  {
    var s := head + ending;
    assert s[..|head|] == head;
    assert s[|head| + 1..|head| + 4] == ending[1..];
  }

  /** A kristina name, `K1ABC_KPH_40m_2023-06-15_14-22_am.wav`: three free fields, the dashed timestamp, and `am`. */
  const KristinaName := "K1ABC" + "_" + "KPH" + "_" + "40m" + "_" + "2023-06-15_14-22" + "_" + "am" + ".wav"

  lemma KristinaNameFields()
    ensures Match(Kristina, KristinaName) == Some(KristinaGroups("K1ABC", "KPH", "40m", "2023-06-15_14-22", "am"))
    ensures MatchCount(Formats, KristinaName) == 1
  {
    KristinaNameParts();
    WavAfter("K1ABC" + "_" + "KPH" + "_" + "40m" + "_" + "2023-06-15_14-22" + "_" + "am", ".wav");
    KristinaComplete(KristinaName, "K1ABC", "KPH", "40m", "2023-06-15_14-22", "am");
    ParseSucceedsIff(KristinaName);
  }

  lemma KristinaNameParts()
    ensures IsRun("K1ABC", NotUnderscore) && IsRun("KPH", NotUnderscore) && IsRun("40m", NotUnderscore)
    ensures FitsStamp("2023-06-15_14-22", DashStamp) && IsKind("am")
  {
  }

  /**
   * A W2NAF name, `W2NAF_2023-06-15T14_22_33Z_7.850_iq.wav`: its ISO timestamp
   * holds two underscores, and its band is a frequency with a dot.
   */
  const W2NAFName := "W2NAF" + "_" + "2023-06-15T14_22_33Z" + "_" + "7.850" + "_" + "iq" + ".wav"

  lemma W2NAFNameFields()
    ensures Match(W2NAF, W2NAFName) == Some(W2NAFGroups("W2NAF", "2023-06-15T14_22_33Z", "7.850", "iq"))
    ensures MatchCount(Formats, W2NAFName) == 1
  {
    W2NAFNameParts();
    WavAfter("W2NAF" + "_" + "2023-06-15T14_22_33Z" + "_" + "7.850" + "_" + "iq", ".wav");
    W2NAFComplete(W2NAFName, "W2NAF", "2023-06-15T14_22_33Z", "7.850", "iq");
    ParseSucceedsIff(W2NAFName);
  }

  lemma W2NAFNameParts()
    ensures IsRun("W2NAF", NotUnderscoreOrNewline) && IsRun("7.850", DigitOrDot)
    ensures FitsStamp("2023-06-15T14_22_33Z", IsoStamp) && IsKind("iq")
  {
  }

  /** A jj1bdx name, `JJ1BDX_TOKYO_20m_2023-06-15_14-22.wav`: the kristina layout without the type. */
  const Jj1bdxName := "JJ1BDX" + "_" + "TOKYO" + "_" + "20m" + "_" + "2023-06-15_14-22" + ".wav"

  lemma Jj1bdxNameFields()
    ensures Match(Jj1bdx, Jj1bdxName) == Some(Jj1bdxGroups("JJ1BDX", "TOKYO", "20m", "2023-06-15_14-22"))
    ensures MatchCount(Formats, Jj1bdxName) == 1
  {
    Jj1bdxNameParts();
    WavAfter("JJ1BDX" + "_" + "TOKYO" + "_" + "20m" + "_" + "2023-06-15_14-22", ".wav");
    Jj1bdxComplete(Jj1bdxName, "JJ1BDX", "TOKYO", "20m", "2023-06-15_14-22");
    ParseSucceedsIff(Jj1bdxName);
  }

  lemma Jj1bdxNameParts()
    ensures IsRun("JJ1BDX", NotUnderscore) && IsRun("TOKYO", NotUnderscore) && IsRun("20m", NotUnderscore)
    ensures FitsStamp("2023-06-15_14-22", DashStamp)
  {
  }
}
