/**
 * No filename matches two of the four submission grammars. Each proof lays
 * one grammar's field ends over the other grammar's walk: the `[^_]+` fields
 * stop at the same underscores, and then a fixed character of one expression
 * (a `-` or `Z` of a timestamp, the `w` of `wav`, the letters of the type)
 * lands where the other expression needs something else.
 */
module Overlap {
  import opened Wrappers
  import opened RegexPieces
  import opened Grammars

  /** A run of `[^_\n]` is also a run of `[^_]`. */
  lemma NarrowRunIsRun(f: string)
    requires IsRun(f, NotUnderscoreOrNewline)
    ensures IsRun(f, NotUnderscore)
  {
    forall m | 0 <= m < |f|
      ensures InClass(f[m], NotUnderscore)
    {
      assert InClass(f[m], NotUnderscoreOrNewline);
    }
  }

  /** The part `shape[a..b]` of a stamp, when it holds no underscore, is a run of `[^_]` in the filename. */
  lemma StampRun(s: string, t: nat, shape: string, a: nat, b: nat)
    requires StampAt(s, t, shape) && a < b <= |shape|
    requires forall j :: a <= j < b ==> shape[j] != '_'
    ensures IsRun(s[t + a..t + b], NotUnderscore)
  {
    forall m | t + a <= m < t + b
      ensures InClass(s[m], NotUnderscore)
    {
      assert s[m] == s[t..t + |shape|][m - t];
    }
  }

  /** The underscores a `[^_]+_` walk stops at in an N6GN filename. */
  lemma N6GNUnderscores(s: string, e1: nat, e: nat)
    requires N6GNCuts(s, e1, e)
    ensures FieldEnd(s, 0, NotUnderscore) == Some(e1)
    ensures FieldEnd(s, e1 + 1, NotUnderscore) == Some(e1 + 16)
    ensures FieldEnd(s, e1 + 17, NotUnderscore) == Some(e1 + 19)
  {
    NarrowRunIsRun(s[..e1]);
    assert s[0..e1] == s[..e1];
    FieldEndAt(s, 0, NotUnderscore, e1);
    StampRun(s, e1 + 1, CompactStamp, 0, 15);
    FieldEndAt(s, e1 + 1, NotUnderscore, e1 + 16);
    assert s[e1 + 17..e1 + 19][0] == s[e1 + 17] && s[e1 + 17..e1 + 19][1] == s[e1 + 18];
    FieldEndAt(s, e1 + 17, NotUnderscore, e1 + 19);
  }

  /** After an N6GN type field the digits of the band and the `wav` cannot spell `\d{4}-\d{2}`. */
  lemma N6GNBandBreaksDashStamp(s: string, e1: nat, e: nat)
    requires N6GNCuts(s, e1, e)
    ensures !StampAt(s, e1 + 20, DashStamp)
  {
    if e1 + 36 <= |s| {
      var u := e1 + 20;
      assert s[u..u + 16][2] == s[u + 2] && s[u..u + 16][3] == s[u + 3];
      assert s[u..u + 16][4] == s[u + 4] && s[u..u + 16][5] == s[u + 5];
      if e > u + 4 {
        assert s[u..e][4] == s[u + 4];
      } else {
        assert s[e + 1..e + 4][0] == s[e + 1];
      }
    }
  }

  /** An N6GN filename is not a kristina filename. */
  lemma N6GNNotKristina(s: string)
    requires MatchN6GN(s).Some?
    ensures MatchKristina(s).None?
  {
    var (e1, e) := N6GNEnds(s).value;
    N6GNUnderscores(s, e1, e);
    N6GNBandBreaksDashStamp(s, e1, e);
  }

  /** An N6GN filename is not a jj1bdx filename. */
  lemma N6GNNotJj1bdx(s: string)
    requires MatchN6GN(s).Some?
    ensures MatchJj1bdx(s).None?
  {
    var (e1, e) := N6GNEnds(s).value;
    N6GNUnderscores(s, e1, e);
    N6GNBandBreaksDashStamp(s, e1, e);
  }

  /** An N6GN filename is not a W2NAF filename: the fifth stamp character is a digit, not `-`. */
  lemma N6GNNotW2NAF(s: string)
    requires MatchN6GN(s).Some?
    ensures MatchW2NAF(s).None?
  {
    var (e1, e) := N6GNEnds(s).value;
    var u := e1 + 1;
    assert s[u..u + 15][4] == s[u + 4];
    if u + 20 <= |s| {
      assert s[u..u + 20][4] == s[u + 4];
    }
  }

  /** The underscores a `[^_]+_` walk stops at in a W2NAF filename: two of them are inside its timestamp. */
  lemma W2NAFUnderscores(s: string, e1: nat, e: nat)
    requires W2NAFCuts(s, e1, e)
    ensures FieldEnd(s, 0, NotUnderscore) == Some(e1)
    ensures FieldEnd(s, e1 + 1, NotUnderscore) == Some(e1 + 14)
    ensures FieldEnd(s, e1 + 15, NotUnderscore) == Some(e1 + 17)
  {
    NarrowRunIsRun(s[..e1]);
    assert s[0..e1] == s[..e1];
    FieldEndAt(s, 0, NotUnderscore, e1);
    StampChars(s, e1 + 1, IsoStamp);
    StampRun(s, e1 + 1, IsoStamp, 0, 13);
    FieldEndAt(s, e1 + 1, NotUnderscore, e1 + 14);
    StampRun(s, e1 + 1, IsoStamp, 14, 16);
    FieldEndAt(s, e1 + 15, NotUnderscore, e1 + 17);
  }

  /** The `Z` that closes a W2NAF timestamp sits where `\d{4}` would need a digit. */
  lemma W2NAFZoneBreaksDashStamp(s: string, e1: nat, e: nat)
    requires W2NAFCuts(s, e1, e)
    ensures !StampAt(s, e1 + 18, DashStamp)
  {
    StampChars(s, e1 + 1, IsoStamp);
    if e1 + 34 <= |s| {
      assert s[e1 + 18..e1 + 34][2] == s[e1 + 20];
    }
  }

  /** A W2NAF filename is not a kristina filename. */
  lemma W2NAFNotKristina(s: string)
    requires MatchW2NAF(s).Some?
    ensures MatchKristina(s).None?
  {
    var (e1, e) := W2NAFEnds(s).value;
    W2NAFUnderscores(s, e1, e);
    W2NAFZoneBreaksDashStamp(s, e1, e);
  }

  /** A W2NAF filename is not a jj1bdx filename. */
  lemma W2NAFNotJj1bdx(s: string)
    requires MatchW2NAF(s).Some?
    ensures MatchJj1bdx(s).None?
  {
    var (e1, e) := W2NAFEnds(s).value;
    W2NAFUnderscores(s, e1, e);
    W2NAFZoneBreaksDashStamp(s, e1, e);
  }

  /**
   * A kristina filename is not a jj1bdx filename: both walks find the same three
   * fields and the same timestamp, and then jj1bdx needs the `w` of `wav` where
   * kristina has the first letter of `am` or `iq`.
   */
  lemma KristinaNotJj1bdx(s: string)
    requires MatchKristina(s).Some?
    ensures MatchJj1bdx(s).None?
  {
    var (e1, e2, e3) := KristinaEnds(s).value;
    var k := e3 + 18;
    assert s[k..k + 2][0] == s[k];
    if k + 3 <= |s| {
      assert s[k..k + 3][0] == s[k];
    }
  }
}
