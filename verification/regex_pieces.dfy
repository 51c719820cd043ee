/**
 * The pieces of Python's `re` engine that the four submission grammars use,
 * written out as functions over absolute positions in the filename.
 * A piece starting at index `i` either fails (`None`) or says where it ends.
 */
module RegexPieces {
  import opened Wrappers

  /** The bracketed character classes of the grammars. */
  datatype CharClass =
    | NotUnderscore           // [^_]    (a newline is allowed)
    | NotUnderscoreOrNewline  // [^_\n]
    | Digit                   // [0-9], and \d read as ASCII digits
    | DigitOrDot              // [\d.]

  predicate IsDigit(c: char) { '0' <= c <= '9' }

  predicate InClass(c: char, k: CharClass) {
    match k
    case NotUnderscore => c != '_'
    case NotUnderscoreOrNewline => c != '_' && c != '\n'
    case Digit => IsDigit(c)
    case DigitOrDot => IsDigit(c) || c == '.'
  }

  /** `f` is a string `[class]+` can match: non-empty, every character in the class. */
  predicate IsRun(f: string, k: CharClass) {
    |f| > 0 && forall i :: 0 <= i < |f| ==> InClass(f[i], k)
  }

  /** How far a greedy `[class]*` that starts at index `i` reaches: the end of the longest run of class characters. */
  function RunEnd(s: string, i: nat, k: CharClass): (j: nat)
    requires i <= |s|
    ensures i <= j <= |s|
    ensures forall m :: i <= m < j ==> InClass(s[m], k)
    ensures j == |s| || !InClass(s[j], k)
    decreases |s| - i
  {
    if i == |s| || !InClass(s[i], k) then i else RunEnd(s, i + 1, k)
  }

  /**
   * `[class]+_` at index `i`, as a group followed by the literal underscore.
   * No class contains `_`, so giving back characters of the run can never put
   * an underscore after it: the greedy run is the only candidate, and the
   * result is the index of the underscore that closes the field.
   */
  function FieldEnd(s: string, i: nat, k: CharClass): (r: Option<nat>)
    requires i <= |s|
    ensures r.Some? ==> i < r.value < |s| && IsRun(s[i..r.value], k) && s[r.value] == '_'
  {
    var j := RunEnd(s, i, k);
    if i < j < |s| && s[j] == '_' then Some(j) else None
  }

  /** Any field that is a run of its class closed by an underscore is the one `FieldEnd` finds. */
  lemma FieldEndAt(s: string, i: nat, k: CharClass, e: nat)
    requires i < e < |s| && IsRun(s[i..e], k) && s[e] == '_'
    ensures FieldEnd(s, i, k) == Some(e)
  {
    forall m | i <= m < e
      ensures InClass(s[m], k)
    {
      assert s[i..e][m - i] == s[m];
    }
  }

  /**
   * A fixed-width timestamp pattern such as `\d{4}-\d{2}-\d{2}`, spelled with
   * 'D' for each `\d` and every other character standing for itself.
   */
  predicate FitsStamp(t: string, shape: string) {
    |t| == |shape| &&
    forall i :: 0 <= i < |t| ==> if shape[i] == 'D' then IsDigit(t[i]) else t[i] == shape[i]
  }

  predicate StampAt(s: string, i: nat, shape: string) {
    i + |shape| <= |s| && FitsStamp(s[i..i + |shape|], shape)
  }

  /** `(?P<type>am|iq)`: the two alternatives are the only values of the type field. */
  predicate IsKind(k: string) { k == "am" || k == "iq" }

  predicate KindAt(s: string, i: nat) {
    i + 2 <= |s| && IsKind(s[i..i + 2])
  }

  /** The unescaped `.wav`: one character other than a newline, then `wav`. */
  predicate WavAt(s: string, i: nat) {
    i + 4 <= |s| && s[i] != '\n' && s[i + 1..i + 4] == "wav"
  }

  /**
   * Backtracking of a greedy `[0-9]+` against the `.wav` after it: try the run
   * ending at `j`, then give back one digit at a time until `.wav` matches
   * or the run would be empty.
   */
  function BackOff(s: string, i: nat, j: nat): (r: Option<nat>)
    requires i <= j <= |s|
    ensures r.Some? ==> i < r.value <= j && WavAt(s, r.value)
    ensures r.Some? ==> forall m :: r.value < m <= j ==> !WavAt(s, m)
    ensures r.None? ==> forall m :: i < m <= j ==> !WavAt(s, m)
    decreases j
  {
    if j == i then None
    else if WavAt(s, j) then Some(j)
    else BackOff(s, i, j - 1)
  }

  /**
   * `(?P<band>[0-9]+).wav` at index `i`: the end of the longest run of digits
   * after which `.wav` still matches, as the backtracking engine reports it.
   */
  function DigitsThenWav(s: string, i: nat): (r: Option<nat>)
    requires i <= |s|
    ensures r.Some? ==> i < r.value <= |s| && IsRun(s[i..r.value], Digit) && WavAt(s, r.value)
    ensures r.Some? ==> forall m :: r.value < m <= RunEnd(s, i, Digit) ==> !WavAt(s, m)
    ensures r.None? ==> forall m :: i < m <= RunEnd(s, i, Digit) ==> !WavAt(s, m)
  {
    BackOff(s, i, RunEnd(s, i, Digit))
  }

  /**
   * Inside a run of digits at most one position can be followed by `.wav`:
   * the `w` after the first such position ends the run, and the position
   * after it is followed by `av`, not `wav`.
   */
  lemma WavEndUnique(s: string, i: nat, m1: nat)
    requires i < m1 <= |s| && m1 <= RunEnd(s, i, Digit) && WavAt(s, m1)
    ensures forall m2 :: m1 < m2 <= RunEnd(s, i, Digit) ==> !WavAt(s, m2)
  {
    assert s[m1 + 1] == s[m1 + 1..m1 + 4][0];
    assert s[m1 + 2] == s[m1 + 1..m1 + 4][1];
    if m1 + 5 <= |s| {
      assert s[m1 + 2..m1 + 5][0] == s[m1 + 2];
    }
  }

  /** Any digit string followed by `.wav` is the band the backtracking finds. */
  lemma DigitsThenWavAt(s: string, i: nat, e: nat)
    requires i < e <= |s| && IsRun(s[i..e], Digit) && WavAt(s, e)
    ensures DigitsThenWav(s, i) == Some(e)
  {
    forall m | i <= m < e
      ensures IsDigit(s[m])
    {
      assert s[i..e][m - i] == s[m];
    }
    WavEndUnique(s, i, e);
  }

  /** `s[i..j]`, the literal underscore at `j`, and `s[j + 1..k]` spell `s[i..k]`. */
  lemma Glue(s: string, i: nat, j: nat, k: nat)
    requires i <= j < k <= |s| && s[j] == '_'
    ensures s[i..j] + "_" + s[j + 1..k] == s[i..k]
  {
    assert s[i..k] == s[i..j] + [s[j]] + s[j + 1..k];
  }

  /** `s` begins with `head`, then one character other than a newline, then `wav`; anything may follow. */
  predicate LeadsToWav(s: string, head: string) {
    |head| <= |s| && s[..|head|] == head && WavAt(s, |head|)
  }

  /** Reading a prefix `a _ b` of `s` back: `a` is a prefix, an underscore follows it, then `b`. */
  lemma Unglue(s: string, a: string, b: string)
    requires |a + "_" + b| <= |s| && s[..|a + "_" + b|] == a + "_" + b
    ensures |a| + 1 + |b| <= |s| && s[..|a|] == a && s[|a|] == '_' && s[|a| + 1..|a| + 1 + |b|] == b
  {
    var h := a + "_" + b;
    assert s[|a|] == h[|a|];
    assert s[..|a|] == h[..|a|];
    assert s[|a| + 1..|a| + 1 + |b|] == h[|a| + 1..];
  }

  /** The characters a stamp pattern fixes, read off the filename one position at a time. */
  lemma StampChars(s: string, t: nat, shape: string)
    requires StampAt(s, t, shape)
    ensures forall j :: 0 <= j < |shape| ==> if shape[j] == 'D' then IsDigit(s[t + j]) else s[t + j] == shape[j]
  {
    forall j | 0 <= j < |shape|
      ensures if shape[j] == 'D' then IsDigit(s[t + j]) else s[t + j] == shape[j]
    {
      assert s[t..t + |shape|][j] == s[t + j];
    }
  }

  /** Characters appended after a matching prefix change nothing about it. */
  lemma Extend(s: string, t: string, head: string)
    requires LeadsToWav(s, head)
    ensures LeadsToWav(s + t, head)
  {
    var n := |head|;
    assert (s + t)[..n] == s[..n];
    assert (s + t)[n] == s[n];
    assert (s + t)[n + 1..n + 4] == s[n + 1..n + 4];
  }
}
