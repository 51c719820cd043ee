/**
 * `getAvailableWords`: the words of a voice library are the names of its
 * `.wav` recordings without their extension. The directory listing is an
 * input sequence of names, in the order the listing returns them.
 */
module VoiceLibrary {

  /** `name.endswith(".wav")`. */
  predicate EndsWithWav(name: string) {
    |name| >= 4 && name[|name| - 4..] == ".wav"
  }

  /** `p.rfind(c)`: the index of the last `c` in `p`, or -1 when there is none. */
  function RFind(p: string, c: char): (i: int)
    ensures -1 <= i < |p|
    ensures i >= 0 ==> p[i] == c
    ensures forall j :: i < j < |p| ==> p[j] != c
  {
    if p == [] then -1
    else if p[|p| - 1] == c then |p| - 1
    else RFind(p[..|p| - 1], c)
  }

  /**
   * `os.path.splitext(p)[0]` on a POSIX path: cut at the last `.` after the
   * last `/`, unless everything between that `/` and the dot is dots (a name
   * such as `.wav` or `..wav` has no extension and keeps its whole text).
   */
  function SplitExtRoot(p: string): (root: string)
    ensures root <= p
    ensures root != p ==> p[|root|] == '.' && forall j :: |root| < j < |p| ==> p[j] != '.' && p[j] != '/'
  {
    var sep := RFind(p, '/');
    var dot := RFind(p, '.');
    if dot > sep && exists k :: sep + 1 <= k < dot && p[k] != '.' then p[..dot] else p
  }

  /** The words `getAvailableWords` lists for `listing`: each `.wav` name, extension removed, in listing order. */
  function Words(listing: seq<string>): (words: seq<string>)
    ensures |words| <= |listing|
  {
    if listing == [] then []
    else
      var file := listing[|listing| - 1];
      Words(listing[..|listing| - 1]) + (if EndsWithWav(file) then [SplitExtRoot(file)] else [])
  }

  /** The loop of `getAvailableWords` over an already-read listing. */
  method AvailableWords(listing: seq<string>) returns (availableWords: seq<string>)
    ensures availableWords == Words(listing)
  {
    availableWords := [];
    for i := 0 to |listing|
      invariant availableWords == Words(listing[..i])
    {
      assert listing[..i + 1][..i] == listing[..i];
      var file := listing[i];
      if EndsWithWav(file) {
        availableWords := availableWords + [SplitExtRoot(file)];
      }
    }
    assert listing[..|listing|] == listing;
  }

  /** A `.wav` name with something other than dots before the extension loses exactly its `.wav`. */
  lemma WavRootDropsExtension(name: string)
    requires EndsWithWav(name) && exists k :: 0 <= k < |name| - 4 && name[k] != '.'
    requires forall k :: 0 <= k < |name| ==> name[k] != '/'
    ensures SplitExtRoot(name) + ".wav" == name
  {
    var dot := |name| - 4;
    assert name[dot..] == ".wav";
    assert name[dot] == '.' && name[dot + 1] == 'w' && name[dot + 2] == 'a' && name[dot + 3] == 'v';
    assert RFind(name, '.') == dot;
    assert RFind(name, '/') == -1;
    var k :| 0 <= k < |name| - 4 && name[k] != '.';
    assert SplitExtRoot(name) == name[..dot];
    assert name[..dot] + name[dot..] == name;
  }

  /** A `.wav` name that is only dots before the extension, such as `.wav`, is listed whole. */
  lemma DotsOnlyRootKeepsName(name: string)
    requires EndsWithWav(name) && forall k :: 0 <= k < |name| - 4 ==> name[k] == '.'
    ensures SplitExtRoot(name) == name
  {
    var dot := |name| - 4;
    assert name[dot..] == ".wav";
    assert name[dot] == '.' && name[dot + 1] == 'w' && name[dot + 2] == 'a' && name[dot + 3] == 'v';
    assert RFind(name, '.') == dot;
  }

  /** Listing more names appends their words: order is that of the listing. */
  lemma {:induction false} WordsAppend(a: seq<string>, b: seq<string>)
    ensures Words(a + b) == Words(a) + Words(b)
    decreases |b|
  {
    if b == [] {
      assert a + b == a;
    } else {
      var b' := b[..|b| - 1];
      assert (a + b)[..|a + b| - 1] == a + b';
      WordsAppend(a, b');
    }
  }

  /** `file` is a `.wav` name whose root is `w`. */
  predicate NamesWord(file: string, w: string) {
    EndsWithWav(file) && SplitExtRoot(file) == w
  }

  /** A word is listed exactly when some `.wav` name of the listing has it as its root. */
  lemma {:induction false} InWords(listing: seq<string>, w: string)
    ensures w in Words(listing) <==> exists i :: 0 <= i < |listing| && NamesWord(listing[i], w)
  {
    if listing != [] {
      var init, file := listing[..|listing| - 1], listing[|listing| - 1];
      InWords(init, w);
      assert Words(listing) == Words(init) + (if EndsWithWav(file) then [SplitExtRoot(file)] else []);
      assert forall i :: 0 <= i < |init| ==> init[i] == listing[i];
      if w in Words(listing) && w !in Words(init) {
        assert NamesWord(listing[|listing| - 1], w);
      }
    }
  }

  /** One word per `.wav` name, never more words than names. */
  lemma {:induction false} WordsCount(listing: seq<string>)
    ensures |Words(listing)| <= |listing|
    ensures |Words(listing)| == |listing| <==> forall i :: 0 <= i < |listing| ==> EndsWithWav(listing[i])
  {
    if listing != [] {
      var init := listing[..|listing| - 1];
      WordsCount(init);
      if forall i :: 0 <= i < |listing| ==> EndsWithWav(listing[i]) {
        assert forall i :: 0 <= i < |init| ==> EndsWithWav(init[i]) by {
          forall i | 0 <= i < |init| ensures EndsWithWav(init[i]) {
            assert init[i] == listing[i];
          }
        }
      }
      if |Words(listing)| == |listing| {
        forall i | 0 <= i < |listing|
          ensures EndsWithWav(listing[i])
        {
          if i < |init| {
            assert init[i] == listing[i];
          }
        }
      }
    }
  }
}
