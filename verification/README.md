# Sunrise festival submission filenames, in Dafny

The Text2Speech helper module carries one piece of deterministic logic: `parse`.
It checks a submitted recording's filename against a table of four filename
formats, named `kristina`, `N6GN`, `W2NAF` and `jj1bdx`. It returns the named
fields of the match (callsign, station, band, timestamp and type) only when
exactly one format matched. Otherwise it raises an error whose message is
"more than one match". The module also has `getAvailableWords`, which lists
the words of a voice library: each `.wav` recording's name without its
extension.

The project models both pieces:

- `regex_pieces.dfy` (`RegexPieces`) writes out the parts of Python's `re`
  engine the four expressions use, as functions over positions in the
  filename:
  - a greedy character-class run (`RunEnd`);
  - a `[class]+_` field (`FieldEnd`);
  - the backtracking of N6GN's `[0-9]+` band against the `.wav` that follows
    it (`BackOff`, `DigitsThenWav`);
  - the unescaped `.` of `.wav`, which matches any character except a
    newline.
- `grammars.dfy` (`Grammars`) gives each format two readings:
  - a matcher that walks the filename the way `re.match` does (`KristinaEnds`,
    `MatchKristina`, …);
  - a declarative shape, the language the expression describes
    (`KristinaShape`, …).

  The Sound and Complete lemmas prove that the two readings agree. A grammar
  matches exactly the filenames of its shape, and it reports that shape's
  fields as its groups.
- `overlap.dfy` (`Overlap`) proves that no filename matches two of the four
  formats.
- `submissions.dfy` (`Submissions`) holds:
  - the format table, as the sequence of its four grammars in the order
    `parse` tries them; each row's name, human-readable layout and expression
    text are kept as documentation (`Name`, `Human`, `Pattern`);
  - `Parse`, the counting loop of `parse`, as a method;
  - the properties of what it returns.
- `examples.dfy` (`Examples`) works through six names:
  - the N6GN name `N6XYZ_20230615T142233_iq_40.wav`;
  - an N6GN name whose band must give a digit back to `.wav`;
  - one well-formed name each for kristina, W2NAF and jj1bdx;
  - a name no format accepts.
- `voice_library.dfy` (`VoiceLibrary`) models the loop of `getAvailableWords`
  over a listing given as a sequence of names. It includes
  `os.path.splitext`'s rule for names made of leading dots.
- `wrappers.dfy` (`Wrappers`) defines `Option` and `Result`.

Because no filename matches two formats, the "more than one match" error in
`parse` is raised only when no format matches at all
(`Submissions.ParseSucceedsIff`, `Submissions.AtMostOneFormat`). The message is
misleading, but the behaviour is what the code does, and the model keeps the
message as written.

`parse` uses `re.match`, which anchors the expression at the start of the
filename only. A filename that matches keeps matching, with the same fields,
whatever follows its `wav` (`Submissions.MatchIgnoresTrailing`). The code
behaves this way, and the model follows the code rather than a reading of the
formats as whole-name patterns.

## Model

| member | source | states |
|---|---|---|
| RegexPieces.RunEnd | Text2Speech_module.py:177 | A greedy `[class]` repeat stops at the first character outside the class: everything before it is in the class. |
| RegexPieces.FieldEnd | Text2Speech_module.py:177 | `[class]+_` either fails or ends at an underscore that closes a non-empty run of the class. |
| RegexPieces.FieldEndAt | Text2Speech_module.py:177 | Any non-empty run of the class closed by an underscore is the field `re` finds, so `[^_]+_` has only one way to match. |
| RegexPieces.WavAt | Text2Speech_module.py:177-192 | The `.wav` that closes every expression: any character but a newline (the unescaped `.`), then `wav`. |
| RegexPieces.BackOff | Text2Speech_module.py:182 | Giving back digits one at a time stops at the longest run end followed by `.wav`; when it fails, no run end is followed by `.wav`. |
| RegexPieces.DigitsThenWav | Text2Speech_module.py:182 | The N6GN band is a non-empty digit run followed by `.wav`, and no longer digit run is. |
| RegexPieces.WavEndUnique | Text2Speech_module.py:182 | Inside a run of digits at most one position is followed by `.wav`. |
| RegexPieces.DigitsThenWavAt | Text2Speech_module.py:182 | Any digit run followed by `.wav` is the band the backtracking finds. |
| Grammars.KristinaEnds | Text2Speech_module.py:177 | When the kristina walk succeeds, it has found three non-empty `[^_]` fields, a `DDDD-DD-DD_DD-DD` timestamp, `am` or `iq`, and `.wav`. |
| Grammars.MatchKristina | Text2Speech_module.py:177 | `re.match` of the kristina expression as `groupdict()` reports it: a match has exactly the keys callsign, station, band, timestamp and type, a `DDDD-DD-DD_DD-DD` timestamp and type `am` or `iq`. It is `Some` of the five fields exactly when the filename has the kristina shape (KristinaSound, KristinaComplete). |
| Grammars.KristinaSound | Text2Speech_module.py:177 | A kristina match reports five groups, and the filename has the kristina shape with those groups as its fields. |
| Grammars.KristinaComplete | Text2Speech_module.py:177 | Every filename with the kristina shape matches, and reports exactly the shape's fields. |
| Grammars.N6GNEnds | Text2Speech_module.py:182 | When the N6GN walk succeeds, it has found a `[^_\n]` callsign, a `DDDDDDDDTDDDDDD` timestamp, the type, a digit band and `.wav`. |
| Grammars.MatchN6GN | Text2Speech_module.py:182 | `re.match` of the N6GN expression: a match has exactly the keys callsign, timestamp, type and band, a `DDDDDDDDTDDDDDD` timestamp and type `am` or `iq`. It is `Some` of the four fields exactly when the filename has the N6GN shape (N6GNSound, N6GNComplete). |
| Grammars.N6GNSound | Text2Speech_module.py:182 | An N6GN match reports four groups, and the filename has the N6GN shape with those fields. |
| Grammars.N6GNComplete | Text2Speech_module.py:182 | Every filename with the N6GN shape matches, with exactly its fields; the band is the one the backtracking settles on. |
| Grammars.W2NAFEnds | Text2Speech_module.py:187 | When the W2NAF walk succeeds, it has found a `[^_\n]` callsign, a `DDDD-DD-DDTDD_DD_DDZ` timestamp, a digits-and-dots band, the type and `.wav`. |
| Grammars.MatchW2NAF | Text2Speech_module.py:187 | `re.match` of the W2NAF expression: a match has exactly the keys callsign, timestamp, band and type, a `DDDD-DD-DDTDD_DD_DDZ` timestamp and type `am` or `iq`. It is `Some` of the four fields exactly when the filename has the W2NAF shape (W2NAFSound, W2NAFComplete). |
| Grammars.W2NAFSound | Text2Speech_module.py:187 | A W2NAF match reports four groups, and the filename has the W2NAF shape with those fields. |
| Grammars.W2NAFComplete | Text2Speech_module.py:187 | Every filename with the W2NAF shape matches, with exactly its fields. |
| Grammars.Jj1bdxEnds | Text2Speech_module.py:192 | When the jj1bdx walk succeeds, it has found three `[^_]` fields, a `DDDD-DD-DD_DD-DD` timestamp and `.wav`. |
| Grammars.MatchJj1bdx | Text2Speech_module.py:192 | `re.match` of the jj1bdx expression: a match has exactly the keys callsign, station, band and timestamp, and a `DDDD-DD-DD_DD-DD` timestamp. It is `Some` of the four fields exactly when the filename has the jj1bdx shape (Jj1bdxSound, Jj1bdxComplete). |
| Grammars.Jj1bdxSound | Text2Speech_module.py:192 | A jj1bdx match reports four groups, and the filename has the jj1bdx shape with those fields. |
| Grammars.Jj1bdxComplete | Text2Speech_module.py:192 | Every filename with the jj1bdx shape matches, with exactly its fields. |
| Overlap.N6GNNotKristina | Text2Speech_module.py:177-182 | No filename matches both N6GN and kristina. |
| Overlap.N6GNNotW2NAF | Text2Speech_module.py:182-187 | No filename matches both N6GN and W2NAF. |
| Overlap.N6GNNotJj1bdx | Text2Speech_module.py:182-192 | No filename matches both N6GN and jj1bdx. |
| Overlap.W2NAFNotKristina | Text2Speech_module.py:177-187 | No filename matches both W2NAF and kristina. |
| Overlap.W2NAFNotJj1bdx | Text2Speech_module.py:187-192 | No filename matches both W2NAF and jj1bdx. |
| Overlap.KristinaNotJj1bdx | Text2Speech_module.py:177-192 | No filename matches both kristina and jj1bdx. |
| Submissions.Formats | Text2Speech_module.py:173-194 | The table `parse` walks: kristina, N6GN, W2NAF, jj1bdx, in that order. |
| Submissions.Match | Text2Speech_module.py:201 | `re.match(fmt['re'], filename).groupdict()` for one row: a match reports exactly the named groups of that row's expression, a station only for kristina and jj1bdx and a type for all but jj1bdx. |
| Submissions.MatchCount | Text2Speech_module.py:198-205 | The number of matching formats is at most the number of formats, and it is zero exactly when no format matches. |
| Submissions.Parse | Text2Speech_module.py:196-211 | `parse` succeeds if and only if exactly one format matches. On success it returns the groups of a matching format. Otherwise it fails with "more than one match". |
| Submissions.CountFormats | Text2Speech_module.py:173-194 | The count over the table is the number of the four grammars that match. |
| Submissions.AtMostOneFormat | Text2Speech_module.py:173-205 | At most one format of the table matches any filename. |
| Submissions.ParseSucceedsIff | Text2Speech_module.py:198-209 | Exactly one format matches if and only if some grammar matches, so the error is raised only for filenames no format accepts. |
| Submissions.ParseResultIsTheMatch | Text2Speech_module.py:203-211 | The groups `parse` returns are those of whichever grammar matches the filename. |
| Submissions.ReportedValuesFit | Text2Speech_module.py:177-192 | Each value has the form its group demands. The type is `am` or `iq`, and the timestamp has its grammar's fixed layout. Callsign, station and band are non-empty and have no `_`. N6GN and W2NAF callsigns have no newline. The N6GN band is digits only; the W2NAF band is digits and dots. |
| Submissions.MatchIgnoresTrailing | Text2Speech_module.py:201 | Appending anything to a matching filename leaves the match and its groups unchanged, because `re.match` anchors only at the start. |
| Submissions.ParseIgnoresTrailing | Text2Speech_module.py:196-211 | A filename `parse` accepts stays accepted, with the same fields, whatever is appended to it. |
| Examples.N6GNNameFields | Text2Speech_module.py:182 | `N6XYZ_20230615T142233_iq_40.wav` matches N6GN with callsign `N6XYZ`, timestamp `20230615T142233`, type `iq` and band `40`, and matches no other format. |
| Examples.ParseN6GNName | Text2Speech_module.py:196-211 | `parse` returns exactly those four fields for that name. |
| Examples.BacktrackNameBand | Text2Speech_module.py:182 | In `N6XYZ_20230615T142233_iq_405wav` the band is `40`: the greedy `[0-9]+` gives back the `5`, which the `.` then matches. |
| Examples.KristinaNameFields | Text2Speech_module.py:177 | `K1ABC_KPH_40m_2023-06-15_14-22_am.wav` matches kristina with callsign `K1ABC`, station `KPH`, band `40m`, timestamp `2023-06-15_14-22` and type `am`, and matches no other format. |
| Examples.W2NAFNameFields | Text2Speech_module.py:187 | `W2NAF_2023-06-15T14_22_33Z_7.850_iq.wav` matches W2NAF with callsign `W2NAF`, timestamp `2023-06-15T14_22_33Z`, band `7.850` and type `iq`, and matches no other format. |
| Examples.Jj1bdxNameFields | Text2Speech_module.py:192 | `JJ1BDX_TOKYO_20m_2023-06-15_14-22.wav` matches jj1bdx with callsign `JJ1BDX`, station `TOKYO`, band `20m` and timestamp `2023-06-15_14-22`, and matches no other format. |
| Examples.PlainNameMatchesNothing | Text2Speech_module.py:173-194 | `sunrise.wav` matches none of the four formats. |
| Examples.ParsePlainName | Text2Speech_module.py:208-209 | `parse` rejects `sunrise.wav` with the message "more than one match". |
| VoiceLibrary.EndsWithWav | Text2Speech_module.py:21 | `name.endswith(".wav")`: the last four characters are `.wav`. |
| VoiceLibrary.RFind | Text2Speech_module.py:22 | The index of the last occurrence of the character, or -1 when it does not occur. |
| VoiceLibrary.SplitExtRoot | Text2Speech_module.py:22 | `os.path.splitext(name)[0]` on a POSIX path: the root is a prefix of the name, and when it is shorter, what it drops is a `.` followed by characters that are neither `.` nor `/`. |
| VoiceLibrary.Words | Text2Speech_module.py:18-23 | The words listed for a listing, one per `.wav` name in listing order; there are never more words than names. |
| VoiceLibrary.AvailableWords | Text2Speech_module.py:18-23 | The loop returns `Words(listing)`: each `.wav` name's `splitext` root, in listing order. |
| VoiceLibrary.WavRootDropsExtension | Text2Speech_module.py:21-22 | A `.wav` name with something other than dots before the extension is listed as the name minus its `.wav`. |
| VoiceLibrary.DotsOnlyRootKeepsName | Text2Speech_module.py:21-22 | A `.wav` name that is only dots before the extension, such as `.wav`, is listed whole. |
| VoiceLibrary.WordsAppend | Text2Speech_module.py:19-23 | The words of a concatenated listing are the words of each part, in order. |
| VoiceLibrary.InWords | Text2Speech_module.py:19-23 | A word is listed if and only if some `.wav` name in the listing has it as its root. |
| VoiceLibrary.WordsCount | Text2Speech_module.py:19-23 | There are never more words than names, and there are as many exactly when every name ends in `.wav`. |

## Left out

- Recording, playback and file writing, through sounddevice, soundfile, scipy and IPython: hardware and file I/O.
- Signal processing (normalising, DC offset, extraction, cross-correlation, timing search) and all plotting: floating-point array arithmetic and calls into numpy, scipy, matplotlib and plotly.
- The `os.listdir` call in `getAvailableWords`: the listing is a parameter, and its order is whatever the operating system returns.
- The diagnostic `print` inside `parse`: it has no effect on the result.
- `\d`: Python matches any Unicode decimal digit for `\d` in a `str` pattern. The model reads `\d` as the ASCII digits `0`-`9`, so filenames with other decimal digits in a timestamp or a W2NAF band are rejected where Python would accept them.
- The order of the keys in the dictionary `groupdict()` returns: groups are modelled as a map from group to text.
- Raising an exception: `parse`'s exception is modelled as a `Failure` result carrying its message.
- The `name`, `human` and `re` entries of the table are kept as documentation (`Submissions.Name`, `Submissions.Human`, `Submissions.Pattern`), but the model does not compile the expression texts: the four matchers and the shapes they are proved against were written from them by hand, and nothing in the model ties a text to its matcher.
- `os.path.splitext` is modelled for POSIX paths (separator `/`, no alternative separator), as `getAvailableWords` uses it on directory entries.
- VoiceLibrary.WavRootDropsExtension: stated only for names without `/`, which a directory listing never returns.
