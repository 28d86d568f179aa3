# Fcitx5 pinyin user-dictionary cleaner, modelled in Dafny

`scripts/clean_user_dict.py` reads a Fcitx5 pinyin user dictionary and the
input method's usage history. It sorts every dictionary entry
`(word, pinyin, freq)` into one of four buckets:

- **pinyin mismatch**: the recorded pinyin disagrees with the canonical one;
- **never used**: the word never occurs in the history;
- **low frequency**: the word occurs fewer than `--min-freq` times;
- **keep**: everything else.

The pinyin check compares the recorded pinyin, exactly as stored and not
tone-stripped, with the word's toneless canonical syllables (`Style.NORMAL`).
Tone stripping is used only to decide which characters are polyphonic. The
check skips polyphonic characters, meaning characters whose readings have
more than one toneless base syllable. It also accepts the fuzzy pairs zh/z, ch/c, sh/s,
eng/en, ing/in and ang/an.

This project models that decision logic as pure Dafny functions over
strings, sequences, sets and maps, and proves what the script promises
about it.

Modules, one per component of the script:

| file | module | component |
|---|---|---|
| `text.dfy` | `Text` | Python's `str.split(sep)`, `sep.join`, and no-argument `str.split()` |
| `tone.dfy` | `Tone` | `_TONE_MAP` and `_strip_tone` |
| `polyphonic.dfy` | `Polyphonic` | `_build_polyphonic_set`, and the `_POLYPHONIC` cache behind `_get_polyphonic` |
| `fuzzy.dfy` | `Fuzzy` | `_FUZZY_INITIALS`, `_FUZZY_FINALS` and `_fuzzy_eq` |
| `matcher.dfy` | `Matcher` | `check_pinyin` |
| `dumps.dfy` | `Dumps` | line parsing in `dump_dict` and `dump_history`, and the line format of `compile_dict` |
| `classifier.dfy` | `Classifier` | the bucket loop in `main`, and the parse, count and classify pass |

External data are parameters:

- The canonical syllables `pinyin(word, style=Style.NORMAL)` (first reading of each element) are a function `Matcher.Canon = string -> seq<string>`.
- The pronunciation table `pinyin_dict.pinyin_dict` is a `map<char, string>`. Each character maps to its comma-separated tone-marked readings. The table is keyed by code point; `chr(cp)` is a Dafny `char`.
- The history counter is a `map<string, nat>` with the `Counter` lookup rule: a missing word counts 0.

Details of the code that the model keeps exactly as written:

- The syllable-count test compares the recorded count with the number of canonical syllables, not with `len(word)`.
- The walk uses `zip`, so it stops at the shortest of the word, the canonical syllables and the recorded syllables. `Matcher.TrailingSyllableUnchecked` shows that a canonical syllable past the last character is never compared.
- `_fuzzy_eq` accepts as soon as any one rule matches. It does not check that exactly one matches.
- A toned ü (ǖ ǘ ǚ ǜ) becomes `v`, but a bare `ü` is left unchanged.
- There is no "unknown word" case and no special handling of malformed separators. A recorded pinyin is simply `split("'")`.

## Model

| member | source | states |
|---|---|---|
| Tone.StripChar | scripts/clean_user_dict.py:72-75 | a character outside the 24 tone-marked vowels is returned unchanged, and no result is ever a tone-marked vowel |
| Tone.StripCharTable | scripts/clean_user_dict.py:72-75 | the k-th tone-marked vowel translates to the k-th plain letter of the table |
| Tone.TableShape | scripts/clean_user_dict.py:72-75 | both table strings have 24 characters, no source character is listed twice, and every target is ASCII while every source is at or above U+00E0 |
| Tone.StripTone | scripts/clean_user_dict.py:78-79 | the translation preserves length, works one character at a time, leaves non-tone characters in place, and leaves no tone mark behind |
| Tone.StripToneMarked | scripts/clean_user_dict.py:78-79 | a position holding the k-th tone-marked vowel holds the k-th plain letter after stripping |
| Tone.ToneMarkedToVowel | scripts/clean_user_dict.py:73-74 | every tone-marked vowel maps to one of a, e, i, o, u, v |
| Tone.StripToneIdempotent | scripts/clean_user_dict.py:78-79 | stripping twice equals stripping once |
| Tone.LowKept | scripts/clean_user_dict.py:72-75 | every character below U+00E0 (all of ASCII) is left unchanged |
| Tone.StripSingleMark | scripts/clean_user_dict.py:78-79 | a syllable with one tone mark whose other characters are all below U+00E0 (ASCII included) loses exactly that mark |
| Tone.BareUmlautKept | scripts/clean_user_dict.py:73-74 | a bare ü is not in the table and survives stripping, so "lü" stays "lü" |
| Tone.StripToneExamples | scripts/clean_user_dict.py:78-79 | "zhōng" becomes "zhong" and "lǜ" becomes "lv" |
| Text.Split | scripts/clean_user_dict.py:137 | `str.split(sep)` gives at least one piece, and no piece contains the separator |
| Text.Join | scripts/clean_user_dict.py:132 | `"'".join(syllables)`; what it produces is fixed by `Text.SplitJoin` and `Text.JoinSplit`, so separator-free syllables can always be read back from the standard string |
| Text.JoinSplit | scripts/clean_user_dict.py:132-137 | joining the pieces of a split restores the string |
| Text.SplitJoin | scripts/clean_user_dict.py:132-137 | splitting the join of one or more separator-free syllables gives those syllables back |
| Text.Fields | scripts/clean_user_dict.py:45 | every field of `str.split()` is non-empty and contains no whitespace |
| Text.FieldsOfWord | scripts/clean_user_dict.py:45 | a single whitespace-free word splits into exactly itself |
| Text.FieldsOfJoin | scripts/clean_user_dict.py:45 | words joined by single spaces and followed by whitespace split back into those words |
| Text.FieldsAppend | scripts/clean_user_dict.py:45 | a whitespace character between two strings separates their fields |
| Polyphonic.PolyphonicIff | scripts/clean_user_dict.py:82-93 | a character is polyphonic iff it is in the table and two of its comma-split readings differ after tone stripping |
| Polyphonic.PolyphonicSet | scripts/clean_user_dict.py:88-93 | the set the accessor builds and the matcher uses holds only table characters; `PolyphonicIff` states exactly which ones, and `BuildPolyphonicSet` proves the loop computes this set |
| Polyphonic.ToneVariantsNotPolyphonic | scripts/clean_user_dict.py:85-91 | readings that differ only in tone never make a character polyphonic |
| Polyphonic.BuildPolyphonicSet | scripts/clean_user_dict.py:88-93 | the loop over the table's items collects exactly the characters whose base-syllable set has more than one element |
| Polyphonic.PolyphonicExample | scripts/clean_user_dict.py:85-91 | with 中 as "zhōng,zhòng" and 重 as "zhòng,chóng", only 重 is polyphonic |
| Polyphonic.GetPolyphonic | scripts/clean_user_dict.py:96-103 | the accessor builds the set exactly when the cache is empty, then caches it; a filled cache is returned as it is |
| Polyphonic.GetPolyphonicCoherent | scripts/clean_user_dict.py:99-103 | from an empty cache or one holding the built set, the accessor returns the built set and leaves the cache in that state |
| Polyphonic.SecondRequestReuses | scripts/clean_user_dict.py:99-103 | a second request returns the same set with the same cache, and does not build |
| Polyphonic.BuiltAtMostOnce | scripts/clean_user_dict.py:96-103 | starting from an empty cache, n requests run the builder exactly once when n > 0, and never when n = 0 |
| Polyphonic.CachedNeverBuilds | scripts/clean_user_dict.py:101 | no request against a filled cache runs the builder |
| Fuzzy.FuzzyEqIff | scripts/clean_user_dict.py:106-123 | two syllables are fuzzy-equal iff they are the two spellings of one listed initial pair followed by a common remainder, or of one listed final pair preceded by a common stem |
| Fuzzy.FuzzyEq | scripts/clean_user_dict.py:111-123 | `_fuzzy_eq`: the initial-pair loop or the final-pair loop succeeds; `FuzzyEqIff`, `FuzzyEqSymmetric` and `FuzzyEqLengths` state what this means |
| Fuzzy.AnyInitialIff | scripts/clean_user_dict.py:113-117 | the loop over the initial pairs succeeds iff some pair, in one direction or the other, spells the two syllables with the same remainder |
| Fuzzy.AnyFinalIff | scripts/clean_user_dict.py:118-122 | the loop over the final pairs succeeds iff some pair, in one direction or the other, spells the two syllables with the same stem |
| Fuzzy.InitialPairIff | scripts/clean_user_dict.py:114-117 | the two tests for one initial pair hold iff the syllables are `x + rest` and `y + rest` in some order |
| Fuzzy.FinalPairIff | scripts/clean_user_dict.py:119-122 | the two tests for one final pair hold iff the syllables are `stem + x` and `stem + y` in some order |
| Fuzzy.FuzzyEqSymmetric | scripts/clean_user_dict.py:113-122 | fuzzy equality is symmetric |
| Fuzzy.FuzzyEqLengths | scripts/clean_user_dict.py:107-108 | fuzzy-equal syllables differ in length by exactly one, so no syllable is fuzzy-equal to itself |
| Fuzzy.FuzzyEqExamples | scripts/clean_user_dict.py:106-123 | zhong/zong, jing/jin and can/cang are fuzzy-equal; zhong/zhong and zhong/chong are not |
| Matcher.Walk | scripts/clean_user_dict.py:142-151 | the walk succeeds iff every zipped position has a polyphonic character, identical syllables or fuzzy-equal syllables |
| Matcher.Check | scripts/clean_user_dict.py:126-151 | the standard is the canonical syllables joined by apostrophes; an identical recording matches; a different recording with a different syllable count fails; otherwise the result is the position-by-position test over the zipped length |
| Matcher.CheckPinyin | scripts/clean_user_dict.py:126-151 | the version that threads the cache gives the same verdict as `Check` with the built set and keeps the cache coherent; the cache is not consulted when the check ends before the walk |
| Matcher.CanonicalAccepted | scripts/clean_user_dict.py:134-135 | the canonical pinyin is accepted for every word, polyphonic or not |
| Matcher.CheckSyllables | scripts/clean_user_dict.py:137-151 | for a recording built from one separator-free syllable per canonical syllable, the verdict is exactly the positionwise test |
| Matcher.FuzzySubstitutionAccepted | scripts/clean_user_dict.py:147-148 | replacing one canonical syllable by a fuzzy-equal spelling is accepted |
| Matcher.PolyphonicPositionAccepted | scripts/clean_user_dict.py:143-144 | any reading at all is accepted at the position of a polyphonic character |
| Matcher.WrongSyllableRejected | scripts/clean_user_dict.py:142-149 | one non-identical, non-fuzzy syllable at a non-polyphonic character rejects the entry, and the standard is still the canonical join |
| Matcher.TrailingSyllableUnchecked | scripts/clean_user_dict.py:142 | `zip` stops at the word's length, so a canonical syllable past the last character is never compared |
| Matcher.SyllableCountMismatchRejected | scripts/clean_user_dict.py:137-139 | a recording with a different number of syllables from the canonical list is rejected, even when every character is polyphonic |
| Dumps.ParseDumpLine | scripts/clean_user_dict.py:45-47 | a line with fewer than two fields gives no entry; otherwise the entry is fields 0 and 1, plus field 2 or "0" when it is missing |
| Dumps.ParseDump | scripts/clean_user_dict.py:44-48 | parsing never yields more entries than there are lines |
| Dumps.ParseFormatLine | scripts/clean_user_dict.py:45-47 | a well-formed entry written as "word pinyin freq\n" (the format at line 158) parses back to the same entry |
| Dumps.ParseFormatAll | scripts/clean_user_dict.py:44-48 | a list of well-formed entries, written one per line and parsed back, is that list in order |
| Dumps.FormatLine | scripts/clean_user_dict.py:157-158 | a written line ends in a newline, and for a well-formed entry its whitespace fields are exactly word, pinyin and frequency |
| Dumps.FieldsOfFormattedLine | scripts/clean_user_dict.py:158 | the fields of "word pinyin freq\n" are the three entry fields when each is one token |
| Dumps.FormatAll | scripts/clean_user_dict.py:157-158 | one written line per entry, in order, each the entry's formatted line |
| Dumps.ExtraFieldsIgnored | scripts/clean_user_dict.py:47 | fields beyond the third do not change the parsed entry |
| Dumps.ShortLineDropped | scripts/clean_user_dict.py:46 | a line with fewer than two fields contributes no entry, and the entries around it are kept in order |
| Dumps.ParseDumpSplit | scripts/clean_user_dict.py:44-47 | lines are parsed independently: parsing a concatenation concatenates the entries |
| Dumps.CountHistory | scripts/clean_user_dict.py:62-66 | the looked-up usage of each word equals its number of occurrences among the tokens of all history lines, and only words that occur get a key |
| Dumps.Usage | scripts/clean_user_dict.py:206 | `freq[word]` on a `Counter`: the stored count for a counted word, and 0 for a word that has no key |
| Classifier.Decide | scripts/clean_user_dict.py:209-216 | exactly one bucket per entry: mismatch iff the check failed; never used iff it passed and usage is 0; low iff it passed and 0 < usage < min_freq; keep otherwise |
| Classifier.Place | scripts/clean_user_dict.py:209-216 | the report grows by one entry; exactly one of the four lists changes, and it is the list of the entry's bucket; a kept entry is appended unchanged |
| Classifier.Classify | scripts/clean_user_dict.py:205-216 | the four bucket sizes add up to the number of entries |
| Classifier.ClassifyBuckets | scripts/clean_user_dict.py:205-216 | the keep bucket is exactly the entries the rules keep, unchanged and in input order; each other bucket lists, in input order, exactly its entries with the reported fields (recorded pinyin, standard and usage for mismatches; usage for low-frequency entries) |
| Classifier.SelectPartition | scripts/clean_user_dict.py:205-216 | the four selections partition the input |
| Classifier.SelectSound | scripts/clean_user_dict.py:205-216 | every entry in a bucket is an input entry that the rules send to that bucket |
| Classifier.MismatchTakesPriority | scripts/clean_user_dict.py:209-210 | a pinyin mismatch is flagged whatever the word's usage count |
| Classifier.ClassifyAll | scripts/clean_user_dict.py:205-216 | the loop as written, threading the polyphonic cache through each `check_pinyin` call, produces the same report as `Classify` with the built set |
| Classifier.ParsedWellFormed | scripts/clean_user_dict.py:45-47 | every parsed entry has three single-token fields |
| Classifier.Clean | scripts/clean_user_dict.py:193-216 | parse, count and classify: usage is the history token count, the report classifies the parsed entries, its size is their number, and the keep bucket written back with the compiler's line format parses to exactly the kept entries |
| Classifier.UsageScenario | scripts/clean_user_dict.py:205-216 | 你好 (matching pinyin, 10 uses) is kept, and 银行 (matching pinyin, 0 uses) is never used |
| Classifier.PolyphonicScenario | scripts/clean_user_dict.py:141-149 | 重要 recorded as chong'yao against zhong'yao is never a mismatch while 重 is polyphonic, and is a mismatch when it is not |

## Left out

- Running `libime_pinyindict`, `libime_history` and `cp`, and creating and deleting temporary files. These are external tools and filesystem I/O. Dumps and history are given as lists of lines.
- `compile_dict` turning text back into the binary dictionary. It is an external tool. Only its text line format (`Dumps.FormatLine`) is modelled.
- The internals of `pypinyin`, namely canonical lookup and the reading table's contents. These are foreign library code and are parameters here.
- argparse, the printed summary, the report sort orders and the 80-item display cap. These are presentation only and do not affect classification or what `--apply` writes.
- Atomic or partial-write guarantees for `--apply`. The script does not implement them.
- `scripts/generate_hotwords.py`. It wraps a subprocess dump and a BPE tokeniser library.
- The files under `tests/`. They cover audio denoising and speech-recogniser benchmarks on floating-point data and ML models.
- Dumps.ParseDump: its contract only bounds the number of entries. What parsing yields is stated by `ParseDumpLine`, `ParseFormatAll`, `ShortLineDropped` and `ParseDumpSplit`.
