/** Tone stripping: the fixed character translation that replaces each of
    the 24 tone-marked pinyin vowels by its plain letter (the toned forms
    of ü become `v`, the input-method spelling of ü). */
module Tone {

  /** The translation table's source characters, four tones per vowel. */
  const ToneMarked: string := "āáǎàēéěèīíǐìōóǒòūúǔùǖǘǚǜ"
  /** The translation table's targets, position for position. */
  const Toneless: string := "aaaaeeeeiiiioooouuuuvvvv"

  /** The table's sources all lie at or above U+00E0, its targets are
      ASCII letters, and no source character is listed twice. */
  lemma TableShape()
    ensures |ToneMarked| == 24 && |Toneless| == 24
    ensures forall k :: 0 <= k < |ToneMarked| ==> ToneMarked[k] >= '\U{E0}'
    ensures forall k :: 0 <= k < |Toneless| ==> Toneless[k] < '\U{80}'
    ensures forall i, j :: 0 <= i < j < |ToneMarked| ==> ToneMarked[i] != ToneMarked[j]
  {
    forall i, j | 0 <= i < j < |ToneMarked|
      ensures ToneMarked[i] != ToneMarked[j]
    {
    }
  }

  /** First position of `c` in `s`. */
  function IndexOf(s: string, c: char): (i: nat)
    requires c in s
    ensures i < |s| && s[i] == c
    ensures forall j :: 0 <= j < i ==> s[j] != c
  {
    if s[0] == c then 0 else 1 + IndexOf(s[1..], c)
  }

  /** The translation of one character. */
  function StripChar(c: char): (r: char)
    ensures c !in ToneMarked ==> r == c
    ensures r !in ToneMarked
  {
    TableShape();
    if c in ToneMarked then Toneless[IndexOf(ToneMarked, c)] else c
  }

  /** Each of the 24 tone-marked vowels goes to the plain letter at the same
      position of the table. */
  lemma StripCharTable(k: nat)
    requires k < |ToneMarked|
    ensures StripChar(ToneMarked[k]) == Toneless[k]
  {
    TableShape();
  }

  /** Python `s.translate(_TONE_MAP)`: every character translated on its own. */
  function StripTone(s: string): (r: string)
    ensures |r| == |s|
    ensures forall i :: 0 <= i < |s| ==> r[i] == StripChar(s[i])
    ensures forall i :: 0 <= i < |s| && s[i] !in ToneMarked ==> r[i] == s[i]
    ensures forall i :: 0 <= i < |s| ==> r[i] !in ToneMarked
  {
    seq(|s|, i requires 0 <= i < |s| => StripChar(s[i]))
  }

  /** Each tone-marked vowel maps to a plain a, e, i, o, u or v. */
  lemma ToneMarkedToVowel(c: char)
    requires c in ToneMarked
    ensures StripChar(c) in "aeiouv"
  {
  }

  /** At every position holding a tone-marked vowel, the stripped string
      holds that vowel's plain letter. */
  lemma StripToneMarked(s: string, i: nat, k: nat)
    requires i < |s| && k < |ToneMarked|
    requires s[i] == ToneMarked[k]
    ensures StripTone(s)[i] == Toneless[k]
  {
    StripCharTable(k);
  }

  /** Stripping twice is stripping once. */
  lemma StripToneIdempotent(s: string)
    ensures StripTone(StripTone(s)) == StripTone(s)
  {
  }

  /** Every table character lies at or above U+00E0, so ASCII (plain
      pinyin letters, digits, the apostrophe) is never translated. */
  lemma LowKept(c: char)
    requires c < '\U{E0}'
    ensures StripChar(c) == c
  {
    TableShape();
  }

  /** A syllable with one tone mark and otherwise plain ASCII loses exactly
      that mark. */
  lemma StripSingleMark(s: string, i: nat, k: nat)
    requires i < |s| && k < |ToneMarked|
    requires s[i] == ToneMarked[k]
    requires forall j :: 0 <= j < |s| && j != i ==> s[j] < '\U{E0}'
    ensures StripTone(s) == s[i := Toneless[k]]
  {
    StripCharTable(k);
    forall j | 0 <= j < |s| && j != i
      ensures StripTone(s)[j] == s[j]
    {
      LowKept(s[j]);
    }
  }

  /** A bare ü carries no tone mark and is not in the table, so it is kept
      as it is rather than turned into `v`. */
  lemma BareUmlautKept()
    ensures StripChar('ü') == 'ü'
    ensures StripTone("lü") == "lü"
  {
    assert forall k :: 0 <= k < |ToneMarked| ==> ToneMarked[k] != 'ü';
    LowKept('l');
    var r := StripTone("lü");
    assert r[0] == 'l' && r[1] == 'ü';
  }

  lemma StripToneExamples()
    ensures StripTone("zhōng") == "zhong"
    ensures StripTone("lǜ") == "lv"
  {
    StripSingleMark("zhōng", 2, 12);
    StripSingleMark("lǜ", 1, 23);
  }
}
