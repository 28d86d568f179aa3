/** The pinyin matcher: compares a recorded pinyin against the canonical
    syllables of the word, skipping polyphonic characters and tolerating
    fuzzy initial/final pairs. */
module Matcher {
  import Text
  import Fuzzy
  import Polyphonic

  const Apostrophe: char := '\''

  /** The canonical syllable list of a word, one reading per element, as the
      pronunciation library returns it in its toneless style. */
  type Canon = string -> seq<string>

  /** The verdict and the standard pinyin it was measured against. */
  datatype Checked = Checked(ok: bool, standard: string)

  /** One zipped position is acceptable: its character is polyphonic, or the
      syllables are identical, or they are fuzzy-equal. */
  predicate PositionOk(c: char, std: string, rec: string, poly: set<char>) {
    c in poly || std == rec || Fuzzy.FuzzyEq(std, rec)
  }

  function Min(a: nat, b: nat): nat {
    if a <= b then a else b
  }

  /** The number of triples `zip(word, std, rec)` produces. */
  function ZipLen(word: string, std: seq<string>, rec: seq<string>): nat {
    Min(|word|, Min(|std|, |rec|))
  }

  /** The walk over `zip(word, std, rec)`, stopping at the first position
      that is not acceptable. */
  function Walk(word: string, std: seq<string>, rec: seq<string>, poly: set<char>): (ok: bool)
    ensures ok <==> forall i :: 0 <= i < ZipLen(word, std, rec) ==> PositionOk(word[i], std[i], rec[i], poly)
    decreases |word|
  {
    if |word| == 0 || |std| == 0 || |rec| == 0 then true
    else if !PositionOk(word[0], std[0], rec[0], poly) then false
    else Walk(word[1..], std[1..], rec[1..], poly)
  }

  /** `check_pinyin` with the polyphonic set given. */
  function Check(word: string, recorded: string, canon: Canon, poly: set<char>): (r: Checked)
    ensures r.standard == Text.Join(canon(word), Apostrophe)
    ensures recorded == r.standard ==> r.ok
    ensures recorded != r.standard && |Text.Split(recorded, Apostrophe)| != |canon(word)| ==> !r.ok
    ensures recorded != r.standard && |Text.Split(recorded, Apostrophe)| == |canon(word)| ==>
      (r.ok <==> forall i :: 0 <= i < Min(|word|, |canon(word)|) ==>
         PositionOk(word[i], canon(word)[i], Text.Split(recorded, Apostrophe)[i], poly))
  {
    var syllables := canon(word);
    var standard := Text.Join(syllables, Apostrophe);
    if standard == recorded then Checked(true, standard)
    else
      var rec := Text.Split(recorded, Apostrophe);
      if |syllables| != |rec| then Checked(false, standard)
      else Checked(Walk(word, syllables, rec, poly), standard)
  }

  /** The verdict together with the polyphonic cache after the call. */
  datatype CachedCheck = CachedCheck(checked: Checked, cache: Polyphonic.Cache)

  /** `check_pinyin` as written: the polyphonic set is requested from the
      memoised accessor only once the walk is reached. */
  function CheckPinyin(word: string, recorded: string, canon: Canon,
                       table: Polyphonic.ReadingTable, cache: Polyphonic.Cache): (r: CachedCheck)
    ensures Polyphonic.Coherent(cache, table) ==>
      r.checked == Check(word, recorded, canon, Polyphonic.PolyphonicSet(table)) &&
      Polyphonic.Coherent(r.cache, table)
    ensures recorded == Text.Join(canon(word), Apostrophe) ==> r.cache == cache
    ensures |Text.Split(recorded, Apostrophe)| != |canon(word)| ==> r.cache == cache
    ensures r.cache.Unbuilt? ==> cache.Unbuilt?
  {
    var syllables := canon(word);
    var standard := Text.Join(syllables, Apostrophe);
    if standard == recorded then CachedCheck(Checked(true, standard), cache)
    else
      var rec := Text.Split(recorded, Apostrophe);
      if |syllables| != |rec| then CachedCheck(Checked(false, standard), cache)
      else
        var lookup := Polyphonic.GetPolyphonic(cache, table);
        CachedCheck(Checked(Walk(word, syllables, rec, lookup.poly), standard), lookup.cache)
  }

  /** The canonical pinyin of a word is always accepted, polyphonic
      characters or not. */
  lemma CanonicalAccepted(word: string, canon: Canon, poly: set<char>)
    ensures Check(word, Text.Join(canon(word), Apostrophe), canon, poly) == Checked(true, Text.Join(canon(word), Apostrophe))
  {
  }

  /** For a recorded pinyin built from separator-free syllables, one per
      canonical syllable, the verdict is exactly the positionwise test. */
  lemma {:induction false} CheckSyllables(word: string, canon: Canon, poly: set<char>, rec: seq<string>)
    requires |rec| == |canon(word)| >= 1
    requires Text.NoSeparator(rec, Apostrophe) && Text.NoSeparator(canon(word), Apostrophe)
    ensures Check(word, Text.Join(rec, Apostrophe), canon, poly).ok <==>
      forall i :: 0 <= i < Min(|word|, |rec|) ==> PositionOk(word[i], canon(word)[i], rec[i], poly)
  {
    var std := canon(word);
    Text.SplitJoin(rec, Apostrophe);
    if Text.Join(rec, Apostrophe) == Text.Join(std, Apostrophe) {
      Text.SplitJoin(std, Apostrophe);
      assert rec == std;
      assert forall i :: 0 <= i < Min(|word|, |rec|) ==> PositionOk(word[i], std[i], rec[i], poly);
    }
  }

  /** Replacing one syllable by a fuzzy-equal spelling is accepted. */
  lemma FuzzySubstitutionAccepted(word: string, canon: Canon, poly: set<char>, i: nat, s: string)
    requires i < |canon(word)|
    requires Text.NoSeparator(canon(word), Apostrophe) && Apostrophe !in s
    requires Fuzzy.FuzzyEq(canon(word)[i], s)
    ensures Check(word, Text.Join(canon(word)[i := s], Apostrophe), canon, poly).ok
  {
    var rec := canon(word)[i := s];
    assert Text.NoSeparator(rec, Apostrophe);
    CheckSyllables(word, canon, poly, rec);
  }

  /** Any reading, however different, is accepted at a polyphonic character. */
  lemma PolyphonicPositionAccepted(word: string, canon: Canon, poly: set<char>, i: nat, s: string)
    requires i < |word| && i < |canon(word)|
    requires word[i] in poly
    requires Text.NoSeparator(canon(word), Apostrophe) && Apostrophe !in s
    ensures Check(word, Text.Join(canon(word)[i := s], Apostrophe), canon, poly).ok
  {
    var rec := canon(word)[i := s];
    assert Text.NoSeparator(rec, Apostrophe);
    CheckSyllables(word, canon, poly, rec);
  }

  /** A single wrong, non-fuzzy syllable at a non-polyphonic character is
      enough to reject, and the standard pinyin is still the canonical one. */
  lemma WrongSyllableRejected(word: string, canon: Canon, poly: set<char>, i: nat, s: string)
    requires i < |word| && i < |canon(word)|
    requires word[i] !in poly
    requires s != canon(word)[i] && !Fuzzy.FuzzyEq(canon(word)[i], s)
    requires Text.NoSeparator(canon(word), Apostrophe) && Apostrophe !in s
    ensures Check(word, Text.Join(canon(word)[i := s], Apostrophe), canon, poly) ==
      Checked(false, Text.Join(canon(word), Apostrophe))
  {
    var rec := canon(word)[i := s];
    assert Text.NoSeparator(rec, Apostrophe);
    CheckSyllables(word, canon, poly, rec);
    assert !PositionOk(word[i], canon(word)[i], rec[i], poly);
  }

  /** `zip` stops at the shortest input: a canonical syllable past the last
      character of the word is never compared. */
  lemma TrailingSyllableUnchecked(word: string, canon: Canon, poly: set<char>, i: nat, s: string)
    requires |word| <= i < |canon(word)|
    requires Text.NoSeparator(canon(word), Apostrophe) && Apostrophe !in s
    ensures Check(word, Text.Join(canon(word)[i := s], Apostrophe), canon, poly).ok
  {
    var rec := canon(word)[i := s];
    assert Text.NoSeparator(rec, Apostrophe);
    CheckSyllables(word, canon, poly, rec);
  }

  /** A recorded pinyin with a different number of syllables from the
      canonical list is rejected, whatever its syllables are, even when
      every character is polyphonic. */
  lemma SyllableCountMismatchRejected(word: string, canon: Canon, poly: set<char>, rec: seq<string>)
    requires |rec| >= 1 && |canon(word)| >= 1 && |rec| != |canon(word)|
    requires Text.NoSeparator(rec, Apostrophe) && Text.NoSeparator(canon(word), Apostrophe)
    ensures !Check(word, Text.Join(rec, Apostrophe), canon, poly).ok
  {
    Text.SplitJoin(rec, Apostrophe);
    Text.SplitJoin(canon(word), Apostrophe);
  }
}
