/** The polyphonic-character set and its build-once accessor.

    The reading table maps each character to the comma-separated list of its
    tone-marked readings; a character is polyphonic when those readings,
    once tone-stripped, are not all the same. */
module Polyphonic {
  import Text
  import Tone

  /** Character to comma-separated readings, as the pronunciation table
      stores them (keyed by code point there; a Dafny `char` is one). */
  type ReadingTable = map<char, string>

  function Readings(entry: string): seq<string> {
    Text.Split(entry, ',')
  }

  /** The distinct tone-stripped base syllables of one table entry. */
  function Bases(entry: string): set<string> {
    set r | r in Readings(entry) :: Tone.StripTone(r)
  }

  predicate IsPolyphonic(entry: string) {
    |Bases(entry)| > 1
  }

  /** Reference definition of the set the builder produces; the memoised
      accessor below builds with this function, and `BuildPolyphonicSet`
      shows the loop over the table computes the same set. */
  function PolyphonicSet(table: ReadingTable): (poly: set<char>)
    ensures poly <= table.Keys
  {
    set c | c in table && IsPolyphonic(table[c])
  }

  /** Some two readings of the entry differ after tone stripping. */
  predicate HasDistinctBases(entry: string) {
    var rs := Readings(entry);
    exists i, j :: 0 <= i < |rs| && 0 <= j < |rs| && Tone.StripTone(rs[i]) != Tone.StripTone(rs[j])
  }

  lemma TwoElements(s: set<string>)
    ensures |s| > 1 <==> exists x, y :: x in s && y in s && x != y
  {
    if |s| > 1 {
      var x :| x in s;
      assert |s - {x}| == |s| - 1;
      var y :| y in s - {x};
    }
    if exists x, y :: x in s && y in s && x != y {
      var x, y :| x in s && y in s && x != y;
      assert {x, y} <= s;
      assert |{x, y}| == 2;
      SubsetCard({x, y}, s);
    }
  }

  lemma SubsetCard(a: set<string>, b: set<string>)
    requires a <= b
    ensures |a| <= |b|
  {
    assert b == a + (b - a);
  }

  /** A character is polyphonic exactly when it is in the table and two of
      its readings have different tone-stripped forms. */
  lemma PolyphonicIff(table: ReadingTable, c: char)
    ensures c in PolyphonicSet(table) <==> c in table && HasDistinctBases(table[c])
  {
    if c in table {
      var rs := Readings(table[c]);
      var bs := Bases(table[c]);
      TwoElements(bs);
      if |bs| > 1 {
        var x, y :| x in bs && y in bs && x != y;
        var i :| 0 <= i < |rs| && Tone.StripTone(rs[i]) == x;
        var j :| 0 <= j < |rs| && Tone.StripTone(rs[j]) == y;
      }
      if HasDistinctBases(table[c]) {
        var i, j :| 0 <= i < |rs| && 0 <= j < |rs| && Tone.StripTone(rs[i]) != Tone.StripTone(rs[j]);
        assert rs[i] in rs && rs[j] in rs;
        assert Tone.StripTone(rs[i]) in bs && Tone.StripTone(rs[j]) in bs;
      }
    }
  }

  /** Readings that differ only in tone (zhōng, zhòng) never make a
      character polyphonic. */
  lemma ToneVariantsNotPolyphonic(table: ReadingTable, c: char)
    requires c in table
    requires forall i :: 0 <= i < |Readings(table[c])| ==>
      Tone.StripTone(Readings(table[c])[i]) == Tone.StripTone(Readings(table[c])[0])
    ensures c !in PolyphonicSet(table)
  {
    PolyphonicIff(table, c);
  }

  /** The builder's loop over the table's items, adding each polyphonic
      character as it is met. Its result is exactly `PolyphonicSet(table)`,
      the set `GetPolyphonic` stores in the cache. */
  method BuildPolyphonicSet(table: ReadingTable) returns (poly: set<char>)
    ensures forall c :: c in poly <==> c in table && IsPolyphonic(table[c])
  {
    poly := {};
    var pending := table.Keys;
    while pending != {}
      invariant pending <= table.Keys
      invariant forall c :: c in poly <==> c in table.Keys - pending && IsPolyphonic(table[c])
      decreases pending
    {
      var c :| c in pending;
      if IsPolyphonic(table[c]) {
        poly := poly + {c};
      }
      pending := pending - {c};
    }
  }

  /** The process-wide cache: empty until the first request. */
  datatype Cache = Unbuilt | Cached(poly: set<char>)

  /** What one request returns: the set, the cache afterwards, and whether
      the builder ran for it. */
  datatype Lookup = Lookup(poly: set<char>, cache: Cache, built: bool)

  /** The memoised accessor: build only when the cache is empty. */
  function GetPolyphonic(cache: Cache, table: ReadingTable): (r: Lookup)
    ensures r.built <==> cache.Unbuilt?
    ensures r.cache == Cached(r.poly)
    ensures cache.Cached? ==> r.poly == cache.poly
    ensures cache.Unbuilt? ==> r.poly == PolyphonicSet(table)
  {
    match cache
    case Unbuilt =>
      var poly := PolyphonicSet(table);
      Lookup(poly, Cached(poly), true)
    case Cached(poly) => Lookup(poly, cache, false)
  }

  /** The cache is empty or holds the set built from this table. */
  predicate Coherent(cache: Cache, table: ReadingTable) {
    cache.Unbuilt? || cache.poly == PolyphonicSet(table)
  }

  /** Requests against a coherent cache return the built set and leave the
      cache coherent. */
  lemma GetPolyphonicCoherent(cache: Cache, table: ReadingTable)
    requires Coherent(cache, table)
    ensures GetPolyphonic(cache, table).poly == PolyphonicSet(table)
    ensures Coherent(GetPolyphonic(cache, table).cache, table)
  {
  }

  /** A second request returns the very same set without building again. */
  lemma SecondRequestReuses(cache: Cache, table: ReadingTable)
    ensures var first := GetPolyphonic(cache, table);
            var second := GetPolyphonic(first.cache, table);
            second.poly == first.poly && !second.built && second.cache == first.cache
  {
  }

  /** How many of `n` successive requests run the builder. */
  function Builds(n: nat, cache: Cache, table: ReadingTable): nat
    decreases n
  {
    if n == 0 then 0
    else
      var r := GetPolyphonic(cache, table);
      (if r.built then 1 else 0) + Builds(n - 1, r.cache, table)
  }

  lemma {:induction false} CachedNeverBuilds(n: nat, poly: set<char>, table: ReadingTable)
    ensures Builds(n, Cached(poly), table) == 0
    decreases n
  {
    if n > 0 {
      CachedNeverBuilds(n - 1, poly, table);
    }
  }

  /** Starting from an empty cache, any number of requests builds the set
      exactly once (none when there is no request). */
  lemma {:induction false} BuiltAtMostOnce(n: nat, table: ReadingTable)
    ensures Builds(n, Unbuilt, table) == if n == 0 then 0 else 1
  {
    if n > 0 {
      CachedNeverBuilds(n - 1, PolyphonicSet(table), table);
    }
  }

  lemma ReadingsOfTwo(a: string, b: string)
    requires ',' !in a && ',' !in b
    ensures Readings(a + "," + b) == [a, b]
  {
    assert Text.NoSeparator([a, b], ',');
    assert Text.Join([a, b], ',') == a + "," + b;
    Text.SplitJoin([a, b], ',');
  }

  lemma StrippedExamples()
    ensures Tone.StripTone("zhōng") == "zhong"
    ensures Tone.StripTone("zhòng") == "zhong"
    ensures Tone.StripTone("chóng") == "chong"
  {
    Tone.StripToneExamples();
    FourthToneStripped();
    SecondToneStripped();
  }

  lemma FourthToneStripped()
    ensures Tone.StripTone("zhòng") == "zhong"
  {
    Tone.StripSingleMark("zhòng", 2, 15);
  }

  lemma SecondToneStripped()
    ensures Tone.StripTone("chóng") == "chong"
  {
    Tone.StripSingleMark("chóng", 2, 13);
  }

  /** 中 has only tone variants of one syllable; 重 reads zhong or chong. */
  lemma PolyphonicExample()
    ensures PolyphonicSet(map['中' := "zhōng,zhòng", '重' := "zhòng,chóng"]) == {'重'}
  {
    var table := map['中' := "zhōng,zhòng", '重' := "zhòng,chóng"];
    var poly := PolyphonicSet(table);
    ZhongNotPolyphonic(table);
    ChongPolyphonic(table);
    assert table.Keys == {'中', '重'};
    assert poly <= table.Keys;
  }

  lemma ZhongNotPolyphonic(table: ReadingTable)
    requires '中' in table && table['中'] == "zhōng,zhòng"
    ensures '中' !in PolyphonicSet(table)
  {
    StrippedExamples();
    ReadingsOfTwo("zhōng", "zhòng");
    assert "zhōng" + "," + "zhòng" == table['中'];
    ToneVariantsNotPolyphonic(table, '中');
  }

  lemma ChongPolyphonic(table: ReadingTable)
    requires '重' in table && table['重'] == "zhòng,chóng"
    ensures '重' in PolyphonicSet(table)
  {
    StrippedExamples();
    ReadingsOfTwo("zhòng", "chóng");
    assert "zhòng" + "," + "chóng" == table['重'];
    var rs := Readings(table['重']);
    assert Tone.StripTone(rs[0]) != Tone.StripTone(rs[1]);
    PolyphonicIff(table, '重');
  }
}
