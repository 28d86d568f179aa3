/** The entry classifier: each dictionary entry lands in exactly one of four
    buckets, checked in order: pinyin mismatch, never used, used fewer than
    the minimum, kept. */
module Classifier {
  import Text
  import Matcher
  import Polyphonic
  import Dumps
  import Fuzzy

  datatype Bucket = PinyinBad | NeverUsed | LowFreq | Keep

  /** The ordered rules of the main loop. */
  function Decide(ok: bool, usage: nat, minFreq: int): (b: Bucket)
    ensures b == PinyinBad <==> !ok
    ensures b == NeverUsed <==> ok && usage == 0
    ensures b == LowFreq <==> ok && 0 < usage < minFreq
    ensures b == Keep <==> ok && usage > 0 && usage >= minFreq
  {
    if !ok then PinyinBad
    else if usage == 0 then NeverUsed
    else if usage < minFreq then LowFreq
    else Keep
  }

  /** What the report lists for a mismatch, a never-used and a rare word. */
  datatype Mismatch = Mismatch(word: string, recorded: string, standard: string, usage: nat)
  datatype Unused = Unused(word: string, pinyin: string)
  datatype Rare = Rare(word: string, pinyin: string, usage: nat)

  datatype Report = Report(pinyinBad: seq<Mismatch>, neverUsed: seq<Unused>,
                           lowFreq: seq<Rare>, keep: seq<Dumps.Entry>)
  {
    function Size(): nat {
      |pinyinBad| + |neverUsed| + |lowFreq| + |keep|
    }
  }

  /** Everything the classification of one entry depends on besides the
      entry: the history counter, the minimum usage, the canonical syllables
      and the polyphonic set. */
  datatype Context = Context(counter: Dumps.Counter, minFreq: int,
                             canon: Matcher.Canon, poly: set<char>)

  function CheckEntry(e: Dumps.Entry, ctx: Context): Matcher.Checked {
    Matcher.Check(e.word, e.pinyin, ctx.canon, ctx.poly)
  }

  function BucketOf(e: Dumps.Entry, ctx: Context): Bucket {
    Decide(CheckEntry(e, ctx).ok, Dumps.Usage(ctx.counter, e.word), ctx.minFreq)
  }

  function AsMismatch(e: Dumps.Entry, ctx: Context): Mismatch {
    Mismatch(e.word, e.pinyin, CheckEntry(e, ctx).standard, Dumps.Usage(ctx.counter, e.word))
  }

  function AsUnused(e: Dumps.Entry): Unused {
    Unused(e.word, e.pinyin)
  }

  function AsRare(e: Dumps.Entry, ctx: Context): Rare {
    Rare(e.word, e.pinyin, Dumps.Usage(ctx.counter, e.word))
  }

  /** Append one entry to the list of its bucket. */
  function Place(r: Report, e: Dumps.Entry, ctx: Context): (r': Report)
    ensures r'.Size() == r.Size() + 1
    ensures (if r'.pinyinBad == r.pinyinBad then 0 else 1) + (if r'.neverUsed == r.neverUsed then 0 else 1) +
            (if r'.lowFreq == r.lowFreq then 0 else 1) + (if r'.keep == r.keep then 0 else 1) == 1
    ensures r'.pinyinBad != r.pinyinBad <==> BucketOf(e, ctx) == PinyinBad
    ensures r'.neverUsed != r.neverUsed <==> BucketOf(e, ctx) == NeverUsed
    ensures r'.lowFreq != r.lowFreq <==> BucketOf(e, ctx) == LowFreq
    ensures r'.keep != r.keep <==> BucketOf(e, ctx) == Keep
    ensures r'.keep == r.keep || r'.keep == r.keep + [e]
  {
    match BucketOf(e, ctx)
    case PinyinBad => r.(pinyinBad := r.pinyinBad + [AsMismatch(e, ctx)])
    case NeverUsed => r.(neverUsed := r.neverUsed + [AsUnused(e)])
    case LowFreq => r.(lowFreq := r.lowFreq + [AsRare(e, ctx)])
    case Keep => r.(keep := r.keep + [e])
  }

  /** The four buckets after the loop over `entries`. */
  function Classify(entries: seq<Dumps.Entry>, ctx: Context): (r: Report)
    ensures r.Size() == |entries|
    decreases |entries|
  {
    if |entries| == 0 then Report([], [], [], [])
    else Place(Classify(entries[..|entries| - 1], ctx), entries[|entries| - 1], ctx)
  }

  /** Reference definition: the entries whose bucket is `b`, in input order. */
  function Select(entries: seq<Dumps.Entry>, ctx: Context, b: Bucket): seq<Dumps.Entry>
    decreases |entries|
  {
    if |entries| == 0 then []
    else
      var last := entries[|entries| - 1];
      Select(entries[..|entries| - 1], ctx, b) + (if BucketOf(last, ctx) == b then [last] else [])
  }

  /** Each bucket lists exactly the entries the rules send there, in input
      order: kept entries unchanged, the others as the report shows them. */
  lemma {:induction false} ClassifyBuckets(entries: seq<Dumps.Entry>, ctx: Context)
    ensures Classify(entries, ctx).keep == Select(entries, ctx, Keep)
    ensures var r, s := Classify(entries, ctx), Select(entries, ctx, NeverUsed);
            |r.neverUsed| == |s| && forall i :: 0 <= i < |s| ==> r.neverUsed[i] == AsUnused(s[i])
    ensures var r, s := Classify(entries, ctx), Select(entries, ctx, LowFreq);
            |r.lowFreq| == |s| && forall i :: 0 <= i < |s| ==> r.lowFreq[i] == AsRare(s[i], ctx)
    ensures var r, s := Classify(entries, ctx), Select(entries, ctx, PinyinBad);
            |r.pinyinBad| == |s| && forall i :: 0 <= i < |s| ==> r.pinyinBad[i] == AsMismatch(s[i], ctx)
    decreases |entries|
  {
    if |entries| > 0 {
      ClassifyBuckets(entries[..|entries| - 1], ctx);
    }
  }

  /** Every entry is in exactly one bucket, so the selections partition the
      input and their sizes add up to its length. */
  lemma {:induction false} SelectPartition(entries: seq<Dumps.Entry>, ctx: Context)
    ensures |Select(entries, ctx, PinyinBad)| + |Select(entries, ctx, NeverUsed)| +
            |Select(entries, ctx, LowFreq)| + |Select(entries, ctx, Keep)| == |entries|
    decreases |entries|
  {
    if |entries| > 0 {
      SelectPartition(entries[..|entries| - 1], ctx);
    }
  }

  /** Each selected entry is an input entry with that bucket. */
  lemma {:induction false} SelectSound(entries: seq<Dumps.Entry>, ctx: Context, b: Bucket)
    ensures forall e :: e in Select(entries, ctx, b) ==> e in entries && BucketOf(e, ctx) == b
    decreases |entries|
  {
    if |entries| > 0 {
      var init := entries[..|entries| - 1];
      SelectSound(init, ctx, b);
      assert forall e :: e in init ==> e in entries;
    }
  }

  /** A pinyin mismatch is flagged however often the word was used. */
  lemma MismatchTakesPriority(e: Dumps.Entry, ctx: Context, usage: nat)
    requires !CheckEntry(e, ctx).ok
    ensures BucketOf(e, ctx.(counter := ctx.counter[e.word := usage])) == PinyinBad
  {
  }

  /** The main loop as written: entries in order, the polyphonic cache
      threaded through the pinyin checks, each entry appended to one bucket. */
  method ClassifyAll(entries: seq<Dumps.Entry>, counter: Dumps.Counter, minFreq: int,
                     canon: Matcher.Canon, table: Polyphonic.ReadingTable)
    returns (report: Report)
    ensures report == Classify(entries, Context(counter, minFreq, canon, Polyphonic.PolyphonicSet(table)))
  {
    var ctx := Context(counter, minFreq, canon, Polyphonic.PolyphonicSet(table));
    var cache := Polyphonic.Unbuilt;
    report := Report([], [], [], []);
    var i := 0;
    while i < |entries|
      invariant 0 <= i <= |entries|
      invariant Polyphonic.Coherent(cache, table)
      invariant report == Classify(entries[..i], ctx)
    {
      var e := entries[i];
      var usage := Dumps.Usage(counter, e.word);
      var result := Matcher.CheckPinyin(e.word, e.pinyin, canon, table, cache);
      cache := result.cache;
      var checked := result.checked;
      if !checked.ok {
        report := report.(pinyinBad := report.pinyinBad + [Mismatch(e.word, e.pinyin, checked.standard, usage)]);
      } else if usage == 0 {
        report := report.(neverUsed := report.neverUsed + [Unused(e.word, e.pinyin)]);
      } else if usage < minFreq {
        report := report.(lowFreq := report.lowFreq + [Rare(e.word, e.pinyin, usage)]);
      } else {
        report := report.(keep := report.keep + [e]);
      }
      assert entries[..i + 1][..i] == entries[..i];
      i := i + 1;
    }
    assert entries[..i] == entries;
  }

  /** Parsed entries are well formed: every field is one token. */
  lemma {:induction false} ParsedWellFormed(lines: seq<string>)
    ensures forall i :: 0 <= i < |Dumps.ParseDump(lines)| ==> Dumps.WellFormed(Dumps.ParseDump(lines)[i])
    decreases |lines|
  {
    if |lines| > 0 {
      ParsedWellFormed(lines[1..]);
      var fs := Text.Fields(lines[0]);
      assert Text.IsWord("0");
    }
  }

  /** The whole cleaning pass without the external tools: parse the
      dictionary dump, count the history dump, classify. Writing the kept
      entries back and parsing them again gives exactly the kept entries. */
  method Clean(dictLines: seq<string>, historyLines: seq<string>, minFreq: int,
               canon: Matcher.Canon, table: Polyphonic.ReadingTable)
    returns (counter: Dumps.Counter, report: Report)
    ensures forall w :: Dumps.Usage(counter, w) == Dumps.Occurrences(w, Dumps.Tokens(historyLines))
    ensures report == Classify(Dumps.ParseDump(dictLines), Context(counter, minFreq, canon, Polyphonic.PolyphonicSet(table)))
    ensures report.Size() == |Dumps.ParseDump(dictLines)|
    ensures Dumps.ParseDump(Dumps.FormatAll(report.keep)) == report.keep
  {
    var entries := Dumps.ParseDump(dictLines);
    counter := Dumps.CountHistory(historyLines);
    report := ClassifyAll(entries, counter, minFreq, canon, table);
    var ctx := Context(counter, minFreq, canon, Polyphonic.PolyphonicSet(table));
    ClassifyBuckets(entries, ctx);
    SelectSound(entries, ctx, Keep);
    ParsedWellFormed(dictLines);
    forall i | 0 <= i < |report.keep|
      ensures Dumps.WellFormed(report.keep[i])
    {
      assert report.keep[i] in entries;
    }
    Dumps.ParseFormatAll(report.keep);
  }

  /** 你好 with matching pinyin and ten uses is kept; 银行 with matching
      pinyin and no use is never-used. */
  lemma UsageScenario()
    ensures var canon := (w: string) => if w == "你好" then ["ni", "hao"] else ["yin", "hang"];
            var entries := [Dumps.Entry("你好", "ni'hao", "5"), Dumps.Entry("银行", "yin'hang", "3")];
            Classify(entries, Context(map["你好" := 10, "银行" := 0], 1, canon, {})) ==
            Report([], [Unused("银行", "yin'hang")], [], [Dumps.Entry("你好", "ni'hao", "5")])
  {
    var canon := (w: string) => if w == "你好" then ["ni", "hao"] else ["yin", "hang"];
    var entries := [Dumps.Entry("你好", "ni'hao", "5"), Dumps.Entry("银行", "yin'hang", "3")];
    var ctx := Context(map["你好" := 10, "银行" := 0], 1, canon, {});
    assert Text.Join(["hao"], '\'') == "hao";
    assert Text.Join(["ni", "hao"], '\'') == "ni'hao";
    assert Text.Join(["hang"], '\'') == "hang";
    assert Text.Join(["yin", "hang"], '\'') == "yin'hang";
    assert BucketOf(entries[0], ctx) == Keep;
    assert BucketOf(entries[1], ctx) == NeverUsed;
    assert entries[..1][..0] == [];
    assert entries[..1] == [entries[0]];
  }

  /** 重要 recorded as chong'yao against canonical zhong'yao: since 重 is
      polyphonic the entry is judged by usage alone; were 重 not polyphonic
      the entry would be a mismatch, zh/ch not being a fuzzy pair. */
  lemma PolyphonicScenario(usage: nat)
    ensures var canon := (w: string) => ["zhong", "yao"];
            var e := Dumps.Entry("重要", "chong'yao", "2");
            BucketOf(e, Context(map["重要" := usage], 1, canon, {'重'})) != PinyinBad &&
            BucketOf(e, Context(map["重要" := usage], 1, canon, {})) == PinyinBad
  {
    var canon := (w: string) => ["zhong", "yao"];
    assert canon("重要") == ["zhong", "yao"];
    assert Text.NoSeparator(["zhong", "yao"], '\'');
    assert ["zhong", "yao"][0 := "chong"] == ["chong", "yao"];
    assert Text.Join(["yao"], '\'') == "yao";
    assert Text.Join(["chong", "yao"], '\'') == "chong'yao";
    Matcher.PolyphonicPositionAccepted("重要", canon, {'重'}, 0, "chong");
    if Fuzzy.FuzzyEq("zhong", "chong") {
      Fuzzy.FuzzyEqLengths("zhong", "chong");
    }
    Matcher.WrongSyllableRejected("重要", canon, {}, 0, "chong");
  }
}
