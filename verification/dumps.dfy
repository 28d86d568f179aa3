/** The text side of the dictionary and history dumps: parsing the lines
    of a dumped dictionary into entries, writing entries back in the same
    line format, and counting history tokens. */
module Dumps {
  import Text

  /** One dictionary entry; the frequency stays the text the dump wrote. */
  datatype Entry = Entry(word: string, pinyin: string, freq: string)

  datatype Option<T> = None | Some(value: T)

  /** One dumped line: at least two fields make an entry, a missing third
      field reads as frequency "0", further fields are ignored. */
  function ParseDumpLine(line: string): (r: Option<Entry>)
    ensures r.None? <==> |Text.Fields(line)| < 2
    ensures r.Some? ==>
      var fs := Text.Fields(line);
      r.value.word == fs[0] && r.value.pinyin == fs[1] &&
      r.value.freq == (if |fs| > 2 then fs[2] else "0")
  {
    var parts := Text.Fields(line);
    if |parts| >= 2 then
      Some(Entry(parts[0], parts[1], if |parts| > 2 then parts[2] else "0"))
    else None
  }

  /** The entries of a dump, in line order, short lines dropped. */
  function ParseDump(lines: seq<string>): (entries: seq<Entry>)
    ensures |entries| <= |lines|
    decreases |lines|
  {
    if |lines| == 0 then []
    else
      match ParseDumpLine(lines[0])
      case Some(e) => [e] + ParseDump(lines[1..])
      case None => ParseDump(lines[1..])
  }

  /** The line the dictionary compiler is fed for one entry: the three
      fields, space-separated, then a newline. */
  function FormatLine(e: Entry): (line: string)
    ensures |line| > 0 && line[|line| - 1] == '\n'
    ensures WellFormed(e) ==> Text.Fields(line) == [e.word, e.pinyin, e.freq]
  {
    var line := e.word + " " + e.pinyin + " " + e.freq + "\n";
    if WellFormed(e) then FieldsOfFormattedLine(e); line else line
  }

  lemma FieldsOfFormattedLine(e: Entry)
    requires WellFormed(e)
    ensures Text.Fields(e.word + " " + e.pinyin + " " + e.freq + "\n") == [e.word, e.pinyin, e.freq]
  {
    var ts := [e.word, e.pinyin, e.freq];
    assert ts[1..][1..] == [e.freq];
    assert Text.Join(ts[1..], ' ') == e.pinyin + " " + e.freq;
    assert Text.Join(ts, ' ') + "\n" == e.word + " " + e.pinyin + " " + e.freq + "\n";
    Text.FieldsOfJoin(ts, "\n");
  }

  /** The compiler's input for a list of entries, one line per entry. */
  function FormatAll(entries: seq<Entry>): (lines: seq<string>)
    ensures |lines| == |entries|
    ensures forall i :: 0 <= i < |entries| ==> lines[i] == FormatLine(entries[i])
    decreases |entries|
  {
    if |entries| == 0 then [] else [FormatLine(entries[0])] + FormatAll(entries[1..])
  }

  /** Every field is a single non-empty whitespace-free token, as the dump
      tool writes them. */
  predicate WellFormed(e: Entry) {
    Text.IsWord(e.word) && Text.IsWord(e.pinyin) && Text.IsWord(e.freq)
  }

  /** Writing an entry and parsing the line back gives the entry. */
  lemma ParseFormatLine(e: Entry)
    requires WellFormed(e)
    ensures ParseDumpLine(FormatLine(e)) == Some(e)
  {
  }

  /** Writing a list of entries and parsing the dump back gives the list. */
  lemma {:induction false} ParseFormatAll(entries: seq<Entry>)
    requires forall i :: 0 <= i < |entries| ==> WellFormed(entries[i])
    ensures ParseDump(FormatAll(entries)) == entries
    decreases |entries|
  {
    if |entries| > 0 {
      var lines := FormatAll(entries);
      ParseFormatLine(entries[0]);
      assert lines[0] == FormatLine(entries[0]);
      assert lines[1..] == FormatAll(entries[1..]);
      ParseFormatAll(entries[1..]);
      assert entries == [entries[0]] + entries[1..];
    }
  }

  /** Fields past the third do not change the entry. */
  lemma ExtraFieldsIgnored(line: string, extra: string)
    requires |Text.Fields(line)| >= 3
    ensures ParseDumpLine(line + " " + extra) == ParseDumpLine(line)
  {
    Text.FieldsAppend(line, ' ', extra);
    assert line + " " + extra == line + [' '] + extra;
  }

  /** A line with one field, or only whitespace, gives no entry. */
  lemma ShortLineDropped(lines: seq<string>, i: nat)
    requires i < |lines| && |Text.Fields(lines[i])| < 2
    ensures ParseDump(lines) == ParseDump(lines[..i]) + ParseDump(lines[i + 1..])
  {
    ParseDumpSplit(lines, i);
    ParseDumpSplit(lines[i..], 1);
    assert lines[i..][..1] == [lines[i]];
    assert lines[i..][1..] == lines[i + 1..];
    assert ParseDump([lines[i]]) == [];
  }

  lemma {:induction false} ParseDumpSplit(lines: seq<string>, k: nat)
    requires k <= |lines|
    ensures ParseDump(lines) == ParseDump(lines[..k]) + ParseDump(lines[k..])
    decreases k
  {
    if k == 0 {
      assert lines[k..] == lines;
    } else {
      ParseDumpSplit(lines[1..], k - 1);
      assert lines[..k][1..] == lines[1..][..k - 1];
      assert lines[1..][k - 1..] == lines[k..];
    }
  }

  /** A history counter: word to number of occurrences; a word that never
      occurred has no key. */
  type Counter = map<string, nat>

  /** Counter lookup: a missing word counts 0. */
  function Usage(counter: Counter, w: string): (n: nat)
    ensures w !in counter ==> n == 0
    ensures w in counter ==> n == counter[w]
  {
    if w in counter then counter[w] else 0
  }

  /** All whitespace-separated tokens of the history dump, in order. */
  function Tokens(lines: seq<string>): seq<string>
    decreases |lines|
  {
    if |lines| == 0 then [] else Tokens(lines[..|lines| - 1]) + Text.Fields(lines[|lines| - 1])
  }

  /** Number of occurrences of `w` in `ts`. */
  function Occurrences(w: string, ts: seq<string>): nat
    decreases |ts|
  {
    if |ts| == 0 then 0
    else Occurrences(w, ts[..|ts| - 1]) + (if ts[|ts| - 1] == w then 1 else 0)
  }

  /** The history counter: every token of every line counted once. */
  method CountHistory(lines: seq<string>) returns (counter: Counter)
    ensures forall w :: Usage(counter, w) == Occurrences(w, Tokens(lines))
    ensures forall w :: w in counter ==> counter[w] > 0
  {
    counter := map[];
    var i := 0;
    while i < |lines|
      invariant 0 <= i <= |lines|
      invariant forall w :: Usage(counter, w) == Occurrences(w, Tokens(lines[..i]))
      invariant forall w :: w in counter ==> counter[w] > 0
    {
      var tokens := Text.Fields(lines[i]);
      ghost var before := Tokens(lines[..i]);
      var j := 0;
      assert before + tokens[..j] == before;
      while j < |tokens|
        invariant 0 <= j <= |tokens|
        invariant forall w :: Usage(counter, w) == Occurrences(w, before + tokens[..j])
        invariant forall w :: w in counter ==> counter[w] > 0
      {
        var t := tokens[j];
        assert before + tokens[..j + 1] == (before + tokens[..j]) + [t];
        assert ((before + tokens[..j]) + [t])[..|before + tokens[..j]|] == before + tokens[..j];
        counter := counter[t := Usage(counter, t) + 1];
        j := j + 1;
      }
      assert tokens[..j] == tokens;
      assert lines[..i + 1][..i] == lines[..i];
      i := i + 1;
    }
    assert lines[..i] == lines;
  }
}
