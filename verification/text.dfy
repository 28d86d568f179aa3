/** Python string primitives the cleaner relies on: `str.split(sep)` with an
    explicit one-character separator, `sep.join(parts)`, and the
    no-argument `str.split()` that breaks a line into whitespace-separated
    fields. */
module Text {

  /** The characters for which Python's `str.isspace` is true; these are the
      separators `str.split()` and `str.strip()` use when given no argument. */
  predicate IsSpace(c: char) {
    || ('\t' <= c <= '\r')
    || ('\U{1C}' <= c <= '\U{1F}')
    || c == ' '
    || c == '\U{85}'
    || c == '\U{A0}'
    || c == '\U{1680}'
    || ('\U{2000}' <= c <= '\U{200A}')
    || c == '\U{2028}'
    || c == '\U{2029}'
    || c == '\U{202F}'
    || c == '\U{205F}'
    || c == '\U{3000}'
  }

  /** A field as `str.split()` returns it: non-empty, no whitespace. */
  predicate IsWord(t: string) {
    |t| > 0 && forall i :: 0 <= i < |t| ==> !IsSpace(t[i])
  }

  predicate AllSpace(s: string) {
    forall i :: 0 <= i < |s| ==> IsSpace(s[i])
  }

  /** Python `s.split(sep)`: the pieces between occurrences of `sep`, empty
      pieces included, so there is always at least one piece. */
  function Split(s: string, sep: char): (parts: seq<string>)
    ensures |parts| >= 1
    ensures forall i :: 0 <= i < |parts| ==> sep !in parts[i]
    decreases |s|
  {
    if |s| == 0 then [""]
    else
      var rest := Split(s[1..], sep);
      if s[0] == sep then [""] + rest
      else [[s[0]] + rest[0]] + rest[1..]
  }

  /** Python `sep.join(parts)`. */
  function Join(parts: seq<string>, sep: char): string
    decreases |parts|
  {
    if |parts| == 0 then ""
    else if |parts| == 1 then parts[0]
    else parts[0] + [sep] + Join(parts[1..], sep)
  }

  predicate NoSeparator(parts: seq<string>, sep: char) {
    forall i :: 0 <= i < |parts| ==> sep !in parts[i]
  }

  /** Joining the pieces of a split gives the original string back. */
  lemma {:induction false} JoinSplit(s: string, sep: char)
    ensures Join(Split(s, sep), sep) == s
    decreases |s|
  {
    if |s| > 0 {
      var rest := Split(s[1..], sep);
      JoinSplit(s[1..], sep);
      if s[0] == sep {
        assert s == [sep] + s[1..];
      } else {
        if |rest| == 1 {
          assert s == [s[0]] + rest[0];
        } else {
          var parts := Split(s, sep);
          assert parts[1..] == rest[1..];
          assert Join(rest, sep) == rest[0] + [sep] + Join(rest[1..], sep);
          assert s == [s[0]] + rest[0] + [sep] + Join(rest[1..], sep);
        }
      }
    }
  }

  /** Splitting a separator-free prefix glued to the rest extends the first
      piece of the rest. */
  lemma {:induction false} SplitFreePrefix(a: string, rest: string, sep: char)
    requires sep !in a
    ensures Split(a + rest, sep) == [a + Split(rest, sep)[0]] + Split(rest, sep)[1..]
    decreases |a|
  {
    if |a| > 0 {
      SplitFreePrefix(a[1..], rest, sep);
      assert (a + rest)[1..] == a[1..] + rest;
      assert (a + rest)[0] == a[0];
      assert [a[0]] + (a[1..] + Split(rest, sep)[0]) == a + Split(rest, sep)[0];
    } else {
      var pr := Split(rest, sep);
      assert a + rest == rest;
      assert a + pr[0] == pr[0];
      assert pr == [pr[0]] + pr[1..];
    }
  }

  /** Splitting the join of separator-free pieces gives the pieces back; the
      empty list is the one exception, since `"".split(sep)` is `[""]`. */
  lemma {:induction false} SplitJoin(parts: seq<string>, sep: char)
    requires |parts| >= 1
    requires NoSeparator(parts, sep)
    ensures Split(Join(parts, sep), sep) == parts
    decreases |parts|
  {
    if |parts| == 1 {
      SplitFreePrefix(parts[0], "", sep);
      assert parts[0] + "" == parts[0];
    } else {
      var tail := Join(parts[1..], sep);
      SplitJoin(parts[1..], sep);
      assert Split([sep] + tail, sep) == [""] + parts[1..];
      assert Join(parts, sep) == parts[0] + ([sep] + tail);
      SplitFreePrefix(parts[0], [sep] + tail, sep);
      assert parts[0] + "" == parts[0];
    }
  }

  /** Length of the maximal whitespace-free prefix. */
  function WordLen(s: string): (n: nat)
    ensures n <= |s|
    ensures forall i :: 0 <= i < n ==> !IsSpace(s[i])
    ensures n < |s| ==> IsSpace(s[n])
    decreases |s|
  {
    if |s| == 0 || IsSpace(s[0]) then 0 else 1 + WordLen(s[1..])
  }

  /** Python `s.split()` with no argument: the maximal runs of
      non-whitespace, in order; leading and trailing whitespace give no
      field, so `s.strip().split()` is the same list. */
  function Fields(s: string): (fs: seq<string>)
    ensures forall i :: 0 <= i < |fs| ==> IsWord(fs[i])
    decreases |s|
  {
    if |s| == 0 then []
    else if IsSpace(s[0]) then Fields(s[1..])
    else
      var n := WordLen(s);
      [s[..n]] + Fields(s[n..])
  }

  lemma {:induction false} WordLenOfWord(t: string, r: string)
    requires forall i :: 0 <= i < |t| ==> !IsSpace(t[i])
    requires |r| == 0 || IsSpace(r[0])
    ensures WordLen(t + r) == |t|
    decreases |t|
  {
    if |t| > 0 {
      assert (t + r)[1..] == t[1..] + r;
      WordLenOfWord(t[1..], r);
    } else {
      assert t + r == r;
    }
  }

  lemma {:induction false} FieldsAllSpace(s: string)
    requires AllSpace(s)
    ensures Fields(s) == []
    decreases |s|
  {
    if |s| > 0 {
      FieldsAllSpace(s[1..]);
    }
  }

  /** Whitespace between two strings separates their fields. */
  lemma {:induction false} FieldsAppend(a: string, ws: char, b: string)
    requires IsSpace(ws)
    ensures Fields(a + [ws] + b) == Fields(a) + Fields(b)
    decreases |a|
  {
    var s := a + [ws] + b;
    if |a| == 0 {
      assert s == [ws] + b;
      assert s[1..] == b;
    } else if IsSpace(a[0]) {
      assert s[0] == a[0];
      assert s[1..] == a[1..] + [ws] + b;
      FieldsAppend(a[1..], ws, b);
    } else {
      var n := WordLen(a);
      assert a == a[..n] + a[n..];
      assert s == a[..n] + (a[n..] + [ws] + b);
      WordLenOfWord(a[..n], a[n..] + [ws] + b);
      assert s[..n] == a[..n];
      assert s[n..] == a[n..] + [ws] + b;
      FieldsAppend(a[n..], ws, b);
    }
  }

  lemma FieldsOfWord(t: string)
    requires IsWord(t)
    ensures Fields(t) == [t]
  {
    WordLenOfWord(t, "");
    assert t + "" == t;
    assert t[..|t|] == t;
    assert t[|t|..] == [];
  }

  /** Fields of words joined by single spaces, followed by any whitespace,
      are those words. */
  lemma {:induction false} FieldsOfJoin(ts: seq<string>, trail: string)
    requires forall i :: 0 <= i < |ts| ==> IsWord(ts[i])
    requires AllSpace(trail)
    ensures Fields(Join(ts, ' ') + trail) == ts
    decreases |ts|
  {
    if |ts| == 0 {
      assert Join(ts, ' ') + trail == trail;
      FieldsAllSpace(trail);
    } else {
      var t := ts[0];
      FieldsOfWord(t);
      if |ts| == 1 {
        if |trail| == 0 {
          assert Join(ts, ' ') + trail == t;
        } else {
          assert Join(ts, ' ') + trail == t + [trail[0]] + trail[1..];
          FieldsAppend(t, trail[0], trail[1..]);
          FieldsAllSpace(trail[1..]);
        }
      } else {
        var rest := Join(ts[1..], ' ') + trail;
        assert Join(ts, ' ') + trail == t + [' '] + rest;
        FieldsAppend(t, ' ', rest);
        FieldsOfJoin(ts[1..], trail);
        assert ts == [t] + ts[1..];
      }
    }
  }
}
