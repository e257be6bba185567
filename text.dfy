/** The string operations the programs rely on: `str::split` on one character,
    `str::split_whitespace`, `str::split_once`, `[String]::join`, and removal
    of characters. */
module Text {
  import opened Wrappers

  /** Rust's `char::is_whitespace`: the Unicode White_Space property. */
  predicate IsWhitespace(c: char) {
    || '\U{9}' <= c <= '\U{D}'      // tab, line feed, vertical tab, form feed, carriage return
    || c == ' ' || c == '\U{85}' || c == '\U{A0}' || c == '\U{1680}'
    || '\U{2000}' <= c <= '\U{200A}'
    || c == '\U{2028}' || c == '\U{2029}' || c == '\U{202F}' || c == '\U{205F}' || c == '\U{3000}'
  }

  predicate NoWhitespace(s: string) {
    forall i | 0 <= i < |s| :: !IsWhitespace(s[i])
  }

  function Concat(parts: seq<string>): string {
    if parts == [] then [] else parts[0] + Concat(parts[1..])
  }

  /** `parts.join(sep)`: the parts with `sep` between neighbours. */
  function Join(parts: seq<string>, sep: string): string {
    if parts == [] then []
    else if |parts| == 1 then parts[0]
    else parts[0] + sep + Join(parts[1..], sep)
  }

  /** Joining one more part appends the separator and the part. */
  lemma {:induction false} JoinAppend(parts: seq<string>, sep: string, x: string)
    requires parts != []
    ensures Join(parts + [x], sep) == Join(parts, sep) + sep + x
  {
    if |parts| > 1 {
      assert (parts + [x])[1..] == parts[1..] + [x];
      JoinAppend(parts[1..], sep, x);
    }
  }

  /** `s.split(sep)`: the maximal pieces between occurrences of `sep`; there is
      always at least one piece, an empty string gives one empty piece. */
  function Split(s: string, sep: char): (r: seq<string>)
    ensures |r| >= 1
    ensures forall i | 0 <= i < |r| :: sep !in r[i]
  {
    if s == [] then [[]]
    else
      var rest := Split(s[1..], sep);
      if s[0] == sep then [[]] + rest else [[s[0]] + rest[0]] + rest[1..]
  }

  /** Splitting loses nothing: joining the pieces back with `sep` gives `s`. */
  lemma {:induction false} JoinSplit(s: string, sep: char)
    ensures Join(Split(s, sep), [sep]) == s
  {
    if s != [] {
      var rest := Split(s[1..], sep);
      JoinSplit(s[1..], sep);
      if s[0] != sep {
        if |rest| > 1 {
          assert ([[s[0]] + rest[0]] + rest[1..])[1..] == rest[1..];
          assert Join(rest, [sep]) == rest[0] + [sep] + Join(rest[1..], [sep]);
        }
      } else {
        assert ([[]] + rest)[1..] == rest;
      }
    }
  }

  /** A piece free of `sep` followed by `sep` is the first piece. */
  lemma {:induction false} SplitCons(a: string, sep: char, t: string)
    requires sep !in a
    ensures Split(a + [sep] + t, sep) == [a] + Split(t, sep)
    decreases |a|
  {
    var s := a + [sep] + t;
    if a == [] {
      assert s[1..] == t;
    } else {
      assert s[1..] == a[1..] + [sep] + t;
      SplitCons(a[1..], sep, t);
      assert [s[0]] + a[1..] == a;
    }
  }

  /** A string free of `sep` is one piece. */
  lemma {:induction false} SplitSingle(a: string, sep: char)
    requires sep !in a
    ensures Split(a, sep) == [a]
    decreases |a|
  {
    if a != [] {
      SplitSingle(a[1..], sep);
      assert [a[0]] + a[1..] == a;
    }
  }

  /** Pieces free of `sep`, joined with `sep`, split back into those pieces. */
  lemma {:induction false} SplitJoin(parts: seq<string>, sep: char)
    requires parts != []
    requires forall i | 0 <= i < |parts| :: sep !in parts[i]
    ensures Split(Join(parts, [sep]), sep) == parts
  {
    if |parts| == 1 {
      SplitSingle(parts[0], sep);
    } else {
      var rest := Join(parts[1..], [sep]);
      assert Join(parts, [sep]) == parts[0] + [sep] + rest;
      SplitJoin(parts[1..], sep);
      SplitCons(parts[0], sep, rest);
      assert [parts[0]] + parts[1..] == parts;
    }
  }

  /** `s.split_whitespace()`: the non-empty runs of non-whitespace characters. */
  function Words(s: string): (r: seq<string>)
    ensures forall i | 0 <= i < |r| :: r[i] != [] && NoWhitespace(r[i])
    ensures s != [] && !IsWhitespace(s[0]) ==> r != [] && r[0][0] == s[0]
  {
    if s == [] then []
    else
      var rest := Words(s[1..]);
      if IsWhitespace(s[0]) then rest
      else if |s| > 1 && !IsWhitespace(s[1]) then [[s[0]] + rest[0]] + rest[1..]
      else [[s[0]]] + rest
  }

  /** `s` with every character satisfying `IsWhitespace` dropped. */
  function RemoveWhitespace(s: string): (r: string)
    ensures NoWhitespace(r) && |r| <= |s|
  {
    if s == [] then []
    else if IsWhitespace(s[0]) then RemoveWhitespace(s[1..])
    else [s[0]] + RemoveWhitespace(s[1..])
  }

  /** Collecting the words back into one string drops exactly the whitespace. */
  lemma {:induction false} ConcatWords(s: string)
    ensures Concat(Words(s)) == RemoveWhitespace(s)
  {
    if s != [] {
      ConcatWords(s[1..]);
      var rest := Words(s[1..]);
      if !IsWhitespace(s[0]) && |s| > 1 && !IsWhitespace(s[1]) {
        assert ([[s[0]] + rest[0]] + rest[1..])[1..] == rest[1..];
        assert Concat(rest) == rest[0] + Concat(rest[1..]);
      } else if !IsWhitespace(s[0]) {
        assert ([[s[0]]] + rest)[1..] == rest;
      }
    }
  }

  /** A word followed by a space and more text is the first of the words. */
  lemma {:induction false} WordsCons(w: string, t: string)
    requires w != [] && NoWhitespace(w)
    ensures Words(w + " " + t) == [w] + Words(t)
    decreases |w|
  {
    var s := w + " " + t;
    assert !IsWhitespace(s[0]);
    if |w| == 1 {
      assert s[1..] == " " + t && IsWhitespace(s[1]);
      assert (" " + t)[1..] == t;
      assert Words(s[1..]) == Words(t);
      assert Words(s) == [[s[0]]] + Words(s[1..]);
      assert [s[0]] == w;
    } else {
      assert s[1..] == w[1..] + " " + t;
      assert !IsWhitespace(s[1]);
      WordsCons(w[1..], t);
      var rest := Words(s[1..]);
      assert rest == [w[1..]] + Words(t);
      assert Words(s) == [[s[0]] + rest[0]] + rest[1..];
      assert rest[1..] == Words(t);
      assert [s[0]] + w[1..] == w;
    }
  }

  /** A single word reads back as itself. */
  lemma {:induction false} WordsSingle(w: string)
    requires w != [] && NoWhitespace(w)
    ensures Words(w) == [w]
    decreases |w|
  {
    assert !IsWhitespace(w[0]);
    if |w| > 1 {
      WordsSingle(w[1..]);
      assert !IsWhitespace(w[1]);
      var rest := Words(w[1..]);
      assert Words(w) == [[w[0]] + rest[0]] + rest[1..];
      assert [w[0]] + w[1..] == w;
    } else {
      assert w[1..] == [];
      assert Words(w) == [[w[0]]] + Words(w[1..]);
      assert w == [w[0]];
    }
  }

  /** Words joined by single spaces read back as those words. */
  lemma {:induction false} WordsJoin(ws: seq<string>)
    requires forall i | 0 <= i < |ws| :: ws[i] != [] && NoWhitespace(ws[i])
    ensures Words(Join(ws, " ")) == ws
  {
    if |ws| == 1 {
      WordsSingle(ws[0]);
    } else if |ws| > 1 {
      WordsJoin(ws[1..]);
      WordsCons(ws[0], Join(ws[1..], " "));
    }
  }

  /** `s.replace(c, "")`: every occurrence of `c` removed. */
  function RemoveChar(s: string, c: char): (r: string)
    ensures c !in r && |r| <= |s|
    ensures forall i | 0 <= i < |r| :: r[i] in s
  {
    if s == [] then []
    else if s[0] == c then RemoveChar(s[1..], c)
    else [s[0]] + RemoveChar(s[1..], c)
  }

  /** `s.split_once(sep)`: the text before the first `sep` and the text after
      it, or nothing when `sep` does not occur. */
  function SplitOnce(s: string, sep: char): (r: Option<(string, string)>)
    ensures r.None? <==> sep !in s
    ensures r.Some? ==> s == r.value.0 + [sep] + r.value.1 && sep !in r.value.0
  {
    if s == [] then None
    else if s[0] == sep then Some(([], s[1..]))
    else match SplitOnce(s[1..], sep)
      case None => None
      case Some((before, after)) => Some(([s[0]] + before, after))
  }

  /** The split happens at the first `sep`, whatever follows it. */
  lemma {:induction false} SplitOnceFirst(a: string, sep: char, b: string)
    requires sep !in a
    ensures SplitOnce(a + [sep] + b, sep) == Some((a, b))
    decreases |a|
  {
    var s := a + [sep] + b;
    if a == [] {
      assert s[1..] == b;
    } else {
      assert s[1..] == a[1..] + [sep] + b;
      SplitOnceFirst(a[1..], sep, b);
      assert [a[0]] + a[1..] == a;
    }
  }
}
