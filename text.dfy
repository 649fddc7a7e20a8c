/** The pieces of Rust's `str` API that the request handler relies on:
    `trim`, `split_whitespace`, `split` on one character, `replace` of one
    character by nothing, and joining with a separator (what `reduce` with
    `format!("{a}, {b}")` builds). Strings are sequences of Unicode scalar
    values, as Rust's `char`s are. */
module Text {

  /** Rust's `char::is_whitespace`: the Unicode White_Space property. */
  predicate IsWhitespace(c: char)
  {
    var n := c as int;
    (9 <= n <= 13) || n == 0x20 || n == 0x85 || n == 0xA0 || n == 0x1680 ||
    (0x2000 <= n <= 0x200A) || n == 0x2028 || n == 0x2029 || n == 0x202F ||
    n == 0x205F || n == 0x3000
  }

  /** A token of `split_whitespace`: non-empty and free of whitespace. */
  predicate IsToken(s: string)
  {
    s != [] && forall k :: 0 <= k < |s| ==> !IsWhitespace(s[k])
  }

  /** `str::trim_start`: no whitespace left at the front. */
  function TrimStart(s: string): (r: string)
    ensures |r| <= |s|
    ensures r != [] ==> !IsWhitespace(r[0])
    decreases |s|
  {
    if s != [] && IsWhitespace(s[0]) then TrimStart(s[1..]) else s
  }

  /** `str::trim_start` keeps a suffix of `s` and drops only whitespace. */
  lemma {:induction false} TrimStartDrops(s: string)
    ensures var r := TrimStart(s);
      r == s[|s| - |r|..] && forall k :: 0 <= k < |s| - |r| ==> IsWhitespace(s[k])
    decreases |s|
  {
    if s != [] && IsWhitespace(s[0]) {
      TrimStartDrops(s[1..]);
      var r := TrimStart(s);
      assert forall k :: 1 <= k < |s| - |r| ==> s[k] == s[1..][k - 1];
    }
  }

  /** `str::trim_end`: no whitespace left at the back. */
  function TrimEnd(s: string): (r: string)
    ensures |r| <= |s|
    ensures r != [] ==> !IsWhitespace(r[|r| - 1])
    decreases |s|
  {
    if s != [] && IsWhitespace(s[|s| - 1]) then TrimEnd(s[..|s| - 1]) else s
  }

  /** `str::trim_end` keeps a prefix of `s` and drops only whitespace. */
  lemma {:induction false} TrimEndDrops(s: string)
    ensures var r := TrimEnd(s);
      r == s[..|r|] && forall k :: |r| <= k < |s| ==> IsWhitespace(s[k])
    decreases |s|
  {
    if s != [] && IsWhitespace(s[|s| - 1]) {
      TrimEndDrops(s[..|s| - 1]);
      var r := TrimEnd(s);
      assert forall k :: |r| <= k < |s| - 1 ==> s[k] == s[..|s| - 1][k];
    }
  }

  /** `str::trim`: whitespace at neither end. */
  function Trim(s: string): (r: string)
    ensures |r| <= |s|
    ensures r != [] ==> !IsWhitespace(r[0]) && !IsWhitespace(r[|r| - 1])
  {
    TrimEndDrops(TrimStart(s));
    TrimEnd(TrimStart(s))
  }

  /** What `str::trim` cuts away is whitespace at the two ends, and what it
      keeps is the infix of `s` between them. */
  lemma {:induction false} TrimKeepsInfix(s: string)
    ensures var r := Trim(s); var i := |s| - |TrimStart(s)|;
      i + |r| <= |s| && r == s[i..i + |r|] &&
      (forall k :: 0 <= k < i ==> IsWhitespace(s[k])) &&
      (forall k :: i + |r| <= k < |s| ==> IsWhitespace(s[k]))
  {
    var t := TrimStart(s);
    var i := |s| - |t|;
    var r := TrimEnd(t);
    TrimStartDrops(s);
    TrimEndDrops(t);
    assert r == t[..|r|];
    assert t == s[i..];
    assert forall k :: i + |r| <= k < |s| ==> s[k] == t[k - i];
  }

  /** Trimming a line that ends in CR LF gives back the line's text when
      that text has no whitespace at its ends. */
  lemma {:induction false} TrimLineEnd(s: string)
    requires s == [] || (!IsWhitespace(s[0]) && !IsWhitespace(s[|s| - 1]))
    ensures Trim(s + "\r\n") == s
  {
    var t := s + "\r\n";
    assert IsWhitespace('\r') && IsWhitespace('\n');
    if s == [] {
      assert TrimStart(t) == TrimStart("\n") == TrimStart("") == "";
    } else {
      assert t[0] == s[0];
      assert TrimStart(t) == t;
      assert t[..|t| - 1] == s + "\r";
      assert (s + "\r")[..|s|] == s;
      assert TrimEnd(t) == TrimEnd(s + "\r") == TrimEnd(s) == s;
    }
  }

  /** Length of the run of non-whitespace characters that starts `s`. */
  function TokenLength(s: string): (n: nat)
    ensures n <= |s|
    ensures forall k :: 0 <= k < n ==> !IsWhitespace(s[k])
    ensures n < |s| ==> IsWhitespace(s[n])
  {
    if s == [] || IsWhitespace(s[0]) then 0 else 1 + TokenLength(s[1..])
  }

  /** `str::split_whitespace`: the maximal whitespace-free runs of `s`, in
      order; every one of them is a token. */
  function Words(s: string): (r: seq<string>)
    ensures forall i :: 0 <= i < |r| ==> IsToken(r[i])
    decreases |s|
  {
    var t := TrimStart(s);
    if t == [] then []
    else
      var n := TokenLength(t);
      [t[..n]] + Words(t[n..])
  }

  /** Joins `items` with `sep` between neighbours; the empty list joins to
      the empty string. */
  function Join(sep: string, items: seq<string>): (r: string)
    ensures |items| == 1 ==> r == items[0]
    decreases |items|
  {
    if |items| == 0 then ""
    else if |items| == 1 then items[0]
    else items[0] + sep + Join(sep, items[1..])
  }

  /** Tokens joined by single spaces split back into the same tokens. */
  lemma {:induction false} WordsOfJoin(ws: seq<string>)
    requires forall i :: 0 <= i < |ws| ==> IsToken(ws[i])
    ensures Words(Join(" ", ws)) == ws
    decreases |ws|
  {
    if |ws| == 0 {
      assert Words("") == [];
    } else if |ws| == 1 {
      var w := ws[0];
      assert Join(" ", ws) == w;
      assert w + "" == w;
      WordsOfTokenThen(w, "");
      assert Words("") == [];
      assert ws == [w];
    } else {
      var rest := Join(" ", ws[1..]);
      assert Join(" ", ws) == ws[0] + (" " + rest);
      assert IsWhitespace((" " + rest)[0]);
      WordsOfTokenThen(ws[0], " " + rest);
      WordsSkipSpace(rest);
      WordsOfJoin(ws[1..]);
      assert ws == [ws[0]] + ws[1..];
    }
  }

  /** A token followed by whitespace (or by nothing) is the first word. */
  lemma {:induction false} WordsOfTokenThen(w: string, rest: string)
    requires IsToken(w)
    requires rest == [] || IsWhitespace(rest[0])
    ensures Words(w + rest) == [w] + Words(rest)
  {
    var s := w + rest;
    assert s[0] == w[0];
    assert TrimStart(s) == s;
    var n := TokenLength(s);
    assert forall k :: 0 <= k < |w| ==> !IsWhitespace(s[k]);
    if rest != [] {
      assert IsWhitespace(s[|w|]);
    }
    assert n == |w|;
    assert s[..n] == w && s[n..] == rest;
  }

  /** A leading space does not change the words. */
  lemma {:induction false} WordsSkipSpace(rest: string)
    ensures Words(" " + rest) == Words(rest)
  {
    assert (" " + rest)[1..] == rest;
    assert TrimStart(" " + rest) == TrimStart(rest);
  }

  /** A string made only of whitespace (possibly empty). */
  predicate AllWhitespace(s: string)
  {
    forall k :: 0 <= k < |s| ==> IsWhitespace(s[k])
  }

  /** The tokens `ws` each followed by its gap `gaps[i]`. */
  function Spaced(ws: seq<string>, gaps: seq<string>): string
    requires |gaps| == |ws|
    decreases |ws|
  {
    if ws == [] then "" else ws[0] + gaps[0] + Spaced(ws[1..], gaps[1..])
  }

  /** Gaps that keep tokens apart: each one is whitespace, and every gap
      but the last is non-empty. */
  predicate Separates(ws: seq<string>, gaps: seq<string>)
  {
    |gaps| == |ws| &&
    (forall i :: 0 <= i < |gaps| ==> AllWhitespace(gaps[i])) &&
    (forall i :: 0 <= i < |gaps| - 1 ==> gaps[i] != [])
  }

  /** Leading whitespace does not change the words. */
  lemma {:induction false} WordsSkipWhitespace(lead: string, rest: string)
    requires AllWhitespace(lead)
    ensures Words(lead + rest) == Words(rest)
    decreases |lead|
  {
    if lead != [] {
      var s := lead + rest;
      assert s[0] == lead[0];
      assert s[1..] == lead[1..] + rest;
      WordsSkipWhitespace(lead[1..], rest);
      assert TrimStart(s) == TrimStart(lead[1..] + rest);
      assert Words(lead[1..] + rest) == Words(rest);
    } else {
      assert lead + rest == rest;
    }
  }

  /** `split_whitespace` gives back the tokens of any string that is
      whitespace, then tokens kept apart by runs of whitespace of any
      length and kind (spaces, tabs, CR, LF, ...). */
  lemma {:induction false} WordsOfSpaced(lead: string, ws: seq<string>, gaps: seq<string>)
    requires AllWhitespace(lead)
    requires forall i :: 0 <= i < |ws| ==> IsToken(ws[i])
    requires Separates(ws, gaps)
    ensures Words(lead + Spaced(ws, gaps)) == ws
    decreases |ws|
  {
    WordsSkipWhitespace(lead, Spaced(ws, gaps));
    if ws == [] {
      assert Words("") == [];
    } else {
      var tail := Spaced(ws[1..], gaps[1..]);
      var rest := gaps[0] + tail;
      assert Spaced(ws, gaps) == ws[0] + rest;
      if gaps[0] == [] {
        assert ws[1..] == [];
        assert rest == [];
      } else {
        assert rest[0] == gaps[0][0];
      }
      WordsOfTokenThen(ws[0], rest);
      assert Separates(ws[1..], gaps[1..]) by {
        assert forall i :: 0 <= i < |gaps| - 1 ==> gaps[1..][i] == gaps[i + 1];
      }
      WordsOfSpaced(gaps[0], ws[1..], gaps[1..]);
      assert ws == [ws[0]] + ws[1..];
    }
  }

  /** A string is its prefix followed by the matching suffix. */
  lemma {:induction false} SliceJoin(s: string, i: nat)
    requires i <= |s|
    ensures s == s[..i] + s[i..]
  {
  }

  /** Tokens laid out with their gaps start with the first token's first
      character. */
  lemma {:induction false} SpacedStart(ws: seq<string>, gaps: seq<string>)
    requires |gaps| == |ws| && ws != [] && ws[0] != []
    ensures Spaced(ws, gaps) != [] && Spaced(ws, gaps)[0] == ws[0][0]
  {
    assert Spaced(ws, gaps) == ws[0] + (gaps[0] + Spaced(ws[1..], gaps[1..]));
  }

  /** A token and a gap put in front of a layout give a layout. */
  lemma {:induction false} SpacedCons(w: string, gap: string, ws: seq<string>, gaps: seq<string>)
    requires IsToken(w) && AllWhitespace(gap) && Separates(ws, gaps)
    requires ws != [] ==> gap != []
    ensures Separates([w] + ws, [gap] + gaps)
    ensures Spaced([w] + ws, [gap] + gaps) == w + gap + Spaced(ws, gaps)
  {
    assert ([w] + ws)[1..] == ws && ([gap] + gaps)[1..] == gaps;
    assert forall i :: 1 <= i < |gaps| + 1 ==> ([gap] + gaps)[i] == gaps[i - 1];
  }

  /** Text that starts with whitespace and is laid out with words has a
      non-empty gap in front of its first word. */
  lemma {:induction false} GapBeforeWord(u: string, gap: string, ws: seq<string>, gaps: seq<string>)
    requires |gaps| == |ws| && (forall i :: 0 <= i < |ws| ==> IsToken(ws[i]))
    requires u == gap + Spaced(ws, gaps)
    requires u == [] || IsWhitespace(u[0])
    ensures ws != [] ==> gap != []
  {
    if ws != [] {
      SpacedStart(ws, gaps);
      assert u[|gap|] == Spaced(ws, gaps)[0];
    }
  }

  /** `trim_start` splits a string into whitespace and what it keeps. */
  lemma {:induction false} TrimStartSplits(s: string)
    ensures var t := TrimStart(s); AllWhitespace(s[..|s| - |t|]) && s == s[..|s| - |t|] + t
  {
    var t := TrimStart(s);
    TrimStartDrops(s);
    var lead := s[..|s| - |t|];
    assert forall k :: 0 <= k < |lead| ==> lead[k] == s[k];
    SliceJoin(s, |s| - |t|);
  }

  /** A token, then text laid out with words behind a gap, is laid out
      with one word more. */
  lemma {:induction false} LayoutStep(lead: string, w: string, u: string, gap: string,
                                      ws: seq<string>, gaps: seq<string>)
    requires IsToken(w) && AllWhitespace(gap) && Separates(ws, gaps) && (ws != [] ==> gap != [])
    requires u == gap + Spaced(ws, gaps)
    ensures Separates([w] + ws, [gap] + gaps)
    ensures lead + (w + u) == lead + Spaced([w] + ws, [gap] + gaps)
  {
    SpacedCons(w, gap, ws, gaps);
    var sp := Spaced(ws, gaps);
    assert w + gap + sp == w + (gap + sp);
  }

  /** Every string is laid out as whitespace, then its words kept apart by
      whitespace runs: with `WordsOfSpaced`, this pins `Words(s)` down as
      the one list of tokens such a layout of `s` has. */
  lemma {:induction false} WordsLayout(s: string) returns (lead: string, gaps: seq<string>)
    ensures AllWhitespace(lead) && Separates(Words(s), gaps)
    ensures s == lead + Spaced(Words(s), gaps)
    decreases |s|
  {
    var t := TrimStart(s);
    TrimStartSplits(s);
    lead := s[..|s| - |t|];
    if t == [] {
      gaps := [];
      assert Words(s) == [];
    } else {
      var n := TokenLength(t);
      var w := t[..n];
      var u := t[n..];
      SliceJoin(t, n);
      assert Words(s) == [w] + Words(u);
      var gap, rest := WordsLayout(u);
      GapBeforeWord(u, gap, Words(u), rest);
      LayoutStep(lead, w, u, gap, Words(u), rest);
      gaps := [gap] + rest;
    }
  }

  /** A join of tokens starts with the first token. */
  lemma {:induction false} JoinStartsWith(sep: string, items: seq<string>)
    requires |items| >= 1
    ensures |Join(sep, items)| >= |items[0]| && Join(sep, items)[..|items[0]|] == items[0]
  {
    if |items| > 1 {
      assert Join(sep, items) == items[0] + (sep + Join(sep, items[1..]));
    }
  }

  /** Tokens joined by spaces have no whitespace at either end. */
  lemma {:induction false} JoinOfTokensTrimmed(ws: seq<string>)
    requires |ws| >= 1
    requires forall i :: 0 <= i < |ws| ==> IsToken(ws[i])
    ensures var j := Join(" ", ws); j != [] && !IsWhitespace(j[0]) && !IsWhitespace(j[|j| - 1])
    decreases |ws|
  {
    JoinStartsWith(" ", ws);
    assert Join(" ", ws)[0] == Join(" ", ws)[..|ws[0]|][0];
    if |ws| > 1 {
      JoinOfTokensTrimmed(ws[1..]);
      var rest := Join(" ", ws[1..]);
      assert Join(" ", ws) == (ws[0] + " ") + rest;
    }
  }

  /** Index of the first `c` in `s`, or `|s|` when there is none. */
  function IndexOf(s: string, c: char): (i: nat)
    ensures i <= |s|
    ensures i < |s| ==> s[i] == c
    ensures forall k :: 0 <= k < i ==> s[k] != c
  {
    if s == [] then 0 else if s[0] == c then 0 else 1 + IndexOf(s[1..], c)
  }

  /** `str::split` on one character: the pieces between consecutive
      occurrences of `sep`, none of which holds `sep`; there are two or
      more exactly when `s` holds a separator. */
  function Split(s: string, sep: char): (r: seq<string>)
    ensures |r| >= 1
    ensures forall i :: 0 <= i < |r| ==> sep !in r[i]
    ensures |r| >= 2 <==> sep in s
    decreases |s|
  {
    if s == [] then [""]
    else
      assert s == [s[0]] + s[1..];
      var rest := Split(s[1..], sep);
      if s[0] == sep then [""] + rest
      else [[s[0]] + rest[0]] + rest[1..]
  }

  /** Joining the pieces with `sep` gives the string back. */
  lemma {:induction false} JoinOfSplit(s: string, sep: char)
    ensures Join([sep], Split(s, sep)) == s
    decreases |s|
  {
    if s != [] {
      var rest := Split(s[1..], sep);
      JoinOfSplit(s[1..], sep);
      assert s == [s[0]] + s[1..];
      if s[0] == sep {
        assert ([""] + rest)[1..] == rest;
      } else if |rest| > 1 {
        var r := [[s[0]] + rest[0]] + rest[1..];
        assert r[1..] == rest[1..];
        assert Join([sep], rest) == rest[0] + [sep] + Join([sep], rest[1..]);
      }
    }
  }

  /** There is one more piece than there are separators. */
  lemma {:induction false} SplitCount(s: string, sep: char)
    ensures |Split(s, sep)| == multiset(s)[sep] + 1
    decreases |s|
  {
    if s != [] {
      SplitCount(s[1..], sep);
      assert s == [s[0]] + s[1..];
      assert multiset(s) == multiset{s[0]} + multiset(s[1..]);
    }
  }

  /** Splitting stops at the first separator. */
  lemma {:induction false} SplitFirst(a: string, b: string, sep: char)
    requires sep !in a
    ensures Split(a + ([sep] + b), sep) == [a] + Split(b, sep)
    decreases |a|
  {
    var s := a + ([sep] + b);
    if a == [] {
      assert s == [sep] + b;
      assert s[1..] == b;
    } else {
      assert s[1..] == a[1..] + ([sep] + b);
      SplitFirst(a[1..], b, sep);
      assert [a[0]] + a[1..] == a;
    }
  }

  /** A string without the separator is one piece. */
  lemma {:induction false} SplitNone(a: string, sep: char)
    requires sep !in a
    ensures Split(a, sep) == [a]
    decreases |a|
  {
    if a != [] {
      SplitNone(a[1..], sep);
      assert [a[0]] + a[1..] == a;
    }
  }

  /** The first two pieces of `a`, `sep`, `b`, then nothing or a further
      separator and more, are `a` and `b`. */
  lemma {:induction false} SplitFirstTwo(a: string, b: string, more: string, sep: char)
    requires sep !in a && sep !in b
    requires more == [] || more[0] == sep
    ensures var r := Split(a + ([sep] + (b + more)), sep); |r| >= 2 && r[0] == a && r[1] == b
  {
    SplitFirst(a, b + more, sep);
    if more == [] {
      assert b + more == b;
      SplitNone(b, sep);
    } else {
      var rest := more[1..];
      assert more == [sep] + rest;
      SplitFirst(b, rest, sep);
    }
  }

  /** Splitting the join of separator-free pieces gives back the pieces. */
  lemma {:induction false} SplitOfJoin(items: seq<string>, sep: char)
    requires |items| >= 1
    requires forall i :: 0 <= i < |items| ==> sep !in items[i]
    ensures Split(Join([sep], items), sep) == items
    decreases |items|
  {
    if |items| == 1 {
      SplitNone(items[0], sep);
    } else {
      var rest := Join([sep], items[1..]);
      assert Join([sep], items) == items[0] + ([sep] + rest);
      SplitFirst(items[0], rest, sep);
      SplitOfJoin(items[1..], sep);
      assert [items[0]] + items[1..] == items;
    }
  }

  /** `str::replace` of the one-character string `c` by "": no `c` is
      left and nothing is added. */
  function RemoveAll(s: string, c: char): (r: string)
    ensures c !in r
    ensures |r| <= |s|
    decreases |s|
  {
    if s == [] then ""
    else (if s[0] == c then "" else [s[0]]) + RemoveAll(s[1..], c)
  }

  /** Every `c` is removed and every other character keeps its count. */
  lemma {:induction false} RemoveAllCounts(s: string, c: char)
    ensures multiset(RemoveAll(s, c)) == multiset(s)[c := 0]
    decreases |s|
  {
    if s != [] {
      RemoveAllCounts(s[1..], c);
      assert s == [s[0]] + s[1..];
      assert multiset(s) == multiset{s[0]} + multiset(s[1..]);
    }
  }

  /** Characters other than `c` survive the removal. */
  lemma {:induction false} RemoveAllKeeps(s: string, c: char, d: char)
    requires d != c
    ensures d in RemoveAll(s, c) <==> d in s
  {
    RemoveAllCounts(s, c);
    assert multiset(RemoveAll(s, c))[d] == multiset(s)[d];
  }

  /** Removal works piecewise, so the characters kept stay in order. */
  lemma {:induction false} RemoveAllAppend(a: string, b: string, c: char)
    ensures RemoveAll(a + b, c) == RemoveAll(a, c) + RemoveAll(b, c)
    decreases |a|
  {
    if a == [] {
      assert a + b == b;
    } else {
      assert (a + b)[1..] == a[1..] + b;
      RemoveAllAppend(a[1..], b, c);
    }
  }

  /** A string without `c` is left as it is. */
  lemma {:induction false} RemoveAllAbsent(s: string, c: char)
    requires c !in s
    ensures RemoveAll(s, c) == s
    decreases |s|
  {
    if s != [] {
      RemoveAllAbsent(s[1..], c);
    }
  }

  /** Rust's `str::len`: the number of bytes of the UTF-8 encoding. */
  function Utf8Length(s: string): (n: nat)
    ensures |s| <= n <= 4 * |s|
  {
    if s == [] then 0 else Utf8Width(s[0]) + Utf8Length(s[1..])
  }

  /** Bytes UTF-8 spends on one scalar value. */
  function Utf8Width(c: char): (w: nat)
    ensures 1 <= w <= 4
    ensures w == 1 <==> (c as int) < 0x80
  {
    var n := c as int;
    if n < 0x80 then 1 else if n < 0x800 then 2 else if n < 0x1_0000 then 3 else 4
  }

  /** For ASCII text the byte length is the character count. */
  lemma {:induction false} AsciiUtf8Length(s: string)
    requires forall k :: 0 <= k < |s| ==> (s[k] as int) < 0x80
    ensures Utf8Length(s) == |s|
    decreases |s|
  {
    if s != [] {
      AsciiUtf8Length(s[1..]);
    }
  }
}
