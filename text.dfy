/**
 * The string primitives the grammar engine relies on: Rust's `char::is_whitespace`,
 * `str::trim`, `str::split("|")`, `str::split_whitespace`, and the first-letter
 * capitalisation of a generated sentence.
 */
module Text {

  /** Rust's `char::is_whitespace`: the Unicode White_Space property. */
  predicate IsWhitespace(c: char)
  {
    || c == ' ' || c == '\t' || c == '\n' || c == '\r'
    || c == '\U{000B}' || c == '\U{000C}' || c == '\U{0085}' || c == '\U{00A0}'
    || c == '\U{1680}' || ('\U{2000}' <= c <= '\U{200A}')
    || c == '\U{2028}' || c == '\U{2029}' || c == '\U{202F}' || c == '\U{205F}'
    || c == '\U{3000}'
  }

  /** A string with no whitespace character in it. */
  predicate NoWhitespace(s: string)
  {
    forall i :: 0 <= i < |s| ==> !IsWhitespace(s[i])
  }

  /** The characters of `s` that are not whitespace, in order. */
  function NonWhitespace(s: string): string
  {
    if s == [] then []
    else if IsWhitespace(s[0]) then NonWhitespace(s[1..])
    else [s[0]] + NonWhitespace(s[1..])
  }

  lemma {:induction false} NonWhitespaceAppend(a: string, b: string)
    ensures NonWhitespace(a + b) == NonWhitespace(a) + NonWhitespace(b)
  {
    if a == [] {
      assert a + b == b;
    } else {
      assert (a + b)[1..] == a[1..] + b;
      NonWhitespaceAppend(a[1..], b);
    }
  }

  lemma {:induction false} NonWhitespaceOfWord(w: string)
    requires NoWhitespace(w)
    ensures NonWhitespace(w) == w
  {
    if w != [] {
      NonWhitespaceOfWord(w[1..]);
    }
  }

  /** `t` occurs in `s` as a run of consecutive characters. */
  predicate Occurs(t: string, s: string)
  {
    exists i :: 0 <= i <= |s| && t <= s[i..]
  }

  /** `str::trim_start`: drops the leading whitespace. */
  function TrimStart(s: string): (r: string)
    ensures |r| <= |s| && r == s[|s| - |r|..]
    ensures forall i :: 0 <= i < |s| - |r| ==> IsWhitespace(s[i])
    ensures r != [] ==> !IsWhitespace(r[0])
  {
    if s != [] && IsWhitespace(s[0]) then TrimStart(s[1..]) else s
  }

  /** `str::trim_end`: drops the trailing whitespace. */
  function TrimEnd(s: string): (r: string)
    ensures |r| <= |s| && r == s[..|r|]
    ensures forall i :: |r| <= i < |s| ==> IsWhitespace(s[i])
    ensures r != [] ==> !IsWhitespace(r[|r| - 1])
  {
    if s != [] && IsWhitespace(s[|s| - 1]) then TrimEnd(s[..|s| - 1]) else s
  }

  /**
   * `str::trim`: the slice of `s` left after removing leading and trailing
   * whitespace. The result neither starts nor ends with whitespace, and it loses
   * no other character (`TrimContent`).
   */
  function Trim(s: string): (r: string)
    ensures |r| <= |s|
    ensures Occurs(r, s)
    ensures r != [] ==> !IsWhitespace(r[0]) && !IsWhitespace(r[|r| - 1])
  {
    var t := TrimStart(s);
    var r := TrimEnd(t);
    assert r <= s[|s| - |t|..];
    r
  }

  /** Trimming loses no visible character. */
  lemma TrimContent(s: string)
    ensures NonWhitespace(Trim(s)) == NonWhitespace(s)
  {
    TrimStartContent(s);
    TrimEndContent(TrimStart(s));
  }

  lemma {:induction false} TrimStartContent(s: string)
    ensures NonWhitespace(TrimStart(s)) == NonWhitespace(s)
  {
    if s != [] && IsWhitespace(s[0]) {
      TrimStartContent(s[1..]);
    }
  }

  lemma {:induction false} TrimEndContent(s: string)
    ensures NonWhitespace(TrimEnd(s)) == NonWhitespace(s)
  {
    if s != [] && IsWhitespace(s[|s| - 1]) {
      var init := s[..|s| - 1];
      TrimEndContent(init);
      assert s == init + [s[|s| - 1]];
      NonWhitespaceAppend(init, [s[|s| - 1]]);
    }
  }

  /** Trimming a whitespace-free string gives it back unchanged. */
  lemma TrimWord(w: string)
    requires NoWhitespace(w)
    ensures Trim(w) == w
  {
    if w != [] {
      assert TrimStart(w) == w;
      assert TrimEnd(w) == w;
    }
  }

  /** The number of occurrences of `c` in `s`. */
  function Count(s: string, c: char): nat
  {
    if s == [] then 0 else (if s[0] == c then 1 else 0) + Count(s[1..], c)
  }

  /**
   * `str::split(sep)` for a one-character separator: the pieces between the
   * separators, in order. There is always one piece more than there are separators.
   */
  function Split(s: string, sep: char): (r: seq<string>)
    ensures |r| == Count(s, sep) + 1
    ensures forall i :: 0 <= i < |r| ==> sep !in r[i]
  {
    if s == [] then [""]
    else
      var rest := Split(s[1..], sep);
      if s[0] == sep then [""] + rest
      else [[s[0]] + rest[0]] + rest[1..]
  }

  /** The pieces joined back together with `sep` between consecutive ones. */
  function Join(pieces: seq<string>, sep: char): string
  {
    if pieces == [] then ""
    else if |pieces| == 1 then pieces[0]
    else pieces[0] + [sep] + Join(pieces[1..], sep)
  }

  /** Splitting loses nothing: joining the pieces restores the input. */
  lemma {:induction false} JoinSplit(s: string, sep: char)
    ensures Join(Split(s, sep), sep) == s
  {
    if s != [] {
      var rest := Split(s[1..], sep);
      JoinSplit(s[1..], sep);
      if s[0] == sep {
        assert Split(s, sep) == [""] + rest;
      } else {
        var r := [[s[0]] + rest[0]] + rest[1..];
        assert Split(s, sep) == r;
        if |rest| > 1 {
          assert r[1..] == rest[1..];
        }
      }
    }
  }

  /** The length of the longest whitespace-free prefix of `s`. */
  function WordLength(s: string): (k: nat)
    ensures k <= |s|
    ensures NoWhitespace(s[..k])
    ensures k < |s| ==> IsWhitespace(s[k])
  {
    if s == [] || IsWhitespace(s[0]) then 0 else 1 + WordLength(s[1..])
  }

  /**
   * `str::split_whitespace`: the maximal runs of non-whitespace characters, in
   * order. Every token is non-empty and contains no whitespace.
   */
  function SplitWhitespace(s: string): (r: seq<string>)
    ensures forall i :: 0 <= i < |r| ==> r[i] != [] && NoWhitespace(r[i])
    decreases |s|
  {
    if s == [] then []
    else if IsWhitespace(s[0]) then SplitWhitespace(s[1..])
    else
      var k := WordLength(s);
      [s[..k]] + SplitWhitespace(s[k..])
  }

  /** The strings concatenated. */
  function Concat(ss: seq<string>): string
  {
    if ss == [] then "" else ss[0] + Concat(ss[1..])
  }

  /** Tokenising keeps every non-whitespace character, in source order, and nothing else. */
  lemma {:induction false} SplitWhitespaceContent(s: string)
    ensures Concat(SplitWhitespace(s)) == NonWhitespace(s)
    decreases |s|
  {
    if s != [] {
      if IsWhitespace(s[0]) {
        SplitWhitespaceContent(s[1..]);
      } else {
        var k := WordLength(s);
        SplitWhitespaceContent(s[k..]);
        assert s == s[..k] + s[k..];
        NonWhitespaceAppend(s[..k], s[k..]);
        NonWhitespaceOfWord(s[..k]);
        assert SplitWhitespace(s)[1..] == SplitWhitespace(s[k..]);
      }
    }
  }

  /** Each token preceded by one space: the shape of a generated text. */
  function Spaced(ts: seq<string>): string
  {
    if ts == [] then "" else " " + ts[0] + Spaced(ts[1..])
  }

  /** Tokenising a space-separated sequence of tokens gives the tokens back. */
  lemma {:induction false} SplitWhitespaceSpaced(ts: seq<string>)
    requires forall i :: 0 <= i < |ts| ==> ts[i] != [] && NoWhitespace(ts[i])
    ensures SplitWhitespace(Spaced(ts)) == ts
  {
    if ts != [] {
      var w, rest := ts[0], Spaced(ts[1..]);
      SplitWhitespaceSpaced(ts[1..]);
      var s := " " + w + rest;
      assert s[1..] == w + rest;
      assert rest != [] ==> rest[0] == ' ';
      WordPrefix(w, rest);
      assert (w + rest)[..|w|] == w && (w + rest)[|w|..] == rest;
    }
  }

  /** A single word is tokenised into itself. */
  lemma SplitWhitespaceWord(w: string)
    requires w != [] && NoWhitespace(w)
    ensures SplitWhitespace(w) == [w]
  {
    WordPrefix(w, "");
    assert w + "" == w;
  }

  /**
   * A whitespace character always ends a token: tokenising text with a whitespace
   * character in it is tokenising each side separately. With `SplitWhitespaceWord`
   * this pins the tokens down as the maximal runs of non-whitespace characters.
   */
  lemma {:induction false} SplitWhitespaceSeparated(a: string, c: char, b: string)
    requires IsWhitespace(c)
    ensures SplitWhitespace(a + [c] + b) == SplitWhitespace(a) + SplitWhitespace(b)
    decreases |a|
  {
    var s := a + [c] + b;
    if a == [] {
      assert s == [c] + b && s[1..] == b;
    } else if IsWhitespace(a[0]) {
      assert s[0] == a[0] && s[1..] == a[1..] + [c] + b;
      SplitWhitespaceSeparated(a[1..], c, b);
    } else {
      var k := WordLength(a);
      var rest := a[k..] + [c] + b;
      assert s == a[..k] + rest;
      assert rest[0] == (if k < |a| then a[k] else c);
      WordPrefix(a[..k], rest);
      assert s[..k] == a[..k] && s[k..] == rest;
      SplitWhitespaceSeparated(a[k..], c, b);
      assert SplitWhitespace(a) == [a[..k]] + SplitWhitespace(a[k..]);
    }
  }

  lemma {:induction false} WordPrefix(w: string, rest: string)
    requires NoWhitespace(w)
    requires rest != [] ==> IsWhitespace(rest[0])
    ensures WordLength(w + rest) == |w|
  {
    if w != [] {
      assert (w + rest)[1..] == w[1..] + rest;
      WordPrefix(w[1..], rest);
    }
  }

  /** ASCII upper-casing of one character; every other character is left as it is. */
  function ToUpper(c: char): (u: char)
    ensures !('a' <= u <= 'z')
    ensures !('a' <= c <= 'z') ==> u == c
    ensures 'a' <= c <= 'z' ==> 'A' <= u <= 'Z' && u as int - 'A' as int == c as int - 'a' as int
  {
    if 'a' <= c <= 'z' then (c as int - 'a' as int + 'A' as int) as char else c
  }

  /**
   * Upper-cases the first character and leaves the rest untouched: the result
   * never starts with a lower-case ASCII letter.
   */
  function Capitalize(s: string): (r: string)
    ensures |r| == |s|
    ensures s != [] ==> r[0] == ToUpper(s[0]) && r[1..] == s[1..]
    ensures s != [] ==> !('a' <= r[0] <= 'z')
  {
    if s == [] then [] else [ToUpper(s[0])] + s[1..]
  }

  /** Capitalising a second time changes nothing. */
  lemma CapitalizeIdempotent(s: string)
    ensures Capitalize(Capitalize(s)) == Capitalize(s)
  {
    if s != [] {
      var r := Capitalize(s);
      assert ToUpper(r[0]) == r[0];
      assert Capitalize(r) == [ToUpper(r[0])] + r[1..];
      assert r == [r[0]] + r[1..];
    }
  }
}
