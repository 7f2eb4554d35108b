/** `str::split_whitespace`: a line cut into its maximal runs of
    non-whitespace characters. Whitespace is Unicode's White_Space property,
    which is what Rust's `char::is_whitespace` tests. */
module Tokenizer {

  predicate IsWhitespace(c: char) {
    || '\t' <= c <= '\r'
    || c == ' '
    || c == '\U{0085}'
    || c == '\U{00A0}'
    || c == '\U{1680}'
    || '\U{2000}' <= c <= '\U{200A}'
    || c == '\U{2028}'
    || c == '\U{2029}'
    || c == '\U{202F}'
    || c == '\U{205F}'
    || c == '\U{3000}'
  }

  /** What a token of `split_whitespace` looks like: non-empty, no whitespace. */
  predicate IsToken(w: string) {
    |w| > 0 && forall i :: 0 <= i < |w| ==> !IsWhitespace(w[i])
  }

  /** The characters of `s` that are not whitespace, in order. */
  function Visible(s: string): string {
    if |s| == 0 then ""
    else (if IsWhitespace(s[0]) then "" else [s[0]]) + Visible(s[1..])
  }

  function Concat(ts: seq<string>): string {
    if |ts| == 0 then "" else ts[0] + Concat(ts[1..])
  }

  /** The tokens written out with one space between neighbours. */
  function Join(ts: seq<string>): string {
    if |ts| == 0 then ""
    else if |ts| == 1 then ts[0]
    else ts[0] + ([' '] + Join(ts[1..]))
  }

  /** `s` without its leading whitespace. */
  function SkipSpace(s: string): (t: string)
    ensures |t| <= |s|
    ensures |t| == 0 || !IsWhitespace(t[0])
  {
    if |s| > 0 && IsWhitespace(s[0]) then SkipSpace(s[1..]) else s
  }

  /** What `SkipSpace` drops is a run of whitespace at the front: the rest is
      a suffix with the same visible characters. */
  lemma {:induction false} SkipSpaceSpec(s: string)
    ensures SkipSpace(s) == s[|s| - |SkipSpace(s)|..]
    ensures forall i :: 0 <= i < |s| - |SkipSpace(s)| ==> IsWhitespace(s[i])
    ensures Visible(SkipSpace(s)) == Visible(s)
    decreases |s|
  {
    if |s| > 0 && IsWhitespace(s[0]) {
      var t := SkipSpace(s[1..]);
      SkipSpaceSpec(s[1..]);
      assert SkipSpace(s) == t;
      assert s[1..][|s| - 1 - |t|..] == s[|s| - |t|..];
      forall i | 0 <= i < |s| - |t| ensures IsWhitespace(s[i]) {
        if i > 0 {
          assert s[i] == s[1..][i - 1];
        }
      }
      assert Visible(s) == Visible(s[1..]);
    }
  }

  /** The length of the run of non-whitespace characters that starts `s`. */
  function WordLength(s: string): (n: nat)
    ensures n <= |s|
  {
    if |s| == 0 || IsWhitespace(s[0]) then 0 else 1 + WordLength(s[1..])
  }

  /** A word runs up to the first whitespace character, or to the end. */
  lemma {:induction false} WordLengthSpec(s: string)
    ensures forall i :: 0 <= i < WordLength(s) ==> !IsWhitespace(s[i])
    ensures WordLength(s) == |s| || IsWhitespace(s[WordLength(s)])
    decreases |s|
  {
    if |s| > 0 && !IsWhitespace(s[0]) {
      var n := WordLength(s[1..]);
      WordLengthSpec(s[1..]);
      assert WordLength(s) == n + 1;
      forall i | 0 <= i < n + 1 ensures !IsWhitespace(s[i]) {
        if i > 0 {
          assert s[i] == s[1..][i - 1];
        }
      }
      if n < |s| - 1 {
        assert s[n + 1] == s[1..][n];
      }
    }
  }

  lemma {:induction false} VisibleAppend(a: string, b: string)
    ensures Visible(a + b) == Visible(a) + Visible(b)
  {
    if |a| > 0 {
      var head: string := if IsWhitespace(a[0]) then "" else [a[0]];
      assert (a + b)[0] == a[0];
      assert (a + b)[1..] == a[1..] + b;
      VisibleAppend(a[1..], b);
      assert Visible(a + b) == head + Visible((a + b)[1..]);
      assert Visible(a + b) == head + (Visible(a[1..]) + Visible(b));
      assert Visible(a) == head + Visible(a[1..]);
    } else {
      assert a + b == b;
    }
  }

  lemma {:induction false} VisibleToken(w: string)
    requires forall i :: 0 <= i < |w| ==> !IsWhitespace(w[i])
    ensures Visible(w) == w
  {
    if |w| > 0 {
      VisibleToken(w[1..]);
      assert w == [w[0]] + w[1..];
    }
  }

  /** The maximal runs of non-whitespace characters, in order. */
  function SplitWhitespace(s: string): seq<string>
    decreases |s|
  {
    var t := SkipSpace(s);
    if |t| == 0 then []
    else
      var n := WordLength(t);
      [t[..n]] + SplitWhitespace(t[n..])
  }

  /** Tokens are non-empty and free of whitespace, and together they hold
      exactly the line's non-whitespace characters, in order. */
  lemma {:induction false} SplitWhitespaceSpec(s: string)
    ensures forall i :: 0 <= i < |SplitWhitespace(s)| ==> IsToken(SplitWhitespace(s)[i])
    ensures Concat(SplitWhitespace(s)) == Visible(s)
    decreases |s|
  {
    var t := SkipSpace(s);
    SkipSpaceSpec(s);
    if |t| > 0 {
      var n := WordLength(t);
      WordLengthSpec(t);
      var rest := SplitWhitespace(t[n..]);
      SplitWhitespaceSpec(t[n..]);
      var w := t[..n];
      PrefixToken(t, n);
      ConsTokens(w, rest);
      assert w + t[n..] == t;
      ConsConcat(w, t[n..], rest);
      assert SplitWhitespace(s) == [w] + rest;
    }
  }

  lemma PrefixToken(t: string, n: nat)
    requires 0 < n <= |t|
    requires forall i :: 0 <= i < n ==> !IsWhitespace(t[i])
    ensures IsToken(t[..n])
  {
    forall i | 0 <= i < n ensures !IsWhitespace(t[..n][i]) {
      assert t[..n][i] == t[i];
    }
  }

  lemma ConsTokens(w: string, rest: seq<string>)
    requires IsToken(w)
    requires forall i :: 0 <= i < |rest| ==> IsToken(rest[i])
    ensures forall i :: 0 <= i < |rest| + 1 ==> IsToken(([w] + rest)[i])
  {
    forall i | 0 <= i < |rest| + 1 ensures IsToken(([w] + rest)[i]) {
      if i > 0 {
        assert ([w] + rest)[i] == rest[i - 1];
      }
    }
  }

  lemma ConsConcat(w: string, tail: string, rest: seq<string>)
    requires IsToken(w) && Concat(rest) == Visible(tail)
    ensures Concat([w] + rest) == Visible(w + tail)
  {
    var ts := [w] + rest;
    assert ts[0] == w && ts[1..] == rest;
    assert Concat(ts) == w + Concat(rest);
    VisibleToken(w);
    VisibleAppend(w, tail);
  }

  /** A line is blank, and splits into nothing, exactly when every character
      is whitespace. */
  lemma BlankLine(s: string)
    ensures SplitWhitespace(s) == [] <==> Visible(s) == ""
  {
    var ts := SplitWhitespace(s);
    SplitWhitespaceSpec(s);
    if ts != [] {
      assert Concat(ts) == ts[0] + Concat(ts[1..]);
      assert IsToken(ts[0]);
    }
  }

  /** Splitting tokens joined by single spaces gives the tokens back. */
  lemma {:induction false} SplitJoin(ts: seq<string>)
    requires forall i :: 0 <= i < |ts| ==> IsToken(ts[i])
    ensures SplitWhitespace(Join(ts)) == ts
  {
    if |ts| == 1 {
      SplitAlone(ts[0]);
      assert Join(ts) == ts[0] && ts == [ts[0]];
    } else if |ts| > 1 {
      var rest := ts[1..];
      forall i | 0 <= i < |rest| ensures IsToken(rest[i]) {
        assert rest[i] == ts[i + 1];
      }
      SplitJoin(rest);
      SplitCons(ts);
    }
  }

  lemma SplitCons(ts: seq<string>)
    requires |ts| > 1 && IsToken(ts[0])
    requires SplitWhitespace(Join(ts[1..])) == ts[1..]
    ensures SplitWhitespace(Join(ts)) == ts
  {
    var w, j := ts[0], Join(ts[1..]);
    assert Join(ts) == w + (" " + j);
    SplitSpaced(w, j);
    assert [w] + ts[1..] == ts;
  }

  /** A token, a space, then more text: the token comes first. */
  lemma SplitSpaced(w: string, j: string)
    requires IsToken(w)
    ensures SplitWhitespace(w + (" " + j)) == [w] + SplitWhitespace(j)
  {
    SplitWord(w, " " + j);
    SplitSpace(j);
  }

  lemma SplitAlone(w: string)
    requires IsToken(w)
    ensures SplitWhitespace(w) == [w]
  {
    assert w + "" == w;
    assert SplitWhitespace("") == [];
    SplitWord(w, "");
  }

  /** A token followed by text that starts with whitespace (or nothing)
      splits into the token and the split of that text. */
  lemma SplitWord(w: string, tail: string)
    requires IsToken(w)
    requires |tail| == 0 || IsWhitespace(tail[0])
    ensures SplitWhitespace(w + tail) == [w] + SplitWhitespace(tail)
  {
    var s := w + tail;
    assert s[0] == w[0];
    assert SkipSpace(s) == s;
    assert s[|w|..] == tail;
    if |tail| > 0 {
      assert s[|w|] == tail[0];
    }
    WordLengthSpec(s);
    assert WordLength(s) == |w|;
    assert s[..|w|] == w;
    assert SplitWhitespace(tail) == SplitWhitespace(SkipSpace(tail)) by {
      SplitSkip(tail);
    }
  }

  /** Leading whitespace does not change the split. */
  lemma SplitSkip(s: string)
    ensures SplitWhitespace(s) == SplitWhitespace(SkipSpace(s))
  {
    var t := SkipSpace(s);
    assert SkipSpace(t) == t;
  }

  lemma SplitSpace(j: string)
    ensures SplitWhitespace(" " + j) == SplitWhitespace(j)
  {
    assert (" " + j)[1..] == j;
    assert SkipSpace(" " + j) == SkipSpace(j);
    SplitSkip(" " + j);
    SplitSkip(j);
  }
}
