/** The handful of Python `str` operations the agents and the controller use to
    take lines apart: `isspace`, `split()`, `strip()`, `split(sep)`,
    `split(sep, 2)`, `startswith` and the substring test `in`. Strings are
    sequences of Unicode scalar values; byte decoding is not modelled. */
module Text {

  import opened Wrappers

  /** Python's `str.isspace()` for a single character: the ASCII controls
      U+0009..U+000D and U+001C..U+001F, the space, U+0085, U+00A0 and the
      Unicode space separators. */
  predicate IsSpace(c: char) {
    || ('\t' <= c <= '\r')
    || ('\U{1C}' <= c <= ' ')
    || c == '\U{85}' || c == '\U{A0}' || c == '\U{1680}'
    || ('\U{2000}' <= c <= '\U{200A}')
    || c == '\U{2028}' || c == '\U{2029}' || c == '\U{202F}' || c == '\U{205F}' || c == '\U{3000}'
  }

  predicate AllSpace(s: string) {
    forall i :: 0 <= i < |s| ==> IsSpace(s[i])
  }

  /** A token `split()` can return: non-empty and free of whitespace. */
  predicate IsWord(w: string) {
    |w| > 0 && forall i :: 0 <= i < |w| ==> !IsSpace(w[i])
  }

  /** `s.startswith(p)` */
  predicate StartsWith(s: string, p: string) {
    |p| <= |s| && s[..|p|] == p
  }

  /** `p in s` for strings: `p` occurs somewhere in `s`. */
  predicate Contains(s: string, p: string) {
    exists i :: 0 <= i <= |s| - |p| && StartsWith(s[i..], p)
  }

  /** An occurrence of `p` in `b` is an occurrence in any text around `b`. */
  lemma ContainsInside(a: string, b: string, c: string, p: string)
    requires Contains(b, p)
    ensures Contains(a + b + c, p)
  {
    var i :| 0 <= i <= |b| - |p| && StartsWith(b[i..], p);
    var s := a + b + c;
    forall k | 0 <= k < |p| ensures s[|a| + i..][k] == p[k] {
      assert b[i..][k] == p[k];
    }
    assert s[|a| + i..][..|p|] == p;
  }

  /** A text lacking one of the characters of `p` does not contain `p`. */
  lemma NotContains(s: string, p: string, k: nat)
    requires k < |p| && p[k] !in s
    ensures !Contains(s, p)
  {
    forall i | 0 <= i <= |s| - |p|
      ensures !StartsWith(s[i..], p)
    {
      assert s[i + k] in s;
      assert s[i..][..|p|][k] == s[i + k];
    }
  }

  // ---------------------------------------------------------------------------
  // split() with no argument

  /** Length of the leading run of non-whitespace characters. */
  function WordEnd(s: string): (k: nat)
    ensures k <= |s|
    ensures k == |s| || IsSpace(s[k])
    ensures forall j :: 0 <= j < k ==> !IsSpace(s[j])
  {
    if |s| == 0 || IsSpace(s[0]) then 0 else 1 + WordEnd(s[1..])
  }

  /** `s.split()`: the maximal runs of non-whitespace characters, in order. */
  function Words(s: string): (ws: seq<string>)
    ensures forall i :: 0 <= i < |ws| ==> IsWord(ws[i])
    decreases |s|
  {
    if |s| == 0 then []
    else if IsSpace(s[0]) then Words(s[1..])
    else
      var k := WordEnd(s);
      [s[..k]] + Words(s[k..])
  }

  lemma {:induction false} WordsOfSpaces(s: string)
    requires AllSpace(s)
    ensures Words(s) == []
    decreases |s|
  {
    if |s| > 0 {
      WordsOfSpaces(s[1..]);
    }
  }

  /** `WordEnd` is the only index with its two defining properties. */
  lemma WordEndUnique(s: string, k: nat)
    requires k <= |s| && (k == |s| || IsSpace(s[k]))
    requires forall j :: 0 <= j < k ==> !IsSpace(s[j])
    ensures WordEnd(s) == k
  {
  }

  /** Trailing whitespace never adds a token. */
  lemma {:induction false} WordsIgnoreTrailingSpaces(s: string, sp: string)
    requires AllSpace(sp)
    ensures Words(s + sp) == Words(s)
    decreases |s|
  {
    if |s| == 0 {
      assert s + sp == sp;
      WordsOfSpaces(sp);
    } else if IsSpace(s[0]) {
      assert (s + sp)[0] == s[0];
      assert (s + sp)[1..] == s[1..] + sp;
      WordsIgnoreTrailingSpaces(s[1..], sp);
    } else {
      var k := WordEnd(s);
      assert forall j :: 0 <= j < k ==> (s + sp)[j] == s[j];
      assert k == |s| || (s + sp)[k] == s[k];
      assert k == |s| ==> |sp| == 0 || (s + sp)[k] == sp[0];
      WordEndUnique(s + sp, k);
      assert (s + sp)[..k] == s[..k];
      assert (s + sp)[k..] == s[k..] + sp;
      WordsIgnoreTrailingSpaces(s[k..], sp);
    }
  }

  /** A word followed by a whitespace character is split off as the first token. */
  lemma WordsOfWordThenSpace(w: string, c: char, rest: string)
    requires IsWord(w) && IsSpace(c)
    ensures Words(w + [c] + rest) == [w] + Words(rest)
  {
    var s := w + [c] + rest;
    assert forall j :: 0 <= j < |w| ==> s[j] == w[j];
    assert s[|w|] == c;
    WordEndUnique(s, |w|);
    assert s[..|w|] == w;
    assert s[|w|..] == [c] + rest;
    assert Words([c] + rest) == Words(rest) by {
      assert ([c] + rest)[1..] == rest;
    }
  }

  lemma WordsOfWord(w: string)
    requires IsWord(w)
    ensures Words(w) == [w]
  {
    WordEndUnique(w, |w|);
    assert w[..|w|] == w;
  }

  // ---------------------------------------------------------------------------
  // strip()

  /** `s.lstrip()`: `t` is the suffix of `s` left after dropping the leading whitespace. */
  function LStrip(s: string): (t: string)
    ensures |t| <= |s| && t == s[|s| - |t|..]
    ensures AllSpace(s[..|s| - |t|])
    ensures |t| > 0 ==> !IsSpace(t[0])
  {
    if |s| > 0 && IsSpace(s[0]) then LStrip(s[1..]) else s
  }

  /** `s.rstrip()`: `t` is the prefix of `s` left after dropping the trailing whitespace. */
  function RStrip(s: string): (t: string)
    ensures |t| <= |s| && t == s[..|t|]
    ensures AllSpace(s[|t|..])
    ensures |t| > 0 ==> !IsSpace(t[|t| - 1])
  {
    if |s| > 0 && IsSpace(s[|s| - 1]) then RStrip(s[..|s| - 1]) else s
  }

  /** `s.strip()` */
  function Strip(s: string): string {
    RStrip(LStrip(s))
  }

  lemma {:induction false} WordsOfLStrip(s: string)
    ensures Words(LStrip(s)) == Words(s)
    decreases |s|
  {
    if |s| > 0 && IsSpace(s[0]) {
      WordsOfLStrip(s[1..]);
    }
  }

  lemma {:induction false} WordsOfRStrip(s: string)
    ensures Words(RStrip(s)) == Words(s)
    decreases |s|
  {
    if |s| > 0 && IsSpace(s[|s| - 1]) {
      var init := s[..|s| - 1];
      WordsOfRStrip(init);
      assert s == init + [s[|s| - 1]];
      WordsIgnoreTrailingSpaces(init, [s[|s| - 1]]);
    }
  }

  /** Stripping before splitting changes no token. */
  lemma WordsOfStrip(s: string)
    ensures Words(Strip(s)) == Words(s)
  {
    WordsOfLStrip(s);
    WordsOfRStrip(LStrip(s));
  }

  /** Text that starts with a non-space character keeps it first after stripping. */
  lemma StripKeepsHead(s: string)
    requires |s| > 0 && !IsSpace(s[0])
    ensures |Strip(s)| > 0 && Strip(s)[0] == s[0]
  {
    assert LStrip(s) == s;
  }

  lemma StripOfWord(w: string)
    requires IsWord(w)
    ensures Strip(w) == w
  {
  }

  // ---------------------------------------------------------------------------
  // split(sep), split(sep, 2)

  /** Index of the first `c` in `s`, or `|s|` when there is none. */
  function FindChar(s: string, c: char): (k: nat)
    ensures k <= |s|
    ensures k < |s| ==> s[k] == c
    ensures c !in s[..k]
  {
    if |s| == 0 || s[0] == c then 0 else 1 + FindChar(s[1..], c)
  }

  /** `s.split(sep)`: the pieces between the separators, one more than there are separators. */
  function SplitOn(s: string, sep: char): (parts: seq<string>)
    ensures |parts| >= 1
    ensures forall i :: 0 <= i < |parts| ==> sep !in parts[i]
    decreases |s|
  {
    var k := FindChar(s, sep);
    if k == |s| then
      assert s[..k] == s;
      [s]
    else
      [s[..k]] + SplitOn(s[k + 1..], sep)
  }

  /** `s.split(sep)` has one more piece than `s` has separators. */
  lemma {:induction false} SplitOnCount(s: string, sep: char)
    ensures |SplitOn(s, sep)| == multiset(s)[sep] + 1
    decreases |s|
  {
    var k := FindChar(s, sep);
    if k == |s| {
      assert s[..k] == s;
    } else {
      assert s == s[..k] + [sep] + s[k + 1..];
      SplitOnCount(s[k + 1..], sep);
    }
  }

  /** `sep.join(parts)` */
  function JoinOn(parts: seq<string>, sep: char): string
    requires |parts| > 0
  {
    if |parts| == 1 then parts[0] else parts[0] + [sep] + JoinOn(parts[1..], sep)
  }

  /** Splitting loses nothing: joining the pieces gives back the text. */
  lemma {:induction false} JoinOfSplit(s: string, sep: char)
    ensures JoinOn(SplitOn(s, sep), sep) == s
    decreases |s|
  {
    var k := FindChar(s, sep);
    if k < |s| {
      JoinOfSplit(s[k + 1..], sep);
      JoinOfSplitStep(s, sep, k);
    } else {
      assert s[..k] == s;
    }
  }

  /** The inductive step of `JoinOfSplit`: the first piece, the separator and
      the rejoined rest give back the text. */
  lemma JoinOfSplitStep(s: string, sep: char, k: nat)
    requires k == FindChar(s, sep) && k < |s|
    requires JoinOn(SplitOn(s[k + 1..], sep), sep) == s[k + 1..]
    ensures JoinOn(SplitOn(s, sep), sep) == s
  {
    var rest := s[k + 1..];
    var parts := SplitOn(s, sep);
    assert parts == [s[..k]] + SplitOn(rest, sep);
    assert parts[1..] == SplitOn(rest, sep);
    assert JoinOn(parts, sep) == s[..k] + [sep] + JoinOn(SplitOn(rest, sep), sep);
    assert s == s[..k] + [sep] + rest;
  }

  /** `FindChar` is the only index with its two defining properties. */
  lemma FindCharUnique(s: string, c: char, k: nat)
    requires k <= |s| && (k == |s| || s[k] == c)
    requires c !in s[..k]
    ensures FindChar(s, c) == k
  {
  }

  /** Joining separator-free pieces and splitting again gives back the pieces. */
  lemma {:induction false} SplitOfJoin(parts: seq<string>, sep: char)
    requires |parts| > 0
    requires forall i :: 0 <= i < |parts| ==> sep !in parts[i]
    ensures SplitOn(JoinOn(parts, sep), sep) == parts
    decreases |parts|
  {
    var s := JoinOn(parts, sep);
    if |parts| == 1 {
      assert s[..|s|] == parts[0];
      FindCharUnique(s, sep, |s|);
    } else {
      var tail := JoinOn(parts[1..], sep);
      var k := |parts[0]|;
      assert s == parts[0] + [sep] + tail;
      assert s[..k] == parts[0];
      assert s[k] == sep;
      FindCharUnique(s, sep, k);
      assert s[k + 1..] == tail;
      SplitOfJoin(parts[1..], sep);
      assert parts == [parts[0]] + parts[1..];
    }
  }

  /** `s.split(sep, 1)[1]` when that split has two fields: the text after
      the first separator. */
  function AfterFirst(s: string, sep: char): Option<string> {
    var i := FindChar(s, sep);
    if i == |s| then None else Some(s[i + 1..])
  }

  /** `s.split(sep, 2)[2]` when that split has three fields: the text after
      the second separator. */
  function AfterSecond(s: string, sep: char): Option<string> {
    match AfterFirst(s, sep)
    case None => None
    case Some(rest) => AfterFirst(rest, sep)
  }

  /** `split(sep, 1)` agrees with the full `split(sep)`: the text after the
      first separator splits into the remaining pieces. */
  lemma AfterFirstSplit(s: string, sep: char)
    ensures AfterFirst(s, sep).None? <==> |SplitOn(s, sep)| == 1
    ensures AfterFirst(s, sep).Some? ==> SplitOn(s, sep)[1..] == SplitOn(AfterFirst(s, sep).value, sep)
  {
    var k := FindChar(s, sep);
    if k == |s| {
      assert s[..k] == s;
    }
  }

  /** `split(sep, 2)` agrees with the full `split(sep)`: the third field exists
      exactly when there are at least three pieces, and it is the rest of the
      pieces joined back together. */
  lemma AfterSecondSplit(s: string, sep: char)
    ensures AfterSecond(s, sep).Some? <==> |SplitOn(s, sep)| >= 3
    ensures AfterSecond(s, sep).Some? ==> AfterSecond(s, sep).value == JoinOn(SplitOn(s, sep)[2..], sep)
  {
    AfterFirstSplit(s, sep);
    var parts := SplitOn(s, sep);
    match AfterFirst(s, sep)
    case None =>
    case Some(rest) =>
      AfterFirstSplit(rest, sep);
      assert |parts| == |SplitOn(rest, sep)| + 1;
      match AfterFirst(rest, sep)
      case None =>
      case Some(m) =>
        assert parts[2..] == SplitOn(rest, sep)[1..];
        JoinOfSplit(m, sep);
  }
}
