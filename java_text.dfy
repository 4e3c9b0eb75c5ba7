/**
 * The handful of java.lang.String / java.util behaviours the core relies on,
 * stated on `seq<char>`: indexOf, trim, whitespace tokenizing and the
 * `\s*,\s*` split.
 */
module JavaText {

  /** `s.indexOf(c, from)`: the first index at or after `from` holding `c`, or -1. */
  function IndexOf(s: string, c: char, from: nat): (r: int)
    ensures r == -1 || (from <= r < |s| && s[r] == c)
    decreases |s| - from
  {
    if from >= |s| then -1
    else if s[from] == c then from
    else IndexOf(s, c, from + 1)
  }

  /** IndexOf finds the first `c`: none before it, and none at all when it gives -1. */
  lemma {:induction false} IndexOfSpec(s: string, c: char, from: nat)
    ensures IndexOf(s, c, from) == -1 ==> forall k :: from <= k < |s| ==> s[k] != c
    ensures IndexOf(s, c, from) != -1 ==> forall k :: from <= k < IndexOf(s, c, from) ==> s[k] != c
    decreases |s| - from
  {
    if from < |s| && s[from] != c {
      IndexOfSpec(s, c, from + 1);
    }
  }

  /** The characters String.trim() strips: every code unit up to U+0020. */
  predicate IsTrimmable(c: char) {
    c <= ' '
  }

  /** `s.trim()`: the text between the first and the last character above U+0020. */
  function Trim(s: string): (r: string)
    ensures |r| <= |s|
    ensures r == [] || (!IsTrimmable(r[0]) && !IsTrimmable(r[|r| - 1]))
  {
    var a := TrimStart(s, 0);
    s[a..TrimEnd(s, a, |s|)]
  }

  /** The first position at or after `i` whose character trim() keeps, or |s|. */
  function TrimStart(s: string, i: nat): (r: nat)
    requires i <= |s|
    ensures i <= r <= |s| && (r < |s| ==> !IsTrimmable(s[r]))
    decreases |s| - i
  {
    if i < |s| && IsTrimmable(s[i]) then TrimStart(s, i + 1) else i
  }

  /** One past the last position in [lo, j) whose character trim() keeps, or `lo`. */
  function TrimEnd(s: string, lo: nat, j: nat): (r: nat)
    requires lo <= j <= |s|
    ensures lo <= r <= j && (lo < r ==> !IsTrimmable(s[r - 1]))
    decreases j - lo
  {
    if lo < j && IsTrimmable(s[j - 1]) then TrimEnd(s, lo, j - 1) else j
  }

  lemma {:induction false} TrimStartSpec(s: string, i: nat)
    requires i <= |s|
    ensures forall k :: i <= k < TrimStart(s, i) ==> IsTrimmable(s[k])
    decreases |s| - i
  {
    if i < |s| && IsTrimmable(s[i]) {
      TrimStartSpec(s, i + 1);
    }
  }

  lemma {:induction false} TrimEndSpec(s: string, lo: nat, j: nat)
    requires lo <= j <= |s|
    ensures forall k :: TrimEnd(s, lo, j) <= k < j ==> IsTrimmable(s[k])
    decreases j - lo
  {
    if lo < j && IsTrimmable(s[j - 1]) {
      TrimEndSpec(s, lo, j - 1);
    }
  }

  /** trim() cuts a slice out of `s` with only trimmable characters on either side of it. */
  lemma {:induction false} TrimSpec(s: string)
    ensures exists i, j :: (0 <= i <= j <= |s| && Trim(s) == s[i..j]
                            && (forall k :: 0 <= k < i ==> IsTrimmable(s[k]))
                            && (forall k :: j <= k < |s| ==> IsTrimmable(s[k])))
  {
    var a := TrimStart(s, 0);
    var b := TrimEnd(s, a, |s|);
    TrimStartSpec(s, 0);
    TrimEndSpec(s, a, |s|);
    assert Trim(s) == s[a..b];
  }

  /** trim() leaves a string alone whose ends are not trimmable. */
  lemma {:induction false} TrimUntouched(s: string)
    requires s == [] || (!IsTrimmable(s[0]) && !IsTrimmable(s[|s| - 1]))
    ensures Trim(s) == s
  {
    assert TrimStart(s, 0) == 0;
    assert TrimEnd(s, 0, |s|) == |s|;
    assert s[0..|s|] == s;
  }

  /** trim() of a string made only of trimmable characters is empty. */
  lemma {:induction false} TrimBlank(s: string)
    requires forall k :: 0 <= k < |s| ==> IsTrimmable(s[k])
    ensures Trim(s) == []
  {
    assert TrimStart(s, 0) == |s|;
  }

  /** Whitespace as java.util.regex's `\s`: [ \t\n\x0B\f\r]. */
  predicate IsRegexSpace(c: char) {
    c == ' ' || c == '\t' || c == '\n' || c == '\U{B}' || c == '\U{C}' || c == '\r'
  }

  /** StringTokenizer's default delimiter set " \t\n\r\f". */
  const TokenizerDelimiters: set<char> := {' ', '\t', '\n', '\r', '\U{C}'}

  /**
   * The tokens of `s`: the maximal runs of characters outside `delims`, in order.
   * This is StringTokenizer's token sequence and commons-lang
   * StringUtils.split(s, chars) (which never yields empty tokens).
   */
  function Tokenize(s: string, delims: set<char>): (r: seq<string>)
    ensures forall t :: t in r ==> t != [] && forall k :: 0 <= k < |t| ==> t[k] !in delims
    decreases |s|
  {
    if s == [] then []
    else if s[0] in delims then Tokenize(s[1..], delims)
    else
      var n := RunEnd(s, delims, 0);
      [s[..n]] + Tokenize(s[n..], delims)
  }

  /** End of the run of non-delimiters starting at `from`. */
  function RunEnd(s: string, delims: set<char>, from: nat): (r: nat)
    requires from <= |s|
    ensures from <= r <= |s|
    ensures forall k :: from <= k < r ==> s[k] !in delims
    ensures r < |s| ==> s[r] in delims
    decreases |s| - from
  {
    if from < |s| && s[from] !in delims then RunEnd(s, delims, from + 1) else from
  }

  /** A delimiter-free word is its own single token. */
  lemma {:induction false} TokenizeWord(w: string, delims: set<char>)
    requires w != [] && forall k :: 0 <= k < |w| ==> w[k] !in delims
    ensures Tokenize(w, delims) == [w]
  {
    var n := RunEnd(w, delims, 0);
    assert n == |w|;
    assert w[..n] == w;
    assert w[n..] == [];
  }

  /** Cutting the text at one delimiter cuts the token sequence at the same place. */
  lemma {:induction false} TokenizeSplits(a: string, d: char, b: string, delims: set<char>)
    requires d in delims
    ensures Tokenize(a + [d] + b, delims) == Tokenize(a, delims) + Tokenize(b, delims)
    decreases |a|
  {
    var s := a + [d] + b;
    if a == [] {
      assert s[1..] == b;
    } else if a[0] in delims {
      assert s[1..] == a[1..] + [d] + b;
      TokenizeSplits(a[1..], d, b, delims);
    } else {
      var n := RunEnd(s, delims, 0);
      var m := RunEnd(a, delims, 0);
      RunEndPrefix(a, [d] + b, delims, 0);
      assert s == a + ([d] + b);
      assert n == m;
      assert s[..n] == a[..m];
      if m == |a| {
        assert s[n..] == [d] + b;
        assert ([d] + b)[1..] == b;
        assert a[m..] == [];
      } else {
        assert s[n..] == a[m..] + [d] + b;
        TokenizeSplits(a[m..], d, b, delims);
      }
    }
  }

  lemma {:induction false} RunEndPrefix(a: string, rest: string, delims: set<char>, from: nat)
    requires from <= |a|
    requires rest != [] && rest[0] in delims
    ensures RunEnd(a + rest, delims, from) == RunEnd(a, delims, from)
    decreases |a| - from
  {
    var s := a + rest;
    if from < |a| {
      assert s[from] == a[from];
      if a[from] !in delims {
        RunEndPrefix(a, rest, delims, from + 1);
      }
    } else {
      assert s[from] == rest[0];
    }
  }

  /** Strip `\s` from the front. */
  function StripSpaceLeading(s: string): (r: string)
    ensures |r| <= |s| && r == s[|s| - |r|..]
    ensures forall k :: 0 <= k < |s| - |r| ==> IsRegexSpace(s[k])
    ensures r == [] || !IsRegexSpace(r[0])
  {
    if s != [] && IsRegexSpace(s[0]) then StripSpaceLeading(s[1..]) else s
  }

  /** Strip `\s` from the back. */
  function StripSpaceTrailing(s: string): (r: string)
    ensures |r| <= |s| && r == s[..|r|]
    ensures forall k :: |r| <= k < |s| ==> IsRegexSpace(s[k])
    ensures r == [] || !IsRegexSpace(r[|r| - 1])
  {
    if s != [] && IsRegexSpace(s[|s| - 1]) then StripSpaceTrailing(s[..|s| - 1]) else s
  }

  /** The pieces of `s` between commas (no comma: the whole of `s`). */
  function CommaPieces(s: string): (r: seq<string>)
    ensures |r| >= 1
    ensures forall p :: p in r ==> ',' !in p
    decreases |s|
  {
    var i := IndexOf(s, ',', 0);
    IndexOfSpec(s, ',', 0);
    if i == -1 then [s] else [s[..i]] + CommaPieces(s[i + 1..])
  }

  /**
   * `s.split("\\s*,\\s*")`: the comma-separated pieces, each losing the
   * whitespace that touches a comma (not the whitespace at either end of `s`),
   * with Java's trailing empty pieces removed; no comma at all gives `[s]`.
   */
  function SplitCommaPadded(s: string): (r: seq<string>)
  {
    var pieces := CommaPieces(s);
    if |pieces| == 1 then [s]
    else DropTrailingEmpty(seq(|pieces|, k requires 0 <= k < |pieces| =>
      var p := if k > 0 then StripSpaceLeading(pieces[k]) else pieces[k];
      if k < |pieces| - 1 then StripSpaceTrailing(p) else p))
  }

  function DropTrailingEmpty(s: seq<string>): (r: seq<string>)
    ensures r <= s
    ensures r == [] || r[|r| - 1] != []
    ensures forall k :: |r| <= k < |s| ==> s[k] == []
  {
    if s != [] && s[|s| - 1] == [] then DropTrailingEmpty(s[..|s| - 1]) else s
  }

  /** The ids joined with plain commas. */
  function JoinComma(ids: seq<string>): string
    requires |ids| >= 1
    decreases |ids|
  {
    if |ids| == 1 then ids[0] else ids[0] + "," + JoinComma(ids[1..])
  }

  /** An id the `\\s*,\\s*` split gives back: not empty, no comma, no whitespace at either end. */
  predicate PlainId(id: string) {
    id != [] && ',' !in id && !IsRegexSpace(id[0]) && !IsRegexSpace(id[|id| - 1])
  }

  /** The pieces between the commas of a join are the joined ids. */
  lemma {:induction false} CommaPiecesOfJoin(ids: seq<string>)
    requires |ids| >= 1 && forall k :: 0 <= k < |ids| ==> ',' !in ids[k]
    ensures CommaPieces(JoinComma(ids)) == ids
    decreases |ids|
  {
    var s := JoinComma(ids);
    IndexOfSpec(s, ',', 0);
    if |ids| == 1 {
      assert IndexOf(s, ',', 0) == -1;
    } else {
      var rest := JoinComma(ids[1..]);
      assert s == ids[0] + "," + rest;
      assert IndexOf(s, ',', 0) == |ids[0]| by {
        forall k | 0 <= k < |ids[0]|
          ensures s[k] != ','
        {
          assert s[k] == ids[0][k];
        }
        assert s[|ids[0]|] == ',';
      }
      assert s[..|ids[0]|] == ids[0];
      assert s[|ids[0]| + 1..] == rest;
      CommaPiecesOfJoin(ids[1..]);
      assert ids == [ids[0]] + ids[1..];
    }
  }

  /** Splitting a comma join of plain ids on `\\s*,\\s*` gives the ids back. */
  lemma {:induction false} SplitCommaPaddedJoin(ids: seq<string>)
    requires |ids| >= 1 && forall k :: 0 <= k < |ids| ==> PlainId(ids[k])
    ensures SplitCommaPadded(JoinComma(ids)) == ids
  {
    CommaPiecesOfJoin(ids);
    if |ids| > 1 {
      var stripped := seq(|ids|, k requires 0 <= k < |ids| =>
        var p := if k > 0 then StripSpaceLeading(ids[k]) else ids[k];
        if k < |ids| - 1 then StripSpaceTrailing(p) else p);
      forall k | 0 <= k < |ids|
        ensures stripped[k] == ids[k]
      {
        StripPlain(ids[k]);
      }
      assert stripped == ids;
      assert DropTrailingEmpty(ids) == ids;
    }
  }

  lemma {:induction false} StripPlain(id: string)
    requires PlainId(id)
    ensures StripSpaceLeading(id) == id && StripSpaceTrailing(id) == id
  {
  }

  /** The documented id list `contact,help,about` splits into its three ids. */
  lemma {:induction false} SplitIdListExample()
    ensures SplitCommaPadded("contact,help,about") == ["contact", "help", "about"]
  {
    var ids := ["contact", "help", "about"];
    assert JoinComma(ids[2..]) == "about";
    assert JoinComma(ids[1..]) == "help" + "," + "about";
    assert JoinComma(ids) == "contact,help,about";
    SplitCommaPaddedJoin(ids);
  }
}

/** java.lang.StringBuilder / StringBuffer, reduced to appending. */
module Builders {

  class TextBuilder {
    var text: string

    constructor()
      ensures text == []
    {
      text := [];
    }

    method Append(s: string)
      modifies this
      ensures text == old(text) + s
    {
      text := text + s;
    }
  }
}
