/**
 * The reference syntax of config-injection 1.2, the regular expression
 *   \$(?:(\$|[\w\-\.]++)|\{([\w\-\.]++)\})
 * written out as a scanner: `$$`, `$` and a maximal run of name characters,
 * or `${` a non-empty run of name characters `}`. There is no nesting and no
 * default. The Matcher class is the part of java.util.regex.Matcher the
 * resolver uses: find, group(1)/group(2), appendReplacement and appendTail.
 */
module ReferencePattern {
  import opened Wrappers
  import opened Builders

  /** One match: its span, the name group that matched, and which alternative (group 2 means braced). */
  datatype PatternMatch = PatternMatch(start: nat, length: nat, name: string, braced: bool)

  /** `\w` without UNICODE_CHARACTER_CLASS: [a-zA-Z_0-9]. */
  predicate IsWordCharacter(c: char) {
    ('a' <= c <= 'z') || ('A' <= c <= 'Z') || ('0' <= c <= '9') || c == '_'
  }

  /** The class [\w\-\.]. */
  predicate IsPatternNameCharacter(c: char) {
    IsWordCharacter(c) || c == '-' || c == '.'
  }

  /** End of the possessive run of name characters starting at `from`. */
  function RunEnd(s: string, from: nat): (r: nat)
    requires from <= |s|
    ensures from <= r <= |s| && (r < |s| ==> !IsPatternNameCharacter(s[r]))
    decreases |s| - from
  {
    if from < |s| && IsPatternNameCharacter(s[from]) then RunEnd(s, from + 1) else from
  }

  /** Every character of the run is a name character. */
  lemma {:induction false} RunEndSpec(s: string, from: nat)
    requires from <= |s|
    ensures forall k :: from <= k < RunEnd(s, from) ==> IsPatternNameCharacter(s[k])
    decreases |s| - from
  {
    if from < |s| && IsPatternNameCharacter(s[from]) {
      RunEndSpec(s, from + 1);
    }
  }

  /** The match the pattern makes at a `$` in position `i`, if any. */
  function PatternAt(s: string, i: nat): (r: Option<PatternMatch>)
    requires i < |s| && s[i] == '$'
    ensures r.Some? ==> r.value.start == i && r.value.length >= 2 && i + r.value.length <= |s|
  {
    if i + 1 == |s| then None
    else if s[i + 1] == '$' then Some(PatternMatch(i, 2, "$", false))
    else if IsPatternNameCharacter(s[i + 1]) then
      var end := RunEnd(s, i + 1);
      Some(PatternMatch(i, end - i, s[i + 1..end], false))
    else if s[i + 1] == '{' && i + 2 < |s| && IsPatternNameCharacter(s[i + 2]) then
      var end := RunEnd(s, i + 2);
      if end < |s| && s[end] == '}' then Some(PatternMatch(i, end + 1 - i, s[i + 2..end], true)) else None
    else None
  }

  /**
   * What a match spells out: `$$` (name `$`), `$` and a maximal non-empty run
   * of name characters, or `${`, a non-empty run of name characters and `}`;
   * a name other than `$` never holds `$`, `{` or `}`.
   */
  lemma {:induction false} PatternAtSpelling(s: string, i: nat)
    requires i < |s| && s[i] == '$'
    ensures var r := PatternAt(s, i);
      && (r.Some? && !r.value.braced ==>
            s[i + 1..i + r.value.length] == r.value.name
            && (r.value.name == "$"
                || (r.value.name != [] && (forall k :: 0 <= k < |r.value.name| ==> IsPatternNameCharacter(r.value.name[k]))
                    && (i + r.value.length < |s| ==> !IsPatternNameCharacter(s[i + r.value.length])))))
      && (r.Some? && r.value.braced ==>
            s[i + 1] == '{' && s[i + r.value.length - 1] == '}' && s[i + 2..i + r.value.length - 1] == r.value.name
            && r.value.name != [] && forall k :: 0 <= k < |r.value.name| ==> IsPatternNameCharacter(r.value.name[k]))
      && (i + 1 == |s| ==> r.None?)
  {
    if i + 1 < |s| && s[i + 1] == '$' {
      assert s[i + 1..i + 2] == "$";
    } else if i + 1 < |s| && IsPatternNameCharacter(s[i + 1]) {
      RunEndSpec(s, i + 1);
    } else if i + 2 < |s| {
      RunEndSpec(s, i + 2);
    }
  }

  /** `${$}` is no match: neither its first `$` nor its second starts one. */
  lemma {:induction false} BracedDollarIsLiteral(s: string, i: nat)
    requires i + 4 <= |s| && s[i..i + 4] == "${$}"
    ensures s[i] == '$' && PatternAt(s, i).None?
    ensures s[i + 2] == '$' && PatternAt(s, i + 2).None?
  {
    assert s[i] == s[i..i + 4][0];
    assert s[i + 1] == s[i..i + 4][1];
    assert s[i + 2] == s[i..i + 4][2];
    assert s[i + 3] == s[i..i + 4][3];
  }

  /** Whether position `k` holds a `$` the pattern matches at. */
  predicate StartsMatch(s: string, k: nat) {
    k < |s| && s[k] == '$' && PatternAt(s, k).Some?
  }

  /** No match starts in [from, to). */
  predicate NoMatchBetween(s: string, from: nat, to: nat) {
    forall k :: from <= k < to ==> !StartsMatch(s, k)
  }

  /** `m` is what Matcher.find returns when searching from `from`. */
  predicate IsFirstMatch(s: string, from: nat, m: PatternMatch) {
    from <= m.start < |s| && s[m.start] == '$' && NoMatchBetween(s, from, m.start)
    && PatternAt(s, m.start) == Some(m)
  }

  /** Matcher.find from `from`: the leftmost match (every match begins with `$`). */
  function FindMatch(s: string, from: nat): (r: Option<PatternMatch>)
    ensures r.Some? ==> from <= r.value.start && r.value.start + r.value.length <= |s| && r.value.length >= 2
    decreases |s| - from
  {
    if from >= |s| then None
    else if s[from] == '$' && PatternAt(s, from).Some? then PatternAt(s, from)
    else FindMatch(s, from + 1)
  }

  /** What FindMatch finds is the leftmost match from `from`; when it finds nothing there is none. */
  lemma {:induction false} FindMatchSpec(s: string, from: nat)
    ensures FindMatch(s, from).Some? ==> IsFirstMatch(s, from, FindMatch(s, from).value)
    ensures FindMatch(s, from).None? ==> NoMatchBetween(s, from, |s|)
    decreases |s| - from
  {
    if from < |s| && !(s[from] == '$' && PatternAt(s, from).Some?) {
      FindMatchSpec(s, from + 1);
      assert !StartsMatch(s, from);
      assert FindMatch(s, from) == FindMatch(s, from + 1);
    }
  }

  /** The leftmost match is unique. */
  lemma {:induction false} FindMatchFirst(s: string, from: nat, m: PatternMatch)
    requires IsFirstMatch(s, from, m)
    ensures FindMatch(s, from) == Some(m)
    decreases |s| - from
  {
    if from < m.start {
      assert !StartsMatch(s, from);
      FindMatchFirst(s, from + 1, m);
    }
  }

  /** With no match left, find fails. */
  lemma {:induction false} FindMatchNone(s: string, from: nat)
    requires NoMatchBetween(s, from, |s|)
    ensures FindMatch(s, from) == None
    decreases |s| - from
  {
    if from < |s| {
      assert !StartsMatch(s, from);
      FindMatchNone(s, from + 1);
    }
  }

  /** `s.replace(c, r)` for a one-character target: every `c` replaced by `r`, left to right. */
  function ReplaceChar(s: string, c: char, r: string): string
    decreases |s|
  {
    if s == [] then [] else (if s[0] == c then r else [s[0]]) + ReplaceChar(s[1..], c, r)
  }

  lemma {:induction false} ReplaceCharAppend(a: string, b: string, c: char, r: string)
    ensures ReplaceChar(a + b, c, r) == ReplaceChar(a, c, r) + ReplaceChar(b, c, r)
    decreases |a|
  {
    if a != [] {
      assert (a + b)[0] == a[0];
      assert (a + b)[1..] == a[1..] + b;
      ReplaceCharAppend(a[1..], b, c, r);
      var h := if a[0] == c then r else [a[0]];
      assert ReplaceChar(a + b, c, r) == h + ReplaceChar(a[1..] + b, c, r);
      assert ReplaceChar(a, c, r) == h + ReplaceChar(a[1..], c, r);
      assert h + (ReplaceChar(a[1..], c, r) + ReplaceChar(b, c, r))
          == (h + ReplaceChar(a[1..], c, r)) + ReplaceChar(b, c, r);
    } else {
      assert a + b == b;
    }
  }

  /**
   * The escaping done before appendReplacement: `\` doubled first, then
   * every `$` given a `\` in front.
   */
  function Escape(v: string): string {
    ReplaceChar(ReplaceChar(v, '\\', "\\\\"), '$', "\\$")
  }

  /**
   * How appendReplacement reads its replacement: `\x` stands for `x`; a
   * trailing `\` is an error, and so is a `$` (a group reference, which no
   * replacement used here contains).
   */
  function ReplacementText(r: string): Option<string>
    decreases |r|
  {
    if r == [] then Some([])
    else if r[0] == '\\' then
      if |r| == 1 then None
      else PrependChar(r[1], ReplacementText(r[2..]))
    else if r[0] == '$' then None
    else PrependChar(r[0], ReplacementText(r[1..]))
  }

  function PrependChar(c: char, rest: Option<string>): Option<string> {
    if rest.Some? then Some([c] + rest.value) else None
  }

  /** The escaped value is read back as the value itself: resolved values are inserted verbatim. */
  lemma {:induction false} EscapeRoundTrip(v: string)
    ensures ReplacementText(Escape(v)) == Some(v)
    decreases |v|
  {
    if v != [] {
      var x := v[0];
      assert v == [x] + v[1..];
      ReplaceCharAppend([x], v[1..], '\\', "\\\\");
      var once := ReplaceChar(v, '\\', "\\\\");
      var head := if x == '\\' then "\\\\" else [x];
      assert once == head + ReplaceChar(v[1..], '\\', "\\\\");
      ReplaceCharAppend(head, ReplaceChar(v[1..], '\\', "\\\\"), '$', "\\$");
      var escapedHead := ReplaceChar(head, '$', "\\$");
      assert Escape(v) == escapedHead + Escape(v[1..]);
      EscapeRoundTrip(v[1..]);
      var e := Escape(v);
      if x == '\\' {
        assert escapedHead == "\\\\";
        assert e[0] == '\\' && e[1] == '\\' && e[2..] == Escape(v[1..]);
      } else if x == '$' {
        assert escapedHead == "\\$";
        assert e[0] == '\\' && e[1] == '$' && e[2..] == Escape(v[1..]);
      } else {
        assert escapedHead == [x];
        assert e[0] == x && e[1..] == Escape(v[1..]);
      }
    }
  }

  /**
   * The matcher over one text: `searchFrom` is where the next find starts,
   * `appendPos` how far appendReplacement/appendTail have copied the text,
   * and `current` the last match.
   */
  class Matcher {
    const text: string
    var searchFrom: int
    var appendPos: int
    var current: Option<PatternMatch>

    ghost predicate Valid()
      reads this
    {
      0 <= appendPos <= searchFrom <= |text|
    }

    constructor(text: string)
      ensures Valid() && this.text == text
      ensures searchFrom == 0 && appendPos == 0 && current == None
    {
      this.text := text;
      searchFrom, appendPos, current := 0, 0, None;
    }

    /** find(): the leftmost match from `searchFrom`; the next search starts after it. */
    method Find() returns (found: bool)
      requires Valid()
      modifies this`searchFrom, this`current
      ensures Valid()
      ensures found ==> current.Some? && IsFirstMatch(text, old(searchFrom), current.value)
                        && searchFrom == current.value.start + current.value.length
      ensures !found ==> NoMatchBetween(text, old(searchFrom), |text|) && searchFrom == old(searchFrom)
    {
      var i := searchFrom;
      while i < |text|
        invariant searchFrom <= i <= |text|
        invariant NoMatchBetween(text, searchFrom, i)
      {
        if text[i] == '$' {
          var m := PatternAt(text, i);
          if m.Some? {
            current := m;
            searchFrom := i + m.value.length;
            return true;
          }
        }
        i := i + 1;
      }
      return false;
    }

    /** group(1): the `$$`/bare name, or None for a braced match. */
    function Group1(): Option<string>
      reads this
      requires current.Some?
    {
      if current.value.braced then None else Some(current.value.name)
    }

    /** group(2): the braced name, or None for a bare match. */
    function Group2(): Option<string>
      reads this
      requires current.Some?
    {
      if current.value.braced then Some(current.value.name) else None
    }

    /** appendReplacement: the text since the last append, then the replacement as read. */
    method AppendReplacement(sb: TextBuilder, replacement: string)
      requires Valid() && current.Some? && appendPos <= current.value.start
      requires current.value.start + current.value.length == searchFrom
      requires ReplacementText(replacement).Some?
      modifies this`appendPos, sb
      ensures Valid() && appendPos == searchFrom
      ensures sb.text == old(sb.text) + text[old(appendPos)..current.value.start] + ReplacementText(replacement).value
    {
      sb.Append(text[appendPos..current.value.start]);
      sb.Append(ReplacementText(replacement).value);
      appendPos := searchFrom;
    }

    /** appendTail: the rest of the text from the last append. */
    method AppendTail(sb: TextBuilder)
      requires Valid()
      modifies sb
      ensures sb.text == old(sb.text) + text[appendPos..]
    {
      sb.Append(text[appendPos..]);
    }
  }
}
