/**
 * The reference scanner: a cursor over one immutable string that finds
 * `$$`, `$name`, `${name}` and `${name:default}` one after another and
 * rebuilds the text around them.
 *
 * The functions state what one call of find() finds (MatchAt, Scan); the class
 * VariableParser is the cursor itself, and its methods are proved against them.
 */
module VariableParsing {
  import opened Wrappers
  import opened JavaText
  import opened Builders

  /** One match: the span [start, start + length) and the raw name and default it delimits. */
  datatype Reference = Reference(start: nat, length: nat, name: string, default: Option<string>)

  /**
   * Character.isJavaIdentifierPart on U+0000..U+009F: letters, digits, `_`, `$`
   * and the identifier-ignorable control characters. Code points above U+009F
   * are treated as not being identifier parts.
   */
  predicate IsJavaIdentifierPart(c: char) {
    ('a' <= c <= 'z') || ('A' <= c <= 'Z') || ('0' <= c <= '9') || c == '_' || c == '$'
    || c <= '\U{8}' || ('\U{E}' <= c <= '\U{1B}') || ('\U{7F}' <= c <= '\U{9F}')
  }

  /** A character that may appear in a bare `$name`. */
  predicate IsValidNameCharacter(c: char) {
    (IsJavaIdentifierPart(c) && c != '$') || c == '.' || c == '-'
  }

  /** End of the run of name characters starting at `from` (findFirstNonValidNameCharacter). */
  function NameEnd(s: string, from: nat): (r: nat)
    requires from <= |s|
    ensures from <= r <= |s|
    decreases |s| - from
  {
    if from < |s| && IsValidNameCharacter(s[from]) then NameEnd(s, from + 1) else from
  }

  /** NameEnd ends the maximal run: every character before it is a name character, the one at it is not. */
  lemma {:induction false} NameEndSpec(s: string, from: nat)
    requires from <= |s|
    ensures forall k :: from <= k < NameEnd(s, from) ==> IsValidNameCharacter(s[k])
    ensures NameEnd(s, from) < |s| ==> !IsValidNameCharacter(s[NameEnd(s, from)])
    decreases |s| - from
  {
    if from < |s| && IsValidNameCharacter(s[from]) {
      NameEndSpec(s, from + 1);
    }
  }

  /** Brace nesting of `s[from..k]`: the number of `{` minus the number of `}`. */
  function Depth(s: string, from: nat, k: nat): int
    requires from <= k <= |s|
    decreases k - from
  {
    if k == from then 0
    else Depth(s, from, k - 1) + (if s[k - 1] == '{' then 1 else if s[k - 1] == '}' then -1 else 0)
  }

  /** Whether position `k` holds `c` with the braces opened since `from` all closed. */
  predicate IsRelevant(s: string, c: char, from: nat, k: nat)
    requires from <= k < |s|
  {
    s[k] == c && Depth(s, from, k) <= 0
  }

  /**
   * findRelevantChar(c, from, limit): the first index in [from, limit) holding `c`
   * outside any brace pair opened since `from`, or -1.
   */
  function RelevantChar(s: string, c: char, from: nat, limit: nat): (r: int)
    requires from <= limit <= |s|
    ensures r == -1 || from <= r < limit
  {
    RelevantCharFrom(s, c, from, from, limit)
  }

  function RelevantCharFrom(s: string, c: char, from: nat, i: nat, limit: nat): (r: int)
    requires from <= i <= limit <= |s|
    ensures r == -1 || i <= r < limit
    decreases limit - i
  {
    if i == limit then -1
    else if IsRelevant(s, c, from, i) then i
    else RelevantCharFrom(s, c, from, i + 1, limit)
  }

  /**
   * RelevantChar is -1 exactly when no position in [from, limit) is relevant,
   * and otherwise the first relevant position.
   */
  lemma {:induction false} RelevantCharSpec(s: string, c: char, from: nat, limit: nat)
    requires from <= limit <= |s|
    ensures var r := RelevantChar(s, c, from, limit);
            && (r == -1 || IsRelevant(s, c, from, r))
            && (r == -1 ==> forall k :: from <= k < limit ==> !IsRelevant(s, c, from, k))
            && (r != -1 ==> forall k :: from <= k < r ==> !IsRelevant(s, c, from, k))
  {
    RelevantCharFromSpec(s, c, from, from, limit);
  }

  lemma {:induction false} RelevantCharFromSpec(s: string, c: char, from: nat, i: nat, limit: nat)
    requires from <= i <= limit <= |s|
    ensures var r := RelevantCharFrom(s, c, from, i, limit);
            && (r == -1 || IsRelevant(s, c, from, r))
            && (r == -1 ==> forall k :: i <= k < limit ==> !IsRelevant(s, c, from, k))
            && (r != -1 ==> forall k :: i <= k < r ==> !IsRelevant(s, c, from, k))
    decreases limit - i
  {
    if i < limit && !IsRelevant(s, c, from, i) {
      RelevantCharFromSpec(s, c, from, i + 1, limit);
    }
  }

  /**
   * What find() recognises at a `$` in position `i`, or None when that `$`
   * is left as literal text.
   */
  function MatchAt(s: string, i: nat): (r: Option<Reference>)
    requires i < |s| && s[i] == '$'
    ensures r.Some? ==> r.value.start == i && r.value.length >= 2 && i + r.value.length <= |s|
  {
    if i + 1 == |s| then None
    else if s[i + 1] == '{' then
      var endBracket := RelevantChar(s, '}', i + 2, |s|);
      if endBracket == -1 then None
      else
        var separator := RelevantChar(s, ':', i + 2, endBracket);
        if separator == -1 then Some(Reference(i, endBracket + 1 - i, s[i + 2..endBracket], None))
        else
          Some(Reference(i, endBracket + 1 - i, s[i + 2..separator], Some(s[separator + 1..endBracket])))
    else if s[i + 1] == '$' then Some(Reference(i, 2, "$", None))
    else
      var end := NameEnd(s, i + 1);
      if end == i + 1 then None else Some(Reference(i, end - i, s[i + 1..end], None))
  }

  /**
   * What a match spells out: `${name}` or `${name:default}` with the first
   * unnested `}` and the first unnested `:`, the `$$` escape, or `$` and a
   * maximal non-empty run of name characters; a `$` at the end of the text, or
   * before a character that starts none of these, is never a match.
   */
  lemma {:induction false} MatchAtSpelling(s: string, i: nat)
    requires i < |s| && s[i] == '$'
    ensures var r := MatchAt(s, i);
      && (r.Some? && s[i + 1] == '{' ==>
            s[i + r.value.length - 1] == '}'
            && s[i + 2..i + r.value.length - 1] ==
               r.value.name + (if r.value.default.Some? then ":" + r.value.default.value else ""))
      && (r.Some? && s[i + 1] == '$' ==> r.value.length == 2 && r.value.name == "$" && r.value.default == None)
      && (r.Some? && s[i + 1] != '{' && s[i + 1] != '$' ==>
            r.value.name == s[i + 1..i + r.value.length] && r.value.name != [] && r.value.default == None
            && (forall k :: 0 <= k < |r.value.name| ==> IsValidNameCharacter(r.value.name[k]))
            && (i + r.value.length < |s| ==> !IsValidNameCharacter(s[i + r.value.length])))
      && (i + 1 == |s| ==> r.None?)
      && (i + 1 < |s| && s[i + 1] != '{' && s[i + 1] != '$' && !IsValidNameCharacter(s[i + 1]) ==> r.None?)
  {
    if i + 1 < |s| && s[i + 1] == '{' {
      BracedSpelling(s, i);
    } else if i + 1 < |s| && s[i + 1] != '$' {
      NameEndSpec(s, i + 1);
    }
  }

  /** A braced match spells `${`, its name, an optional `:default`, and `}`. */
  lemma {:induction false} BracedSpelling(s: string, i: nat)
    requires i + 1 < |s| && s[i] == '$' && s[i + 1] == '{'
    ensures var r := MatchAt(s, i);
      r.Some? ==>
        s[i + r.value.length - 1] == '}'
        && s[i + 2..i + r.value.length - 1] ==
           r.value.name + (if r.value.default.Some? then ":" + r.value.default.value else "")
  {
    var endBracket := RelevantChar(s, '}', i + 2, |s|);
    RelevantCharSpec(s, '}', i + 2, |s|);
    if endBracket != -1 {
      var separator := RelevantChar(s, ':', i + 2, endBracket);
      RelevantCharSpec(s, ':', i + 2, endBracket);
      if separator != -1 {
        assert s[i + 2..endBracket] == s[i + 2..separator] + ":" + s[separator + 1..endBracket];
      }
    }
  }

  /** The first reference is unique: Scan finds exactly the reference IsFirstReference describes. */
  lemma {:induction false} ScanFindsFirst(s: string, from: nat, r: Reference)
    requires IsFirstReference(s, from, r)
    ensures Scan(s, from) == Some(r)
    decreases |s| - from
  {
    var i := IndexOf(s, '$', from);
    IndexOfSpec(s, '$', from);
    assert i != -1 && i <= r.start;
    if i < r.start {
      assert !StartsReference(s, i);
      ScanFindsFirst(s, i + 1, r);
    }
  }

  /** With no reference left, Scan finds nothing. */
  lemma {:induction false} ScanFindsNothing(s: string, from: nat)
    requires NoReferenceBetween(s, from, |s|)
    ensures Scan(s, from) == None
    decreases |s| - from
  {
    var i := IndexOf(s, '$', from);
    if i != -1 {
      assert !StartsReference(s, i);
      ScanFindsNothing(s, i + 1);
    }
  }

  /** MatchAt on `${`, in terms of the two brace-aware searches (used by Find). */
  lemma {:induction false} MatchAtBraced(s: string, i: nat, endBracket: int, separator: int)
    requires i + 1 < |s| && s[i] == '$' && s[i + 1] == '{'
    requires endBracket == RelevantChar(s, '}', i + 2, |s|)
    requires endBracket != -1 ==> separator == RelevantChar(s, ':', i + 2, endBracket)
    ensures endBracket == -1 ==> MatchAt(s, i).None?
    ensures endBracket != -1 && separator == -1 ==>
              MatchAt(s, i) == Some(Reference(i, endBracket + 1 - i, s[i + 2..endBracket], None))
    ensures endBracket != -1 && separator != -1 ==>
              MatchAt(s, i) == Some(Reference(i, endBracket + 1 - i, s[i + 2..separator], Some(s[separator + 1..endBracket])))
  {
  }

  /** `${c}` with a one-character name: a reference of that name without a default. */
  lemma {:induction false} MatchAtBracedLetter(s: string, i: nat)
    requires i + 3 < |s| && s[i] == '$' && s[i + 1] == '{' && s[i + 3] == '}'
    requires s[i + 2] != '{' && s[i + 2] != '}' && s[i + 2] != ':'
    ensures MatchAt(s, i) == Some(Reference(i, 4, [s[i + 2]], None))
  {
    assert Depth(s, i + 2, i + 3) == 0;
    assert RelevantCharFrom(s, '}', i + 2, i + 3, |s|) == i + 3;
    assert RelevantChar(s, '}', i + 2, |s|) == i + 3;
    assert RelevantChar(s, ':', i + 2, i + 3) == -1;
    MatchAtBraced(s, i, i + 3, -1);
    assert s[i + 2..i + 3] == [s[i + 2]];
  }

  /** MatchAt on `$$`: the escaped dollar. */
  lemma {:induction false} MatchAtDouble(s: string, i: nat)
    requires i + 1 < |s| && s[i] == '$' && s[i + 1] == '$'
    ensures MatchAt(s, i) == Some(Reference(i, 2, "$", None))
  {
  }

  /** MatchAt on `$` followed by anything but `{` or `$` (used by Find). */
  lemma {:induction false} MatchAtBare(s: string, i: nat)
    requires i + 1 < |s| && s[i] == '$' && s[i + 1] != '{' && s[i + 1] != '$'
    ensures var end := NameEnd(s, i + 1);
            MatchAt(s, i) == if end == i + 1 then None else Some(Reference(i, end - i, s[i + 1..end], None))
  {
  }

  /** The name and the default of a match are both slices of the scanned text. */
  lemma {:induction false} MatchAtSlices(s: string, i: nat)
    requires i < |s| && s[i] == '$'
    ensures MatchAt(s, i).Some? ==>
              (exists a, b :: 0 <= a <= b <= |s| && MatchAt(s, i).value.name == s[a..b])
              && (MatchAt(s, i).value.default.Some? ==>
                    exists a, b :: 0 <= a <= b <= |s| && MatchAt(s, i).value.default.value == s[a..b])
  {
    if i + 1 < |s| && s[i + 1] == '$' {
      assert s[i + 1..i + 2] == "$";
    }
  }

  /** Whether position `k` holds a `$` that find() turns into a reference. */
  predicate StartsReference(s: string, k: nat) {
    k < |s| && s[k] == '$' && MatchAt(s, k).Some?
  }

  /** No reference starts in [from, to). */
  predicate NoReferenceBetween(s: string, from: nat, to: nat) {
    forall k :: from <= k < to ==> !StartsReference(s, k)
  }

  /** `r` is the reference a search from `from` must find: the first one at or after `from`. */
  predicate IsFirstReference(s: string, from: nat, r: Reference) {
    from <= r.start < |s| && s[r.start] == '$' && NoReferenceBetween(s, from, r.start)
    && MatchAt(s, r.start) == Some(r)
  }

  /**
   * The match a find() that searches from `from` returns: the first `$` at or
   * after `from` that starts a reference; every `$` before it stays literal.
   */
  function Scan(s: string, from: nat): (r: Option<Reference>)
    ensures r.Some? ==> from <= r.value.start && r.value.start + r.value.length <= |s| && r.value.length >= 2
    decreases |s| - from
  {
    var i := IndexOf(s, '$', from);
    if i == -1 then None
    else match MatchAt(s, i)
      case Some(m) => Some(m)
      case None => Scan(s, i + 1)
  }

  /** What Scan finds is the first reference at or after `from`; when it finds nothing there is none. */
  lemma {:induction false} ScanSpec(s: string, from: nat)
    ensures Scan(s, from).Some? ==> IsFirstReference(s, from, Scan(s, from).value)
    ensures Scan(s, from).None? ==> NoReferenceBetween(s, from, |s|)
    decreases |s| - from
  {
    var i := IndexOf(s, '$', from);
    IndexOfSpec(s, '$', from);
    if i == -1 {
      assert Scan(s, from) == None;
      NoDollarNoReference(s, from, |s|);
    } else {
      NoDollarNoReference(s, from, i);
      if MatchAt(s, i).Some? {
        assert Scan(s, from) == MatchAt(s, i);
      } else {
        assert Scan(s, from) == Scan(s, i + 1);
        ScanSpec(s, i + 1);
        assert !StartsReference(s, i);
        if Scan(s, from).None? {
          NoReferenceJoin(s, from, i, |s|);
        } else {
          NoReferenceJoin(s, from, i, Scan(s, from).value.start);
        }
      }
    }
  }

  /** Where there is no `$` there is no reference. */
  lemma {:induction false} NoDollarNoReference(s: string, from: nat, to: nat)
    requires forall k :: from <= k < to && k < |s| ==> s[k] != '$'
    ensures NoReferenceBetween(s, from, to)
  {
  }

  /** No reference before `i`, none at `i` and none after it up to `to`: none in [from, to). */
  lemma {:induction false} NoReferenceJoin(s: string, from: nat, i: nat, to: nat)
    requires from <= i < to
    requires NoReferenceBetween(s, from, i) && !StartsReference(s, i) && NoReferenceBetween(s, i + 1, to)
    ensures NoReferenceBetween(s, from, to)
  {
  }

  /** The text a reference was found in: value.substring(start, start + length). */
  function Definition(s: string, r: Reference): string
  {
    if r.start + r.length <= |s| then s[r.start..r.start + r.length] else []
  }

  /**
   * The text rebuilt with every match from `from` on replaced: the pieces
   * appendReplacement and appendTail put together.
   */
  function Substitute(s: string, from: nat, replace: Reference -> string): string
    requires from <= |s|
    decreases |s| - from
  {
    match Scan(s, from)
    case None => s[from..]
    case Some(r) => s[from..r.start] + replace(r) + Substitute(s, r.start + r.length, replace)
  }

  /** Replacing every match by its own definition gives back the text. */
  lemma {:induction false} SubstituteDefinitions(s: string, from: nat)
    requires from <= |s|
    ensures Substitute(s, from, r => Definition(s, r)) == s[from..]
    decreases |s| - from
  {
    var replace := r => Definition(s, r);
    var found := Scan(s, from);
    if found.Some? {
      var r := found.value;
      SubstituteDefinitions(s, r.start + r.length);
      SubstituteKeeps(s, from, replace, r);
    }
  }

  /** A step whose replacement is the match's own text, before a rest rebuilt unchanged, keeps the text. */
  lemma {:induction false} SubstituteKeeps(s: string, from: nat, replace: Reference -> string, r: Reference)
    requires from <= |s| && Scan(s, from) == Some(r)
    requires replace(r) == Definition(s, r)
    requires r.start + r.length <= |s| ==> Substitute(s, r.start + r.length, replace) == s[r.start + r.length..]
    ensures Substitute(s, from, replace) == s[from..]
  {
    var next := r.start + r.length;
    SubstituteStep(s, from, replace, r);
    Reassemble(s, from, r.start, next, replace(r), s[next..]);
  }

  /** One step of the rebuild: the text up to the match, its replacement, then the rest. */
  lemma {:induction false} SubstituteStep(s: string, from: nat, replace: Reference -> string, r: Reference)
    requires from <= |s| && Scan(s, from) == Some(r)
    requires from <= r.start && r.start + r.length <= |s|
    ensures Substitute(s, from, replace) == s[from..r.start] + replace(r) + Substitute(s, r.start + r.length, replace)
  {
  }

  /** Three adjacent slices put back together. */
  lemma {:induction false} Reassemble(s: string, from: nat, a: nat, b: nat, middle: string, rest: string)
    requires from <= a <= b <= |s|
    requires middle == s[a..b] && rest == s[b..]
    ensures s[from..a] + middle + rest == s[from..]
  {
    assert s[from..] == s[from..a] + s[a..b] + s[b..];
  }

  /** One step of the search: the first `$` after `from` either starts the match or is skipped. */
  lemma {:induction false} ScanStep(s: string, from: nat)
    requires IndexOf(s, '$', from) != -1
    ensures var i := IndexOf(s, '$', from);
            Scan(s, from) == if MatchAt(s, i).Some? then MatchAt(s, i) else Scan(s, i + 1)
  {
  }

  /**
   * The cursor: `startIndex` is the current match (or -1 once the text is
   * exhausted), `substitutionLength` its length, and `endIndex` how far the
   * output has been rebuilt.
   */
  class VariableParser {
    const value: string
    var startIndex: int
    var endIndex: int
    var substitutionLength: int
    var variableName: Option<string>
    var defaultValue: Option<string>

    ghost predicate Valid()
      reads this
    {
      -1 <= startIndex && 0 <= substitutionLength && 0 <= endIndex <= |value|
      && (startIndex >= 0 ==> startIndex + substitutionLength <= |value|)
    }

    constructor(value: string)
      ensures Valid() && this.value == value
      ensures startIndex == 0 && endIndex == 0 && substitutionLength == 0
      ensures variableName == None && defaultValue == None
    {
      this.value := value;
      startIndex, endIndex, substitutionLength := 0, 0, 0;
      variableName, defaultValue := None, None;
    }

    /**
     * Moves to the next reference. Searching resumes right after the current
     * match; after a `$` that starts nothing, right after that `$`.
     */
    method Find() returns (found: bool)
      requires Valid()
      modifies this`startIndex, this`substitutionLength, this`variableName, this`defaultValue
      ensures Valid()
      ensures old(startIndex) < 0 ==>
                !found && startIndex == old(startIndex) && substitutionLength == old(substitutionLength)
                && variableName == old(variableName) && defaultValue == old(defaultValue)
      ensures old(startIndex) >= 0 ==>
                var from := old(startIndex) + old(substitutionLength);
                if found then
                  0 <= startIndex && variableName.Some?
                  && IsFirstReference(value, from, Reference(startIndex, substitutionLength, variableName.value, defaultValue))
                else
                  startIndex == -1 && NoReferenceBetween(value, from, |value|) && variableName == old(variableName)
                  && if '$' !in value[from..]
                     then substitutionLength == old(substitutionLength) && defaultValue == old(defaultValue)
                     else substitutionLength == 1 && defaultValue == None
    {
      ghost var from := startIndex + substitutionLength;
      ghost var skipped := false;
      while startIndex >= 0
        invariant Valid()
        invariant old(startIndex) < 0 ==> !skipped
        invariant variableName == old(variableName)
        invariant !skipped ==> startIndex == old(startIndex) && substitutionLength == old(substitutionLength)
                               && defaultValue == old(defaultValue)
        invariant skipped ==> from <= startIndex < |value| && value[startIndex] == '$'
                              && substitutionLength == 1 && defaultValue == None
        invariant startIndex >= 0 ==> NoReferenceBetween(value, from, startIndex + substitutionLength)
        decreases |value| + 1 - startIndex - substitutionLength
      {
        var resume := startIndex + substitutionLength;
        startIndex := IndexOf(value, '$', resume);
        IndexOfSpec(value, '$', resume);
        if startIndex < 0 {
          assert skipped ==> value[from..][resume - 1 - from] == '$';
          return false;
        }
        substitutionLength := 1;
        defaultValue := None;
        skipped := true;
        var matched := ReadReference();
        if matched {
          return true;
        }
      }
      return false;
    }

    /**
     * The rest of find()'s loop once a `$` is at `startIndex` (length 1, no
     * default): reads the reference that starts there, or leaves the length
     * at 1 so the search resumes after this `$`.
     */
    method ReadReference() returns (matched: bool)
      requires Valid() && 0 <= startIndex < |value| && value[startIndex] == '$'
      requires substitutionLength == 1 && defaultValue == None
      modifies this`substitutionLength, this`variableName, this`defaultValue
      ensures Valid()
      ensures matched == MatchAt(value, startIndex).Some?
      ensures matched ==> variableName.Some?
                          && MatchAt(value, startIndex) ==
                             Some(Reference(startIndex, substitutionLength, variableName.value, defaultValue))
      ensures !matched ==> substitutionLength == 1 && defaultValue == None && variableName == old(variableName)
    {
      if startIndex + 1 == |value| {
        return false;
      }
      if value[startIndex + 1] == '{' {
        matched := ReadBracedReference();
        return;
      }
      if value[startIndex + 1] == '$' {
        MatchAtDouble(value, startIndex);
        variableName := Some("$");
        substitutionLength := 2;
        return true;
      }
      MatchAtBare(value, startIndex);
      var end := FindFirstNonValidNameCharacter(startIndex + 1);
      if end == startIndex + 1 {
        return false;
      }
      variableName := Some(value[startIndex + 1..end]);
      substitutionLength := end - startIndex;
      return true;
    }

    /** The `${` case: the name up to the first unnested `:` or `}`, the default after the `:`. */
    method ReadBracedReference() returns (matched: bool)
      requires Valid() && 0 <= startIndex && startIndex + 1 < |value|
      requires value[startIndex] == '$' && value[startIndex + 1] == '{'
      requires substitutionLength == 1 && defaultValue == None
      modifies this`substitutionLength, this`variableName, this`defaultValue
      ensures Valid()
      ensures matched == MatchAt(value, startIndex).Some?
      ensures matched ==> variableName.Some?
                          && MatchAt(value, startIndex) ==
                             Some(Reference(startIndex, substitutionLength, variableName.value, defaultValue))
      ensures !matched ==> substitutionLength == 1 && defaultValue == None && variableName == old(variableName)
    {
      var endBracket := FindRelevantChar('}', startIndex + 2, |value|);
      if endBracket == -1 {
        MatchAtBraced(value, startIndex, endBracket, -1);
        return false;
      }
      var separator := FindRelevantChar(':', startIndex + 2, endBracket);
      MatchAtBraced(value, startIndex, endBracket, separator);
      if separator == -1 {
        variableName := Some(value[startIndex + 2..endBracket]);
      } else {
        variableName := Some(value[startIndex + 2..separator]);
        defaultValue := Some(value[separator + 1..endBracket]);
      }
      substitutionLength := endBracket + 1 - startIndex;
      return true;
    }

    method FindFirstNonValidNameCharacter(fromIndex: nat) returns (r: nat)
      requires fromIndex <= |value|
      ensures r == NameEnd(value, fromIndex)
    {
      r := fromIndex;
      while r < |value| && IsValidNameCharacter(value[r])
        invariant fromIndex <= r <= |value|
        invariant NameEnd(value, r) == NameEnd(value, fromIndex)
      {
        r := r + 1;
      }
    }

    /** The brace-depth scan: `stack` counts the braces opened since `fromIndex`. */
    method FindRelevantChar(c: char, fromIndex: nat, toIndex: nat) returns (r: int)
      requires fromIndex <= toIndex <= |value|
      ensures r == RelevantChar(value, c, fromIndex, toIndex)
    {
      var stack := 0;
      var i := fromIndex;
      while i < toIndex && (stack > 0 || value[i] != c)
        invariant fromIndex <= i <= toIndex
        invariant stack == Depth(value, fromIndex, i)
        invariant RelevantCharFrom(value, c, fromIndex, i, toIndex) == RelevantChar(value, c, fromIndex, toIndex)
      {
        if value[i] == '{' {
          stack := stack + 1;
        } else if value[i] == '}' {
          stack := stack - 1;
        }
        i := i + 1;
      }
      r := if i < toIndex then i else -1;
    }

    /** Appends the text since the last match, then `replacement`; the output now reaches past this match. */
    method AppendReplacement(sb: TextBuilder, replacement: string)
      requires Valid() && 0 <= endIndex <= startIndex
      modifies this`endIndex, sb
      ensures Valid()
      ensures sb.text == old(sb.text) + value[old(endIndex)..startIndex] + replacement
      ensures endIndex == startIndex + substitutionLength
    {
      sb.Append(value[endIndex..startIndex]);
      sb.Append(replacement);
      endIndex := startIndex + substitutionLength;
    }

    /** Appends the rest of the text. */
    method AppendTail(sb: TextBuilder)
      requires Valid()
      modifies this`endIndex, sb
      ensures Valid()
      ensures sb.text == old(sb.text) + value[old(endIndex)..]
      ensures endIndex == |value|
    {
      sb.Append(value[endIndex..]);
      endIndex := |value|;
    }

    /** The text of the current match. */
    function Definition(): string
      reads this
      requires Valid() && startIndex >= 0
    {
      value[startIndex..startIndex + substitutionLength]
    }

    function VariableName(): Option<string>
      reads this
    {
      variableName
    }

    function DefaultValue(): Option<string>
      reads this
    {
      defaultValue
    }
  }

  /** A prefix of `s` grows by the text up to a match and the match's own text. */
  lemma {:induction false} PrefixGrows(s: string, a: nat, b: nat, c: nat, definition: string)
    requires a <= b <= c <= |s| && definition == s[b..c]
    ensures s[..c] == s[..a] + s[a..b] + definition
  {
    assert s[..c] == s[..a] + s[a..b] + s[b..c];
  }

  /**
   * Find, then append each match's own definition, then the tail: the
   * output is the input, whatever references it holds.
   */
  method ReplaceByDefinitions(text: string) returns (out: string)
    ensures out == text
  {
    var m := new VariableParser(text);
    var sb := new TextBuilder();
    var found := m.Find();
    while found
      invariant m.Valid() && m.value == text
      invariant found ==> 0 <= m.endIndex <= m.startIndex && m.substitutionLength >= 2
      invariant sb.text == text[..m.endIndex]
      decreases |text| - m.endIndex
    {
      ghost var before := m.endIndex;
      var definition := m.Definition();
      m.AppendReplacement(sb, definition);
      PrefixGrows(text, before, m.startIndex, m.endIndex, definition);
      found := m.Find();
    }
    m.AppendTail(sb);
    assert text[..m.endIndex] == text;
    out := sb.text;
  }

  /** `$$$$` is two escaped dollars, each a match of the name `$`, and nothing after them. */
  lemma {:induction false} EscapedDollarsExample(s: string)
    requires s == "$$$$"
    ensures Scan(s, 0) == Some(Reference(0, 2, "$", None))
    ensures Scan(s, 2) == Some(Reference(2, 2, "$", None))
    ensures Scan(s, 4) == None
  {
    MatchAtDouble(s, 0);
    MatchAtDouble(s, 2);
  }

  /**
   * `${1${${${3}}2}}` is one reference: the braces opened inside it keep the
   * inner `}` from closing it, so its name is everything between the outer
   * braces.
   */
  lemma {:induction false} NestedBracesExample(s: string)
    requires s == "${1${${${3}}2}}"
    ensures MatchAt(s, 0) == Some(Reference(0, 15, "1${${${3}}2}", None))
    ensures Scan(s, 0) == MatchAt(s, 0)
  {
    assert |s| == 15;
    assert s[0] == '$' && s[1] == '{';
    NestedBracesClose(s);
    NestedBracesNoSeparator(s);
    MatchAtBraced(s, 0, 14, -1);
    assert s[2..14] == "1${${${3}}2}";
  }

  /** No `:` separates a default inside the outer braces. */
  lemma {:induction false} NestedBracesNoSeparator(s: string)
    requires s == "${1${${${3}}2}}"
    ensures RelevantChar(s, ':', 2, 14) == -1
  {
    assert forall k :: 2 <= k < 14 ==> s[k] != ':';
    RelevantCharSpec(s, ':', 2, 14);
  }

  /** The first `}` outside the braces opened after `${` is the last character. */
  lemma {:induction false} NestedBracesClose(s: string)
    requires s == "${1${${${3}}2}}"
    ensures RelevantChar(s, '}', 2, 15) == 14
  {
    assert Depth(s, 2, 3) == 0 && Depth(s, 2, 4) == 0 && Depth(s, 2, 5) == 1;
    assert Depth(s, 2, 6) == 1 && Depth(s, 2, 7) == 2 && Depth(s, 2, 8) == 2;
    assert Depth(s, 2, 9) == 3 && Depth(s, 2, 10) == 3 && Depth(s, 2, 11) == 2;
    assert Depth(s, 2, 12) == 1 && Depth(s, 2, 13) == 1 && Depth(s, 2, 14) == 0;
    assert IsRelevant(s, '}', 2, 14);
    assert forall k :: 2 <= k < 14 ==> !IsRelevant(s, '}', 2, k) by {
      assert s[10] == '}' && s[11] == '}' && s[13] == '}';
      assert forall k :: 2 <= k < 14 && k != 10 && k != 11 && k != 13 ==> s[k] != '}';
    }
    RelevantCharSpec(s, '}', 2, 15);
  }
}
