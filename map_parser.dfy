/**
 * MapParser of config-injection 1.0: a `k:v, k2:v2` literal read into an
 * insertion-ordered map. Entries are separated by commas and keys from values
 * by the first colon, neither counting inside quotes or after a backslash;
 * keys and values are trimmed, lose one pair of matching quotes around them
 * and have their escape backslashes removed; an entry without a colon maps its
 * key to null.
 */
module MapParsing {
  import opened Wrappers
  import opened JavaText
  import opened Builders
  import opened LinkedMaps

  /** The flags of indexOf: the quote character open, if any, and whether the next character is skipped. */
  datatype QuoteState = QuoteState(quote: Option<char>, escaped: bool)

  const Start := QuoteState(None, false)

  /** Whether `c` is one of the characters indexOf treats specially. */
  predicate IsSpecial(c: char) {
    c == '\\' || c == '\'' || c == '"'
  }

  /**
   * indexOf's flags after one character: a skipped character only clears the
   * skip; a backslash skips the next; a quote opens a quote when none is
   * open and closes the one it matches.
   */
  function NextState(st: QuoteState, c: char): QuoteState {
    if st.escaped then QuoteState(st.quote, false)
    else if c == '\\' then QuoteState(st.quote, true)
    else if c == '\'' || c == '"' then
      QuoteState(if st.quote.None? then Some(c) else if st.quote == Some(c) then None else st.quote, false)
    else st
  }

  /** The flags after reading `t` from `st`. */
  function Run(st: QuoteState, t: string): QuoteState
    decreases |t|
  {
    if t == [] then st else Run(NextState(st, t[0]), t[1..])
  }

  lemma {:induction false} RunAppend(st: QuoteState, a: string, b: string)
    ensures Run(st, a + b) == Run(Run(st, a), b)
    decreases |a|
  {
    if a == [] {
      assert a + b == b;
    } else {
      assert (a + b)[0] == a[0];
      assert (a + b)[1..] == a[1..] + b;
      RunAppend(NextState(st, a[0]), a[1..], b);
    }
  }

  /**
   * Position `k` of `s` is where indexOf, scanning after `from`, stops for
   * `ch`: the character is `ch` (which is none of the special characters),
   * it is not skipped and no quote is open.
   */
  predicate SplitsAt(s: string, from: int, k: nat, ch: char) {
    -1 <= from < k < |s| && s[k] == ch && !IsSpecial(ch) && Run(Start, s[from + 1..k]) == Start
  }

  /**
   * MapParser.indexOf(s, from, ch): the first position after `from` where
   * the scan stops for `ch`, or the length of `s` when there is none.
   */
  function QuotedIndexOf(s: string, from: int, ch: char): (r: int)
    requires -1 <= from < |s|
    ensures from < r <= |s|
    ensures r < |s| ==> SplitsAt(s, from, r, ch)
    ensures forall k :: from < k < r ==> !SplitsAt(s, from, k, ch)
  {
    FirstSplit(s, from, from + 1, ch)
  }

  function FirstSplit(s: string, from: int, k: nat, ch: char): (r: nat)
    requires -1 <= from < k <= |s|
    ensures k <= r <= |s|
    ensures r < |s| ==> SplitsAt(s, from, r, ch)
    ensures forall j :: k <= j < r ==> !SplitsAt(s, from, j, ch)
    decreases |s| - k
  {
    if k == |s| || SplitsAt(s, from, k, ch) then k else FirstSplit(s, from, k + 1, ch)
  }

  /** The stop indexOf makes is the only position with QuotedIndexOf's properties. */
  lemma {:induction false} QuotedIndexOfUnique(s: string, from: int, ch: char, r: int)
    requires -1 <= from < r <= |s|
    requires r < |s| ==> SplitsAt(s, from, r, ch)
    requires forall k :: from < k < r ==> !SplitsAt(s, from, k, ch)
    ensures r == QuotedIndexOf(s, from, ch)
  {
  }

  /** The loop of indexOf, with its `inQuotes` and `ignoreChar` flags. */
  method UnquotedIndexOf(s: string, fromIndex: int, ch: char) returns (r: int)
    requires -1 <= fromIndex < |s|
    ensures r == QuotedIndexOf(s, fromIndex, ch)
  {
    var inQuotes: Option<char> := None;
    var ignoreChar := false;
    var i := fromIndex + 1;
    while i < |s|
      invariant fromIndex + 1 <= i <= |s|
      invariant QuoteState(inQuotes, ignoreChar) == Run(Start, s[fromIndex + 1..i])
      invariant forall k :: fromIndex < k < i ==> !SplitsAt(s, fromIndex, k, ch)
    {
      RunAppend(Start, s[fromIndex + 1..i], [s[i]]);
      assert s[fromIndex + 1..i + 1] == s[fromIndex + 1..i] + [s[i]];
      if ignoreChar {
        ignoreChar := false;
      } else {
        var c := s[i];
        if c == '\\' {
          ignoreChar := true;
        } else if c == '\'' || c == '"' {
          if inQuotes.None? {
            inQuotes := Some(c);
          } else if inQuotes == Some(c) {
            inQuotes := None;
          }
        } else if c == ch && inQuotes.None? {
          QuotedIndexOfUnique(s, fromIndex, ch, i);
          return i;
        }
      }
      i := i + 1;
    }
    QuotedIndexOfUnique(s, fromIndex, ch, i);
    return i;
  }

  /** One pair of matching single or double quotes around a text of two or more characters removed. */
  function StripQuotes(t: string): (r: string)
    ensures |t| >= 2 && (t[0] == '\'' || t[0] == '"') && t[0] == t[|t| - 1] ==> r == t[1..|t| - 1]
    ensures !(|t| >= 2 && (t[0] == '\'' || t[0] == '"') && t[0] == t[|t| - 1]) ==> r == t
  {
    if |t| >= 2 && (t[0] == '\'' || t[0] == '"') && t[0] == t[|t| - 1] then t[1..|t| - 1] else t
  }

  /**
   * The escape backslashes removed: a backslash stands for the character
   * after it, whatever that is; a backslash at the very end stays.
   */
  function Unescape(u: string): string
    decreases |u|
  {
    if u == [] then []
    else if u[0] == '\\' && |u| >= 2 then [u[1]] + Unescape(u[2..])
    else [u[0]] + Unescape(u[1..])
  }

  /** Text without a backslash is copied as it is. */
  lemma {:induction false} UnescapeUpTo(u: string, from: nat, to: nat)
    requires from <= to <= |u| && forall k :: from <= k < to ==> u[k] != '\\'
    ensures Unescape(u[from..]) == u[from..to] + Unescape(u[to..])
    decreases |u| - from
  {
    if from < to {
      assert u[from..][1..] == u[from + 1..];
      UnescapeUpTo(u, from + 1, to);
      assert u[from..to] == [u[from]] + u[from + 1..to];
    }
  }

  /** A backslash followed by a character: that character, then the rest. */
  lemma {:induction false} UnescapeAt(u: string, i: nat)
    requires i + 1 < |u| && u[i] == '\\'
    ensures Unescape(u[i..]) == [u[i + 1]] + Unescape(u[i + 2..])
  {
    assert u[i..][2..] == u[i + 2..];
  }

  /** clean on a non-null string (the escape removal as intended; see UnescapeAsWritten). */
  function CleanedText(s: string): string {
    var t := Trim(s);
    if |t| < 2 then t else Unescape(StripQuotes(t))
  }

  /** clean: null stays null. */
  function Cleaned(s: Option<string>): Option<string> {
    if s.None? then None else Some(CleanedText(s.value))
  }

  /**
   * clean, with the escape loop searching for the next escape after the
   * escaped character (the source's loop searches from the escaped
   * character itself; see UnescapeAsWritten).
   */
  method Clean(s: Option<string>) returns (r: Option<string>)
    ensures r == Cleaned(s)
  {
    if s.None? {
      return None;
    }
    var t := Trim(s.value);
    if |t| < 2 {
      return Some(t);
    }
    var u := t;
    var firstChar := u[0];
    if (firstChar == '\'' || firstChar == '"') && firstChar == u[|u| - 1] {
      u := u[1..|u| - 1];
    }
    assert u == StripQuotes(t);
    var v := RemoveEscapes(u);
    return Some(v);
  }

  /** The escape loop of clean (as intended). */
  method RemoveEscapes(u: string) returns (r: string)
    ensures r == Unescape(u)
  {
    var begin := 0;
    var end := IndexOf(u, '\\', 0);
    IndexOfSpec(u, '\\', 0);
    if end == -1 {
      UnescapeUpTo(u, 0, |u|);
      assert u[0..] == u && u[|u|..] == [] && u[0..|u|] == u;
      assert Unescape(u) == u + Unescape([]) == u;
      return u;
    }
    UnescapeUpTo(u, 0, end);
    assert u[0..] == u;
    if end == |u| - 1 {
      assert u[end..] == "\\";
      assert u[0..end] + "\\" == u;
      return u;
    }
    r := EscapeLoop(u, end);
  }

  /**
   * The do/while of clean's escape removal, from the first backslash on
   * (corrected: the next backslash is searched for after the escaped
   * character, and a final backslash ends the loop and stays, as line 48
   * keeps one; see UnescapeAsWritten).
   */
  method EscapeLoop(u: string, first: nat) returns (r: string)
    requires first < |u| - 1 && u[first] == '\\'
    requires Unescape(u) == u[0..first] + Unescape(u[first..])
    ensures r == Unescape(u)
  {
    var begin, end := 0, first;
    var sb := new TextBuilder();
    while true
      invariant 0 <= begin <= end < |u| - 1 && u[end] == '\\'
      invariant Unescape(u) == sb.text + u[begin..end] + Unescape(u[end..])
      decreases |u| - end
    {
      ghost var before := sb.text;
      sb.Append(u[begin..end]);
      var at := end;
      ghost var done := sb.text;
      Regroup(Unescape(u), before, u[begin..end], Unescape(u[at..]));
      begin := at + 1;
      end := IndexOf(u, '\\', begin + 1);
      EscapeNext(u, done, at, end);
      if end == -1 || end == |u| - 1 {
        break;
      }
    }
    sb.Append(u[begin..]);
    return sb.text;
  }

  /** Appending a piece to the text already built keeps what is still to come. */
  lemma {:induction false} Regroup(whole: string, built: string, piece: string, rest: string)
    requires whole == built + piece + rest
    ensures whole == (built + piece) + rest
  {
  }

  /** One round of the loop: from the escape at `at` to the next backslash `next`, if any. */
  lemma {:induction false} EscapeNext(u: string, done: string, at: nat, next: int)
    requires at + 1 < |u| && u[at] == '\\'
    requires Unescape(u) == done + Unescape(u[at..])
    requires next == IndexOf(u, '\\', at + 2)
    ensures next == -1 || next == |u| - 1 ==> Unescape(u) == done + u[at + 1..]
    ensures next != -1 ==> at + 1 < next < |u| && u[next] == '\\'
                           && Unescape(u) == done + u[at + 1..next] + Unescape(u[next..])
  {
    IndexOfSpec(u, '\\', at + 2);
    if next == -1 {
      EscapeTail(u, done, at);
    } else {
      EscapeAdvance(u, done, at, next);
      if next == |u| - 1 {
        EscapeTrailing(u, done, at + 1);
      }
    }
  }

  /** The loop's invariant carried past one escape and the plain text after it. */
  lemma {:induction false} EscapeAdvance(u: string, done: string, at: nat, next: nat)
    requires at + 1 < next <= |u| && u[at] == '\\'
    requires forall k :: at + 2 <= k < next ==> u[k] != '\\'
    requires Unescape(u) == done + Unescape(u[at..])
    ensures Unescape(u) == done + u[at + 1..next] + Unescape(u[next..])
  {
    EscapeStep(u, at, next);
    assert done + (u[at + 1..next] + Unescape(u[next..])) == done + u[at + 1..next] + Unescape(u[next..]);
  }

  /** The last escape, with no backslash after it: the rest is copied. */
  lemma {:induction false} EscapeTail(u: string, done: string, at: nat)
    requires at + 1 < |u| && u[at] == '\\'
    requires forall k :: at + 2 <= k < |u| ==> u[k] != '\\'
    requires Unescape(u) == done + Unescape(u[at..])
    ensures Unescape(u) == done + u[at + 1..]
  {
    EscapeStep(u, at, |u|);
  }

  /** A backslash as the last character ends the loop with the rest copied. */
  lemma {:induction false} EscapeTrailing(u: string, done: string, begin: nat)
    requires begin < |u| && u[|u| - 1] == '\\'
    requires Unescape(u) == done + u[begin..|u| - 1] + Unescape(u[|u| - 1..])
    ensures Unescape(u) == done + u[begin..]
  {
    TrailingBackslash(u, begin);
    assert done + u[begin..|u| - 1] + Unescape(u[|u| - 1..]) == done + (u[begin..|u| - 1] + Unescape(u[|u| - 1..]));
  }

  /** An escape, then text without a backslash up to `next`. */
  lemma {:induction false} EscapeStep(u: string, at: nat, next: nat)
    requires at + 1 < next <= |u| && u[at] == '\\'
    requires forall k :: at + 2 <= k < next ==> u[k] != '\\'
    ensures Unescape(u[at..]) == u[at + 1..next] + Unescape(u[next..])
    ensures next == |u| ==> Unescape(u[at..]) == u[at + 1..]
  {
    UnescapeAt(u, at);
    UnescapeUpTo(u, at + 2, next);
    assert u[at + 1..next] == [u[at + 1]] + u[at + 2..next];
  }

  /** A backslash as the last character stays. */
  lemma {:induction false} TrailingBackslash(u: string, begin: nat)
    requires begin < |u| && u[|u| - 1] == '\\'
    ensures u[begin..|u| - 1] + Unescape(u[|u| - 1..]) == u[begin..]
  {
    assert u[|u| - 1..] == "\\";
    assert u[begin..|u| - 1] + "\\" == u[begin..];
  }

  /** One entry of the map: the key, and the value or null when there is no unquoted `:`. */
  function ParsedEntry(entry: string): (string, Option<string>)
    requires entry != []
  {
    var separator := QuotedIndexOf(entry, -1, ':');
    if separator == |entry| then (CleanedText(entry), None)
    else (CleanedText(Trim(entry[..separator])), Cleaned(Some(Trim(entry[separator + 1..]))))
  }

  /** The entry between two separators: none when it is empty or blank. */
  function EntryAt(s: string, begin: nat, end: nat): seq<(string, Option<string>)>
    requires begin <= end <= |s|
  {
    if begin == end then []
    else
      var entry := Trim(s[begin..end]);
      if entry == [] then [] else [ParsedEntry(entry)]
  }

  /** The entries after the separator at `endEntry` (-1 before the first), in order. */
  function EntriesFrom(s: string, endEntry: int): seq<(string, Option<string>)>
    requires -1 <= endEntry < |s|
    decreases |s| - endEntry
  {
    var end := QuotedIndexOf(s, endEntry, ',');
    EntryAt(s, endEntry + 1, end) + if end < |s| then EntriesFrom(s, end) else []
  }

  lemma {:induction false} EntriesFromStep(s: string, endEntry: int)
    requires -1 <= endEntry < |s|
    ensures var end := QuotedIndexOf(s, endEntry, ',');
            EntriesFrom(s, endEntry) == EntryAt(s, endEntry + 1, end) + if end < |s| then EntriesFrom(s, end) else []
  {
  }

  /** The entries of the trimmed input, in order. */
  function ParsedEntries(input: string): seq<(string, Option<string>)> {
    var s := Trim(input);
    if s == [] then [] else EntriesFrom(s, -1)
  }

  /** parseMap: the entries `put` into an empty LinkedHashMap in order. */
  function ParsedMap(input: string): LinkedMap<string, Option<string>> {
    PutAll(Empty(), ParsedEntries(input))
  }

  /** The body of parseMap's loop for one non-blank entry. */
  method ParseEntry(entry: string) returns (key: string, val: Option<string>)
    requires entry != []
    ensures (key, val) == ParsedEntry(entry)
  {
    var separator := UnquotedIndexOf(entry, -1, ':');
    var k;
    if separator == |entry| {
      k := Clean(Some(entry));
      val := Clean(None);
      assert k == Some(CleanedText(entry)) && val == None;
      ParsedEntryWhole(entry);
    } else {
      var keyText := Trim(entry[..separator]);
      k := Clean(Some(keyText));
      val := Clean(Some(Trim(entry[separator + 1..])));
      assert k == Some(CleanedText(keyText));
      ParsedEntrySplit(entry, separator);
    }
    key := k.value;
  }

  /** An entry without an unquoted colon is a key without a value. */
  lemma {:induction false} ParsedEntryWhole(entry: string)
    requires entry != [] && QuotedIndexOf(entry, -1, ':') == |entry|
    ensures ParsedEntry(entry) == (CleanedText(entry), None)
  {
  }

  /** An entry with an unquoted colon is the key before it and the value after it. */
  lemma {:induction false} ParsedEntrySplit(entry: string, separator: nat)
    requires entry != [] && separator == QuotedIndexOf(entry, -1, ':') && separator < |entry|
    ensures ParsedEntry(entry) == (CleanedText(Trim(entry[..separator])), Cleaned(Some(Trim(entry[separator + 1..]))))
  {
  }

  /** One pass of parseMap's loop: the entry between the separators, if not blank, `put` into the map. */
  method PutEntry(s: string, beginEntry: nat, endEntry: nat, m: LinkedMap<string, Option<string>>)
    returns (result: LinkedMap<string, Option<string>>)
    requires beginEntry <= endEntry <= |s|
    ensures result == PutAll(m, EntryAt(s, beginEntry, endEntry))
  {
    result := m;
    if beginEntry != endEntry {
      var entry := Trim(s[beginEntry..endEntry]);
      if entry != [] {
        var key, val := ParseEntry(entry);
        PutAllOne(m, key, val);
        result := result.Put(key, val);
      }
    }
  }

  /** parseMap's do/while over the entries. */
  method ParseMap(input: string) returns (result: LinkedMap<string, Option<string>>)
    ensures result == ParsedMap(input)
  {
    result := Empty();
    var s := Trim(input);
    if s == [] {
      return;
    }
    var endEntry := -1;
    while true
      invariant -1 <= endEntry < |s|
      invariant ParsedMap(input) == PutAll(result, EntriesFrom(s, endEntry))
      decreases |s| - endEntry
    {
      var beginEntry := endEntry + 1;
      ghost var prev := endEntry;
      endEntry := UnquotedIndexOf(s, endEntry, ',');
      EntriesFromStep(s, prev);
      ghost var entries := EntryAt(s, prev + 1, endEntry);
      ghost var rest := if endEntry < |s| then EntriesFrom(s, endEntry) else [];
      PutAllAppend(result, entries, rest);
      result := PutEntry(s, beginEntry, endEntry, result);
      if endEntry >= |s| {
        break;
      }
    }
  }

  /** The map parseMap builds is well formed. */
  lemma {:induction false} ParsedMapValid(input: string)
    ensures ParsedMap(input).Valid()
  {
    PutAllValid(Empty(), ParsedEntries(input));
  }

  /** A key is in the parsed map exactly when some entry has it. */
  lemma {:induction false} ParsedMapKeys(input: string, k: string)
    ensures k in ParsedMap(input).keys <==> HasKey(ParsedEntries(input), k)
  {
    PutAllKeys(Empty(), ParsedEntries(input), k);
  }

  /** A key maps to the value of the LAST entry that has it. */
  lemma {:induction false} ParsedMapLastWins(input: string, i: nat)
    requires i < |ParsedEntries(input)|
    requires forall j :: i < j < |ParsedEntries(input)| ==> ParsedEntries(input)[j].0 != ParsedEntries(input)[i].0
    ensures ParsedEntries(input)[i].0 in ParsedMap(input).values
    ensures ParsedMap(input).values[ParsedEntries(input)[i].0] == ParsedEntries(input)[i].1
  {
    PutAllLastWins(Empty(), ParsedEntries(input), i);
  }

  /*
   * The escape loop as written (MapParser.java lines 47-59): after an escape
   * it searches for the next backslash from the escaped character itself and
   * stops when that character is a backslash, so an escaped backslash ends
   * the removal of escapes.
   */
  function UnescapeAsWritten(u: string): string {
    var end := IndexOf(u, '\\', 0);
    if end == -1 || end == |u| - 1 then u else UnescapeLoopAsWritten(u, 0, end)
  }

  /** The do/while of the escape loop as written, from `begin` with a backslash at `end`. */
  function UnescapeLoopAsWritten(u: string, begin: nat, end: nat): string
    requires begin <= end < |u|
    decreases |u| - begin
  {
    var next := end + 1;
    var found := IndexOf(u, '\\', next);
    u[begin..end] + if next < |u| && found > next then UnescapeLoopAsWritten(u, next, found) else u[next..]
  }

  /** The characters escaped to keep them literal in a key or value. */
  predicate NeedsEscape(c: char) {
    IsSpecial(c) || c == ',' || c == ':'
  }

  /** A text written as a key or value: a backslash before each separator, quote and backslash. */
  function EscapeText(x: string): (r: string)
    ensures |r| >= |x|
    decreases |x|
  {
    if x == [] then [] else EscapeChar(x[0]) + EscapeText(x[1..])
  }

  function EscapeChar(c: char): string {
    if NeedsEscape(c) then ['\\', c] else [c]
  }

  /** Removing the escapes (as intended) gives back the escaped text. */
  lemma {:induction false} UnescapeRoundTrip(x: string)
    ensures Unescape(EscapeText(x)) == x
  {
    UnescapeEscapedThen(x, []);
    assert EscapeText(x) + [] == EscapeText(x);
  }


  /**
   * As written, an escaped backslash ends the removal: `\\\,` (an escaped
   * backslash, then an escaped comma) keeps the second escape, so the text
   * `\,` does not come back.
   */
  lemma {:induction false} AsWrittenKeepsEscape(x: string, u: string)
    requires x == "\\," && u == EscapeText(x)
    ensures u == "\\\\\\,"
    ensures UnescapeAsWritten(u) == "\\\\," != x
    ensures Unescape(u) == x
  {
    assert EscapeText(x[1..]) == "\\,";
    UnescapeRoundTrip(x);
  }

  /** Escaped text, then anything: the escapes come off the first part, the rest is unescaped on its own. */
  lemma {:induction false} UnescapeEscapedThen(x: string, t: string)
    ensures Unescape(EscapeText(x) + t) == x + Unescape(t)
    decreases |x|
  {
    if x != [] {
      var e := EscapeText(x) + t;
      UnescapeEscapedThen(x[1..], t);
      if NeedsEscape(x[0]) {
        assert e[0] == '\\' && e[1] == x[0] && e[2..] == EscapeText(x[1..]) + t;
        assert Unescape(e) == [x[0]] + Unescape(e[2..]);
      } else {
        assert e[0] == x[0] != '\\' && e[1..] == EscapeText(x[1..]) + t;
        assert Unescape(e) == [x[0]] + Unescape(e[1..]);
      }
      assert x + Unescape(t) == [x[0]] + (x[1..] + Unescape(t));
    } else {
      assert EscapeText(x) + t == t;
    }
  }

  /**
   * A final backslash with nothing to escape stays, also after escapes
   * (the corrected removal; line 48 of the source keeps it only when it is
   * the first backslash).
   */
  lemma {:induction false} TrailingBackslashAfterEscapes(x: string)
    ensures Unescape(EscapeText(x) + "\\") == x + "\\"
  {
    UnescapeEscapedThen(x, "\\");
    assert Unescape("\\") == "\\" by {
      assert "\\"[1..] == [];
    }
  }

  /**
   * As written, the final backslash of `b\,c\` (the escaped `b,c` and a
   * backslash) is dropped, while that of `bc\`, the first backslash there,
   * is kept; the corrected removal keeps both.
   */
  lemma {:induction false} AsWrittenDropsTrailing(x: string, u: string, w: string)
    requires x == "b,c" && u == EscapeText(x) + "\\" && w == "bc\\"
    ensures u == "b\\,c\\"
    ensures UnescapeAsWritten(u) == x != x + "\\" == Unescape(u)
    ensures UnescapeAsWritten(w) == w == Unescape(w)
  {
    assert EscapeText("c") == "c";
    assert EscapeText(",c") == "\\,c";
    assert EscapeText(x) == "b\\,c";
    assert IndexOf(u, '\\', 0) == 1;
    assert u[2] == ',' && u[3] == 'c' && u[4] == '\\';
    IndexOfSpec(u, '\\', 2);
    assert IndexOf(u, '\\', 2) == 4;
    assert IndexOf(u, '\\', 5) == -1;
    assert UnescapeLoopAsWritten(u, 2, 4) == ",c" + u[5..];
    assert UnescapeLoopAsWritten(u, 0, 1) == "b" + UnescapeLoopAsWritten(u, 2, 4);
    TrailingBackslashAfterEscapes(x);
    assert w[0] == 'b' && w[1] == 'c' && w[2] == '\\';
    IndexOfSpec(w, '\\', 0);
    assert IndexOf(w, '\\', 0) == 2;
    UnescapeUpTo(w, 0, 2);
    assert w[0..] == w && w[2..] == "\\";
    assert Unescape("\\") == "\\" by {
      assert "\\"[1..] == [];
    }
  }

  /** No position of `t` holding `ch` is reached with the flags at rest. */
  predicate NoSplitIn(t: string, ch: char) {
    forall j :: 0 <= j < |t| && t[j] == ch ==> Run(Start, t[..j]) != Start
  }

  /** One escaped character leaves the flags at rest and offers no separator. */
  lemma {:induction false} EscapeCharRun(c: char, ch: char)
    requires ch == ',' || ch == ':'
    ensures Run(Start, EscapeChar(c)) == Start
    ensures NoSplitIn(EscapeChar(c), ch)
  {
    var h := EscapeChar(c);
    if NeedsEscape(c) {
      assert h[1..] == [c] && h[..1] == ['\\'];
      assert Run(Start, h) == Run(QuoteState(None, true), [c]);
      assert [c][1..] == [];
      assert Run(QuoteState(None, true), [c]) == Run(Start, []);
    } else {
      assert h[1..] == [];
    }
  }

  /** Reading a text at rest, then another, offers only the separators each offers. */
  lemma {:induction false} NoSplitAppend(a: string, b: string, ch: char)
    requires Run(Start, a) == Start && NoSplitIn(a, ch) && NoSplitIn(b, ch)
    ensures NoSplitIn(a + b, ch) && Run(Start, a + b) == Run(Start, b)
  {
    RunAppend(Start, a, b);
    forall j | 0 <= j < |a + b| && (a + b)[j] == ch
      ensures Run(Start, (a + b)[..j]) != Start
    {
      if j < |a| {
        assert (a + b)[..j] == a[..j];
      } else {
        assert (a + b)[..j] == a + b[..j - |a|];
        RunAppend(Start, a, b[..j - |a|]);
      }
    }
  }

  /** An escaped text leaves the flags at rest and offers no separator. */
  lemma {:induction false} EscapeTextRun(x: string, ch: char)
    requires ch == ',' || ch == ':'
    ensures Run(Start, EscapeText(x)) == Start
    ensures NoSplitIn(EscapeText(x), ch)
    decreases |x|
  {
    if x != [] {
      EscapeCharRun(x[0], ch);
      EscapeTextRun(x[1..], ch);
      NoSplitAppend(EscapeChar(x[0]), EscapeText(x[1..]), ch);
    }
  }

  /** The ends of an escaped text: an escape or the first character, and the last character. */
  lemma {:induction false} EscapeTextEnds(x: string)
    requires x != []
    ensures var e := EscapeText(x);
            e != [] && (e[0] == '\\' || e[0] == x[0]) && e[|e| - 1] == x[|x| - 1]
    decreases |x|
  {
    if |x| > 1 {
      EscapeTextEnds(x[1..]);
    }
  }

  /** No trimmable character at either end. */
  predicate Untrimmed(x: string) {
    x == [] || (!IsTrimmable(x[0]) && !IsTrimmable(x[|x| - 1]))
  }

  /** clean gives back a text that was escaped, when trim() does not touch it. */
  lemma {:induction false} CleanedEscaped(x: string)
    requires Untrimmed(x)
    ensures CleanedText(EscapeText(x)) == x
  {
    var e := EscapeText(x);
    if x != [] {
      EscapeTextEnds(x);
    }
    TrimUntouched(e);
    UnescapeRoundTrip(x);
    if |e| < 2 && x != [] {
      assert |x| == 1 && !NeedsEscape(x[0]);
      assert e == EscapeChar(x[0]) + EscapeText([]);
    }
  }

  /** With no separator offered, the scan runs to the end. */
  lemma {:induction false} NoSplitRunsToEnd(s: string, ch: char)
    requires NoSplitIn(s, ch)
    ensures QuotedIndexOf(s, -1, ch) == |s|
  {
    forall k | -1 < k < |s|
      ensures !SplitsAt(s, -1, k, ch)
    {
      assert s[0..k] == s[..k];
    }
    QuotedIndexOfUnique(s, -1, ch, |s|);
  }

  /** Where the scans stop in an escaped key and value joined by a colon. */
  lemma {:induction false} EscapedEntrySeparators(ek: string, ev: string, k: string, v: string)
    requires ek == EscapeText(k) && ev == EscapeText(v)
    ensures QuotedIndexOf(ek + ":" + ev, -1, ',') == |ek + ":" + ev|
    ensures QuotedIndexOf(ek + ":" + ev, -1, ':') == |ek|
  {
    var s := ek + ":" + ev;
    EscapeTextRun(k, ',');
    EscapeTextRun(v, ',');
    EscapeTextRun(k, ':');
    assert NoSplitIn(":", ',') && Run(Start, ":") == Start;
    NoSplitAppend(ek, ":", ',');
    NoSplitAppend(ek + ":", ev, ',');
    NoSplitRunsToEnd(s, ',');
    assert s[0..|ek|] == ek && s[|ek|] == ':';
    forall j | -1 < j < |ek|
      ensures !SplitsAt(s, -1, j, ':')
    {
      assert s[0..j] == ek[..j] && s[j] == ek[j];
    }
    QuotedIndexOfUnique(s, -1, ':', |ek|);
  }

  /** The joined text is one entry, and trim() does not touch it. */
  lemma {:induction false} EscapedEntryIsOne(ek: string, ev: string, k: string, v: string)
    requires ek == EscapeText(k) && ev == EscapeText(v) && Untrimmed(k) && Untrimmed(v)
    ensures Trim(ek + ":" + ev) == ek + ":" + ev
    ensures ParsedEntries(ek + ":" + ev) == [ParsedEntry(ek + ":" + ev)]
  {
    EscapedUntrimmed(k);
    EscapedUntrimmed(v);
    JoinedUntrimmed(ek, ev);
    EscapedEntrySeparators(ek, ev, k, v);
    SingleEntry(ek + ":" + ev);
  }

  /** Escaping keeps a text free of blanks at its ends. */
  lemma {:induction false} EscapedUntrimmed(x: string)
    requires Untrimmed(x)
    ensures Untrimmed(EscapeText(x))
  {
    if x != [] {
      EscapeTextEnds(x);
    }
  }

  /** Two texts without blanks at their ends, joined by a colon, have none either. */
  lemma {:induction false} JoinedUntrimmed(a: string, b: string)
    requires Untrimmed(a) && Untrimmed(b)
    ensures Untrimmed(a + ":" + b)
  {
    var s := a + ":" + b;
    assert s[0] == if a == [] then ':' else a[0];
    assert s[|s| - 1] == if b == [] then ':' else b[|b| - 1];
  }

  /** A trimmed text with no unquoted comma is one entry. */
  lemma {:induction false} SingleEntry(s: string)
    requires s != [] && Untrimmed(s)
    requires QuotedIndexOf(s, -1, ',') == |s|
    ensures Trim(s) == s
    ensures ParsedEntries(s) == [ParsedEntry(s)]
  {
    TrimUntouched(s);
    EntriesFromStep(s, -1);
    assert s[0..|s|] == s;
    assert EntryAt(s, 0, |s|) == [ParsedEntry(s)];
  }

  /** The entry gives back the key and the value. */
  lemma {:induction false} EscapedEntryParts(ek: string, ev: string, k: string, v: string)
    requires ek == EscapeText(k) && ev == EscapeText(v) && Untrimmed(k) && Untrimmed(v)
    ensures ParsedEntry(ek + ":" + ev) == (k, Some(v))
  {
    var s := ek + ":" + ev;
    EscapedEntrySeparators(ek, ev, k, v);
    assert s[..|ek|] == ek && s[|ek| + 1..] == ev;
    if k != [] {
      EscapeTextEnds(k);
    }
    if v != [] {
      EscapeTextEnds(v);
    }
    TrimUntouched(ek);
    TrimUntouched(ev);
    CleanedEscaped(k);
    CleanedEscaped(v);
  }

  /**
   * A key and a value written with their separators, quotes and backslashes
   * escaped, and no blank at either end, parse back to the map holding that
   * key with that value.
   */
  lemma {:induction false} ParseEscapedEntry(k: string, v: string)
    requires Untrimmed(k) && Untrimmed(v)
    ensures ParsedMap(EscapeText(k) + ":" + EscapeText(v)) == LinkedMap([k], map[k := Some(v)])
  {
    var ek, ev := EscapeText(k), EscapeText(v);
    EscapedEntryIsOne(ek, ev, k, v);
    EscapedEntryParts(ek, ev, k, v);
    PutAllOne(Empty(), k, Some(v));
  }

  /** `a:45\\,0` is the map from `a` to `45,0`. */
  lemma {:induction false} EscapedCommaExample(input: string)
    requires input == "a:45\\,0"
    ensures ParsedMap(input) == LinkedMap(["a"], map["a" := Some("45,0")])
  {
    assert EscapeText("a") == "a";
    assert EscapeText("45,0") == "45\\,0" by {
      assert EscapeText("0") == "0";
      assert EscapeText(",0") == "\\,0";
      assert EscapeText("5,0") == "5\\,0";
    }
    assert input == EscapeText("a") + ":" + EscapeText("45,0");
    ParseEscapedEntry("a", "45,0");
  }

  /** Text with no special character leaves the flags at rest. */
  lemma {:induction false} RunPlain(t: string)
    requires forall i :: 0 <= i < |t| ==> !IsSpecial(t[i])
    ensures Run(Start, t) == Start
    decreases |t|
  {
    if t != [] {
      RunPlain(t[1..]);
    }
  }

  /** Separators and blanks only: every entry between the separators is blank. */
  lemma {:induction false} BlankEntriesFrom(s: string, endEntry: int)
    requires -1 <= endEntry < |s|
    requires forall i :: 0 <= i < |s| ==> s[i] == ',' || IsTrimmable(s[i])
    ensures EntriesFrom(s, endEntry) == []
    decreases |s| - endEntry
  {
    var end := QuotedIndexOf(s, endEntry, ',');
    forall j | endEntry < j < end
      ensures IsTrimmable(s[j])
    {
      RunPlain(s[endEntry + 1..j]);
      assert !SplitsAt(s, endEntry, j, ',');
    }
    TrimBlank(s[endEntry + 1..end]);
    if end < |s| {
      BlankEntriesFrom(s, end);
    }
  }

  /** A text of separators and blanks parses to the empty map. */
  lemma {:induction false} BlankInputIsEmpty(input: string)
    requires forall i :: 0 <= i < |input| ==> input[i] == ',' || IsTrimmable(input[i])
    ensures ParsedMap(input) == Empty()
  {
    var s := Trim(input);
    BlankTrimmed(input);
    if s != [] {
      BlankEntriesFrom(s, -1);
    }
    assert ParsedEntries(input) == [];
  }

  /** Trimming a text of separators and blanks leaves separators and blanks. */
  lemma {:induction false} BlankTrimmed(input: string)
    requires forall i :: 0 <= i < |input| ==> input[i] == ',' || IsTrimmable(input[i])
    ensures forall k :: 0 <= k < |Trim(input)| ==> Trim(input)[k] == ',' || IsTrimmable(Trim(input)[k])
  {
    var s := Trim(input);
    TrimSpec(input);
    var i, j :| 0 <= i <= j <= |input| && s == input[i..j];
    forall k | 0 <= k < |s|
      ensures s[k] == ',' || IsTrimmable(s[k])
    {
      assert s[k] == input[i + k];
    }
  }
}
