/**
 * The few functions of Go's `strings` and `strconv` packages that the
 * packager relies on, over Dafny strings (`seq<char>`).
 */
module Strings {

  /** strings.Join: the parts with `sep` between consecutive ones. */
  function Join(parts: seq<string>, sep: string): string
  {
    if |parts| == 0 then ""
    else if |parts| == 1 then parts[0]
    else parts[0] + sep + Join(parts[1..], sep)
  }

  /** Putting one more part in front of a non-empty list adds it and a separator. */
  lemma JoinCons(a: string, rest: seq<string>, sep: string)
    requires rest != []
    ensures Join([a] + rest, sep) == a + sep + Join(rest, sep)
  {
    assert ([a] + rest)[1..] == rest;
  }

  lemma Join2(a: string, b: string, sep: string)
    ensures Join([a, b], sep) == a + sep + b
  {
    assert [a, b][1..] == [b];
  }

  lemma Join3(a: string, b: string, c: string, sep: string)
    ensures Join([a, b, c], sep) == a + sep + b + sep + c
  {
    assert [a, b, c][1..] == [b, c];
    Join2(b, c, sep);
  }

  lemma Join4(a: string, b: string, c: string, d: string, sep: string)
    ensures Join([a, b, c, d], sep) == a + sep + b + sep + c + sep + d
  {
    assert [a, b, c, d][1..] == [b, c, d];
    Join3(b, c, d, sep);
  }

  lemma Join5(a: string, b: string, c: string, d: string, e: string, sep: string)
    ensures Join([a, b, c, d, e], sep) == a + sep + b + sep + c + sep + d + sep + e
  {
    assert [a, b, c, d, e][1..] == [b, c, d, e];
    Join4(b, c, d, e, sep);
  }

  /** Joining two non-empty lists and then the results is joining their concatenation. */
  lemma {:induction false} JoinAppend(a: seq<string>, b: seq<string>, sep: string)
    requires |a| >= 1 && |b| >= 1
    ensures Join(a, sep) + sep + Join(b, sep) == Join(a + b, sep)
  {
    if |a| > 1 {
      JoinAppend(a[1..], b, sep);
      assert (a + b)[1..] == a[1..] + b;
    } else {
      assert (a + b)[1..] == b;
    }
  }

  /** A double-quoted shell word, as escapeValue and escapeVariableValue write it (no escaping inside). */
  function Quote(s: string): (r: string)
    ensures |r| == |s| + 2 && r[0] == '"' && r[|r| - 1] == '"' && r[1..|r| - 1] == s
  {
    "\"" + s + "\""
  }

  /** strings.Split with a one-character separator; never an empty list. */
  function Split(s: string, c: char): (r: seq<string>)
    ensures |r| >= 1
  {
    if s == [] then [""]
    else
      var rest := Split(s[1..], c);
      if s[0] == c then [""] + rest else [[s[0]] + rest[0]] + rest[1..]
  }

  predicate HasPrefix(s: string, prefix: string)
  {
    |prefix| <= |s| && s[..|prefix|] == prefix
  }

  predicate HasSuffix(s: string, suffix: string)
  {
    |suffix| <= |s| && s[|s| - |suffix|..] == suffix
  }

  lemma PrefixOfConcat(a: string, b: string)
    ensures HasPrefix(a + b, a)
  {
    assert (a + b)[..|a|] == a;
  }

  lemma SuffixOfConcat(a: string, b: string)
    ensures HasSuffix(a + b, b)
  {
    assert (a + b)[|a + b| - |b|..] == b;
  }

  /** strings.TrimPrefix */
  function TrimPrefix(s: string, prefix: string): string
  {
    if HasPrefix(s, prefix) then s[|prefix|..] else s
  }

  /** The character class `[0-9a-zA-Z]` of the packager's regular expressions. */
  predicate IsAlnum(c: char)
  {
    ('0' <= c <= '9') || ('a' <= c <= 'z') || ('A' <= c <= 'Z')
  }

  /** The match of `^([0-9a-zA-Z]+)`, or "" when there is none: the longest alphanumeric prefix. */
  function LeadingAlnum(s: string): (r: string)
    ensures HasPrefix(s, r)
    ensures forall i :: 0 <= i < |r| ==> IsAlnum(r[i])
    ensures |r| < |s| ==> !IsAlnum(s[|r|])
  {
    if s == [] || !IsAlnum(s[0]) then "" else [s[0]] + LeadingAlnum(s[1..])
  }

  /*
   * Go's regexp.CompilePOSIX compiles without the one-line flag, so `^`
   * matches at the start of the text and after every newline, and `$` at
   * the end of the text and before every newline.
   */

  /** Where `^` matches under CompilePOSIX. */
  predicate LineStart(s: string, i: int)
  {
    0 <= i <= |s| && (i == 0 || s[i - 1] == '\n')
  }

  /** Where `$` matches under CompilePOSIX. */
  predicate LineEnd(s: string, j: int)
  {
    0 <= j <= |s| && (j == |s| || s[j] == '\n')
  }

  /** The longest run of characters of a class that starts at position `i`. */
  function RunFrom(s: string, i: nat, inClass: char -> bool): (r: string)
    requires i <= |s|
    ensures i + |r| <= |s| && r == s[i..i + |r|]
    ensures forall k :: 0 <= k < |r| ==> inClass(r[k])
    ensures i + |r| < |s| ==> !inClass(s[i + |r|])
    ensures i < |s| && inClass(s[i]) ==> |r| >= 1
    decreases |s| - i
  {
    if i < |s| && inClass(s[i]) then [s[i]] + RunFrom(s, i + 1, inClass) else ""
  }

  /** A match of `^[C]+` can begin at `k`: a line starts there with a character of the class. */
  predicate RunStartsAt(s: string, k: int, inClass: char -> bool)
  {
    0 <= k < |s| && LineStart(s, k) && inClass(s[k])
  }

  /** The leftmost position from `i` on where a match of `^[C]+` can begin, or |s| when there is none. */
  function FirstRunStart(s: string, i: nat, inClass: char -> bool): (k: nat)
    requires i <= |s|
    ensures i <= k <= |s|
    ensures k < |s| ==> RunStartsAt(s, k, inClass)
    ensures forall m :: i <= m < k ==> !RunStartsAt(s, m, inClass)
    decreases |s| - i
  {
    if i == |s| || RunStartsAt(s, i, inClass) then i else FirstRunStart(s, i + 1, inClass)
  }

  /** Any position with the three properties of FirstRunStart is the one it finds. */
  lemma FirstRunStartUnique(s: string, i: nat, k: nat, inClass: char -> bool)
    requires i <= k <= |s|
    requires k < |s| ==> RunStartsAt(s, k, inClass)
    requires forall m :: i <= m < k ==> !RunStartsAt(s, m, inClass)
    ensures FirstRunStart(s, i, inClass) == k
  {
  }

  /**
   * FindString of `^([C]+)` under CompilePOSIX: the longest run at the
   * leftmost position where a match can begin, or "" when there is none.
   */
  function FirstLineRun(s: string, inClass: char -> bool): (r: string)
    ensures r == "" <==> forall k :: 0 <= k < |s| ==> !RunStartsAt(s, k, inClass)
    ensures r != "" ==> FirstRunStart(s, 0, inClass) < |s| && r == RunFrom(s, FirstRunStart(s, 0, inClass), inClass)
  {
    var k := FirstRunStart(s, 0, inClass);
    if k == |s| then "" else RunFrom(s, k, inClass)
  }

  /** When the text itself starts with a character of the class, the match is the run at the start. */
  lemma FirstLineRunAtStart(s: string, inClass: char -> bool)
    requires |s| >= 1 && inClass(s[0])
    ensures FirstLineRun(s, inClass) == RunFrom(s, 0, inClass)
  {
    FirstRunStartUnique(s, 0, 0, inClass);
  }

  /** A run is determined by where the class stops holding. */
  lemma {:induction false} RunFromUnique(s: string, i: nat, n: nat, inClass: char -> bool)
    requires i + n <= |s|
    requires forall k :: i <= k < i + n ==> inClass(s[k])
    requires i + n == |s| || !inClass(s[i + n])
    ensures RunFrom(s, i, inClass) == s[i..i + n]
    decreases n
  {
    if n > 0 {
      RunFromUnique(s, i + 1, n - 1, inClass);
      assert s[i..i + n] == [s[i]] + s[i + 1..i + n];
    }
  }

  /** The run from the start of `line` is `line` itself when the class holds on all of it and not on what follows. */
  lemma RunFromExact(a: string, line: string, rest: string, inClass: char -> bool)
    requires forall k :: 0 <= k < |line| ==> inClass(line[k])
    requires rest == "" || !inClass(rest[0])
    ensures RunFrom(a + line + rest, |a|, inClass) == line
  {
    var s := a + line + rest;
    assert forall k :: |a| <= k < |a| + |line| ==> s[k] == line[k - |a|];
    if rest != "" {
      assert s[|a| + |line|] == rest[0];
    }
    RunFromUnique(s, |a|, |line|, inClass);
    assert s[|a|..|a| + |line|] == line;
  }

  /** A first line that is all of the class is the match. */
  lemma FirstLineRunFirstLine(line: string, rest: string, inClass: char -> bool)
    requires line != "" && forall k :: 0 <= k < |line| ==> inClass(line[k])
    requires rest == "" || !inClass(rest[0])
    ensures FirstLineRun(line + rest, inClass) == line
  {
    var s := line + rest;
    assert s[0] == line[0];
    FirstLineRunAtStart(s, inClass);
    RunFromExact("", line, rest, inClass);
    assert "" + line + rest == s;
  }

  /** After an empty first line, the match is found on the second one. */
  lemma FirstLineRunAfterNewline(line: string, rest: string, inClass: char -> bool)
    requires !inClass('\n')
    requires line != "" && forall k :: 0 <= k < |line| ==> inClass(line[k])
    requires rest == "" || !inClass(rest[0])
    ensures FirstLineRun("\n" + line + rest, inClass) == line
  {
    var s := "\n" + line + rest;
    assert s[0] == '\n' && s[1] == line[0];
    assert RunStartsAt(s, 1, inClass);
    assert !RunStartsAt(s, 0, inClass);
    FirstRunStartUnique(s, 0, 1, inClass);
    RunFromExact("\n", line, rest, inClass);
  }

  /** A line that begins where a line may start and ends where `$` matches, with every character in the class: `^[C]+$` matches there. */
  predicate ClassLine(s: string, i: int, j: int, inClass: char -> bool)
  {
    0 <= i < j <= |s| && LineStart(s, i) && LineEnd(s, j) && forall k :: i <= k < j ==> inClass(s[k])
  }

  /** In a text without newlines, `^` and `$` match only at its two ends. */
  lemma SingleLineAnchors(s: string, i: int, j: int)
    requires '\n' !in s
    ensures LineStart(s, i) <==> i == 0
    ensures LineEnd(s, j) <==> j == |s|
  {
    if 0 < i <= |s| {
      assert s[i - 1] in s;
    }
    if 0 <= j < |s| {
      assert s[j] in s;
    }
  }

  /** strings.ToLower on one character, restricted to ASCII letters. */
  function LowerChar(c: char): (r: char)
    ensures 'A' <= c <= 'Z' ==> 'a' <= r <= 'z' && r as int - c as int == 32
    ensures !('A' <= c <= 'Z') ==> r == c
  {
    if 'A' <= c <= 'Z' then (c as int + 32) as char else c
  }

  /** strings.ToLower, restricted to ASCII letters: every character lowered on its own. */
  function ToLower(s: string): (r: string)
    ensures |r| == |s|
    ensures forall i :: 0 <= i < |s| ==> r[i] == LowerChar(s[i])
  {
    if s == [] then ""
    else [LowerChar(s[0])] + ToLower(s[1..])
  }

  /** strings.ReplaceAll with one-character old and new strings. */
  function ReplaceChar(s: string, from: char, to: char): (r: string)
    ensures |r| == |s|
    ensures from != to ==> from !in r
    ensures forall i :: 0 <= i < |s| ==> r[i] == if s[i] == from then to else s[i]
  {
    if s == [] then "" else [if s[0] == from then to else s[0]] + ReplaceChar(s[1..], from, to)
  }

  function DigitChar(d: nat): char
    requires d < 10
  {
    "0123456789"[d]
  }

  function NatToString(n: nat): string
  {
    if n < 10 then [DigitChar(n)] else NatToString(n / 10) + [DigitChar(n % 10)]
  }

  /** strconv.Itoa */
  function IntToString(i: int): string
  {
    if i < 0 then "-" + NatToString(-i) else NatToString(i)
  }

  /** A separator at the end adds an empty last part. */
  lemma {:induction false} SplitTrailing(s: string, c: char)
    ensures Split(s + [c], c) == Split(s, c) + [""]
  {
    if s == [] {
      assert s + [c] == [c];
      assert [c][1..] == [];
    } else {
      assert (s + [c])[1..] == s[1..] + [c];
      SplitTrailing(s[1..], c);
    }
  }

  /** Splitting a string that has no separator gives the string itself. */
  lemma {:induction false} SplitWithoutSeparator(s: string, c: char)
    requires c !in s
    ensures Split(s, c) == [s]
  {
    if s != [] {
      assert s[0] in s;
      SplitWithoutSeparator(s[1..], c);
      assert [s[0]] + s[1..] == s;
    }
  }

  /** Splitting at the first separator peels off the text before it. */
  lemma {:induction false} SplitAtFirst(a: string, c: char, b: string)
    requires c !in a
    ensures Split(a + [c] + b, c) == [a] + Split(b, c)
  {
    if a == [] {
      assert a + [c] + b == [c] + b;
      assert ([c] + b)[1..] == b;
    } else {
      assert (a + [c] + b)[1..] == a[1..] + [c] + b;
      SplitAtFirst(a[1..], c, b);
      assert [a[0]] + a[1..] == a;
    }
  }

  /** Split undoes Join when no part contains the separator. */
  lemma {:induction false} SplitJoin(parts: seq<string>, c: char)
    requires |parts| >= 1
    requires forall i :: 0 <= i < |parts| ==> c !in parts[i]
    ensures Split(Join(parts, [c]), c) == parts
  {
    if |parts| == 1 {
      SplitWithoutSeparator(parts[0], c);
    } else {
      SplitJoin(parts[1..], c);
      SplitAtFirst(parts[0], c, Join(parts[1..], [c]));
      assert [parts[0]] + parts[1..] == parts;
    }
  }
}
