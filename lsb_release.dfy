/**
 * The stand-in `lsb_release` tool of the build images: it reads a recorded
 * `lsb_release -a` listing and prints the distributor id and the release.
 */
module LsbRelease {
  import opened Wrappers
  import Strings
  import Collections

  /** The two values read, one pattern each. */
  datatype Field = DistributorID | ReleaseNumber

  const AllFields: set<Field> := {DistributorID, ReleaseNumber}

  /** The literal part of `^Distributor ID:\t([^\t]+)$` and `^Release:\t([^\t]+)$`. */
  function Label(f: Field): string
  {
    match f
    case DistributorID => "Distributor ID:\t"
    case ReleaseNumber => "Release:\t"
  }

  /** parseLine: the captured value, or "" when the line does not match. */
  function ParseLine(line: string, f: Field): (r: string)
    ensures r != "" <==> Strings.HasPrefix(line, Label(f)) && |line| > |Label(f)| && '\t' !in line[|Label(f)|..]
    ensures r != "" ==> line == Label(f) + r
  {
    if Strings.HasPrefix(line, Label(f)) && |line| > |Label(f)| && '\t' !in line[|Label(f)|..] then
      assert line == Label(f) + line[|Label(f)|..];
      line[|Label(f)|..]
    else ""
  }

  /** No line matches both patterns. */
  lemma AtMostOneField(line: string)
    ensures ParseLine(line, DistributorID) == "" || ParseLine(line, ReleaseNumber) == ""
  {
    if ParseLine(line, DistributorID) != "" {
      assert line[0] == Label(DistributorID)[0];
    }
  }

  /** The field a line sets and its value, whichever order the patterns are tried in. */
  function Match(line: string): (r: Option<(Field, string)>)
    ensures r.Some? ==> ParseLine(line, r.value.0) == r.value.1 != ""
    ensures r.None? ==> forall f :: ParseLine(line, f) == ""
  {
    if ParseLine(line, DistributorID) != "" then Some((DistributorID, ParseLine(line, DistributorID)))
    else if ParseLine(line, ReleaseNumber) != "" then Some((ReleaseNumber, ParseLine(line, ReleaseNumber)))
    else None
  }

  /** The number of lines that set a field. */
  function Handled(lines: seq<string>): (r: nat)
    ensures r <= |lines|
  {
    if lines == [] then 0 else Handled(lines[..|lines| - 1]) + (if Match(lines[|lines| - 1]).Some? then 1 else 0)
  }

  /** The value a field holds after the lines: the last match, or what it held before. */
  function Value(lines: seq<string>, f: Field, initial: string): string
  {
    if lines == [] then initial
    else
      var m := Match(lines[|lines| - 1]);
      if m.Some? && m.value.0 == f then m.value.1 else Value(lines[..|lines| - 1], f, initial)
  }

  /** The value a field holds after one line matched `m`, starting from `v`. */
  function Next(m: Option<(Field, string)>, f: Field, v: string): string
  {
    if m.Some? && m.value.0 == f then m.value.1 else v
  }

  /** One more line: it counts when it matches, and sets the field it matches. */
  lemma PrefixStep(lines: seq<string>, n: nat, d: string, r: string)
    requires n < |lines|
    ensures Handled(lines[..n + 1]) == Handled(lines[..n]) + (if Match(lines[n]).Some? then 1 else 0)
    ensures Value(lines[..n + 1], DistributorID, d) == Next(Match(lines[n]), DistributorID, Value(lines[..n], DistributorID, d))
    ensures Value(lines[..n + 1], ReleaseNumber, r) == Next(Match(lines[n]), ReleaseNumber, Value(lines[..n], ReleaseNumber, r))
  {
    assert lines[..n + 1][..n] == lines[..n];
  }

  /** The state of ReadFromFile after the first `n` lines. */
  predicate Scanned(lines: seq<string>, n: nat, handled: nat, d: string, r: string, d0: string, r0: string)
    requires n <= |lines|
  {
    // bound to one name, so that a caller proves it as one fact rather than conjunct by conjunct
    var holds := handled == Handled(lines[..n]) && d == Value(lines[..n], DistributorID, d0) && r == Value(lines[..n], ReleaseNumber, r0);
    holds
  }

  /** Handling line `n` moves the scan one line on. */
  lemma ScanStep(lines: seq<string>, n: nat, handled: nat, d: string, r: string, d0: string, r0: string)
    requires n < |lines| && Scanned(lines, n, handled, d, r, d0, r0)
    ensures Scanned(lines, n + 1, handled + (if Match(lines[n]).Some? then 1 else 0),
      Next(Match(lines[n]), DistributorID, d), Next(Match(lines[n]), ReleaseNumber, r), d0, r0)
  {
    PrefixStep(lines, n, d0, r0);
  }

  /** Some line sets the field. */
  predicate Extracted(lines: seq<string>, f: Field)
  {
    exists i :: 0 <= i < |lines| && ParseLine(lines[i], f) != ""
  }

  class LsbReleaseData {
    var releaseNumber: string
    var distributorId: string

    constructor()
      ensures releaseNumber == "" && distributorId == ""
    {
      releaseNumber := "";
      distributorId := "";
    }

    /**
     * ReadFromFile: every line is tried against the patterns in the order
     * `keys` (the map's key order), the first match sets its field and is
     * counted.  With `validate`, a count other than the number of patterns
     * panics.  A file that cannot be opened is fatal.
     */
    method ReadFromFile(opens: bool, lines: seq<string>, validate: bool, keys: seq<Field>) returns (err: Outcome, handled: nat)
      requires Collections.IsEnumeration(keys, AllFields)
      modifies this
      ensures !opens ==> err.Abort? && distributorId == old(distributorId) && releaseNumber == old(releaseNumber)
      ensures opens ==> handled == Handled(lines)
      ensures opens ==> distributorId == Value(lines, DistributorID, old(distributorId))
      ensures opens ==> releaseNumber == Value(lines, ReleaseNumber, old(releaseNumber))
      ensures err.Pass? <==> opens && !(validate && ValidationErrorAsWritten(lines))
      ensures !err.Pass? ==> err.Abort?
    {
      if !opens {
        err := Abort("cannot open input file");
        handled := 0;
        return;
      }
      Collections.EnumerationSize(keys, AllFields);
      handled := ScanLines(lines, keys);
      assert lines[..|lines|] == lines;
      if validate && handled != |keys| {
        err := Abort("Not all needed values were extracted!");
      } else {
        err := Pass;
      }
    }

    /** The loop of ReadFromFile: each line sets the field of the first pattern it matches. */
    method ScanLines(lines: seq<string>, keys: seq<Field>) returns (handled: nat)
      requires Collections.IsEnumeration(keys, AllFields)
      modifies this
      ensures Scanned(lines, |lines|, handled, distributorId, releaseNumber, old(distributorId), old(releaseNumber))
    {
      handled := 0;
      ghost var d0, r0 := distributorId, releaseNumber;
      var n := 0;
      while n < |lines|
        invariant n <= |lines|
        invariant Scanned(lines, n, handled, distributorId, releaseNumber, d0, r0)
      {
        var m := TryPatterns(lines[n], keys);
        ScanStep(lines, n, handled, distributorId, releaseNumber, d0, r0);
        ghost var d, r := distributorId, releaseNumber;
        if m.Some? {
          if m.value.0 == DistributorID {
            distributorId := m.value.1;
          } else {
            releaseNumber := m.value.1;
          }
          handled := handled + 1;
        }
        assert distributorId == Next(m, DistributorID, d) && releaseNumber == Next(m, ReleaseNumber, r);
        n := n + 1;
      }
    }
  }

  /** The inner loop of ReadFromFile: the patterns in `keys` order until one matches. */
  method TryPatterns(line: string, keys: seq<Field>) returns (m: Option<(Field, string)>)
    requires Collections.IsEnumeration(keys, AllFields)
    ensures m == Match(line)
  {
    var k := 0;
    while k < |keys|
      invariant k <= |keys|
      invariant forall j :: 0 <= j < k ==> ParseLine(line, keys[j]) == ""
    {
      var value := ParseLine(line, keys[k]);
      if value != "" {
        AtMostOneField(line);
        return Some((keys[k], value));
      }
      k := k + 1;
    }
    assert forall f :: f in AllFields ==> f in keys;
    return None;
  }

  /** The validation as written: the number of matching lines must be the number of patterns. */
  predicate ValidationErrorAsWritten(lines: seq<string>)
  {
    Handled(lines) != 2
  }

  /** The validation as intended: every value must have been found. */
  predicate ValidationError(lines: seq<string>)
  {
    !Extracted(lines, DistributorID) || !Extracted(lines, ReleaseNumber)
  }

  /** Counting lines accepts a listing without a distributor and rejects one that repeats a value. */
  lemma CountedValidationMisses()
    ensures !ValidationErrorAsWritten(["Release:\t11", "Release:\t12"]) && ValidationError(["Release:\t11", "Release:\t12"])
    ensures ValidationErrorAsWritten(["Distributor ID:\tDebian", "Release:\t11", "Release:\t11"])
      && !ValidationError(["Distributor ID:\tDebian", "Release:\t11", "Release:\t11"])
  {
    var a := ["Release:\t11", "Release:\t12"];
    assert ParseLine(a[0], ReleaseNumber) == "11" by { assert a[0] == Label(ReleaseNumber) + "11"; }
    assert ParseLine(a[1], ReleaseNumber) == "12" by { assert a[1] == Label(ReleaseNumber) + "12"; }
    assert a[..1] == [a[0]] && a[..1][..0] == [];
    assert Handled(a) == 2;
    assert forall i :: 0 <= i < 2 ==> a[i][0] == 'R';
    var b := ["Distributor ID:\tDebian", "Release:\t11", "Release:\t11"];
    assert ParseLine(b[0], DistributorID) == "Debian" by { assert b[0] == Label(DistributorID) + "Debian"; }
    assert ParseLine(b[1], ReleaseNumber) == "11" by { assert b[1] == Label(ReleaseNumber) + "11"; }
    assert b[..2] == [b[0], b[1]] && b[..2][..1] == [b[0]] && b[..2][..1][..0] == [];
    assert Handled(b) == 3;
  }

  lemma {:induction false} Snoc(lines: seq<string>, line: string, f: Field, initial: string)
    ensures (lines + [line])[..|lines|] == lines
    ensures Handled(lines + [line]) == Handled(lines) + (if Match(line).Some? then 1 else 0)
    ensures Value(lines + [line], f, initial) ==
      if Match(line).Some? && Match(line).value.0 == f then Match(line).value.1 else Value(lines, f, initial)
  {
    assert (lines + [line])[..|lines|] == lines;
  }

  /** A listing with the id line, a description, the release line and a code name. */
  lemma FourLineListing(id: string, description: string, release: string, codename: string)
    requires id != "" && '\t' !in id && release != "" && '\t' !in release
    requires Match(description).None? && Match(codename).None?
    ensures var lines := [Label(DistributorID) + id, description, Label(ReleaseNumber) + release, codename];
      Value(lines, DistributorID, "") == id && Value(lines, ReleaseNumber, "") == release &&
      !ValidationErrorAsWritten(lines) && !ValidationError(lines)
  {
    var l0 := Label(DistributorID) + id;
    var l2 := Label(ReleaseNumber) + release;
    assert l0[|Label(DistributorID)|..] == id;
    assert l2[|Label(ReleaseNumber)|..] == release;
    AtMostOneField(l0);
    AtMostOneField(l2);
    var lines := [l0, description, l2, codename];
    assert [l0, description, l2] + [codename] == lines;
    assert [l0, description] + [l2] == [l0, description, l2];
    Snoc([l0, description, l2], codename, DistributorID, "");
    Snoc([l0, description, l2], codename, ReleaseNumber, "");
    Snoc([l0, description], l2, DistributorID, "");
    Snoc([l0, description], l2, ReleaseNumber, "");
    Snoc([l0], description, DistributorID, "");
    Snoc([], l0, DistributorID, "");
    assert [l0] + [description] == [l0, description];
    assert [] + [l0] == [l0];
    assert Handled(lines) == 2;
    assert lines[0] == l0 && lines[2] == l2;
  }

  /** A line that starts neither like "Release:" nor like "Di..." sets nothing. */
  lemma NoLabel(line: string)
    requires line == "" || (line[0] != 'R' && (line[0] != 'D' || |line| < 2 || line[1] != 'i'))
    ensures Match(line).None?
  {
    if line != "" && line[0] == 'D' && |line| >= 2 {
      assert Label(DistributorID)[1] == 'i';
    }
  }

  /** With the intended validation, passing means both values are set to non-empty strings. */
  lemma {:induction false} ValidationMeansFound(lines: seq<string>, f: Field, initial: string)
    requires !ValidationError(lines)
    ensures Value(lines, f, initial) != ""
  {
    FoundValue(lines, f, initial);
  }

  lemma {:induction false} FoundValue(lines: seq<string>, f: Field, initial: string)
    requires Extracted(lines, f)
    ensures Value(lines, f, initial) != ""
  {
    var last := lines[|lines| - 1];
    var m := Match(last);
    var i :| 0 <= i < |lines| && ParseLine(lines[i], f) != "";
    if i == |lines| - 1 {
      AtMostOneField(last);
      assert m.Some? && m.value.0 == f && m.value.1 != "";
    } else if !(m.Some? && m.value.0 == f) {
      assert Value(lines, f, initial) == Value(lines[..|lines| - 1], f, initial);
      assert lines[..|lines| - 1][i] == lines[i];
      FoundValue(lines[..|lines| - 1], f, initial);
    }
  }

  /** What main prints: with `-s` the bare values, otherwise labelled; the id before the release. */
  function Output(s: bool, i: bool, r: bool, distributorId: string, releaseNumber: string): (out: seq<string>)
    ensures |out| == (if i then 1 else 0) + (if r then 1 else 0)
    ensures i ==> out[0] == (if s then "" else Label(DistributorID)) + distributorId + "\n"
    ensures r ==> out[|out| - 1] == (if s then "" else Label(ReleaseNumber)) + releaseNumber + "\n"
  {
    (if i then [(if s then "" else Label(DistributorID)) + distributorId + "\n"] else [])
    + (if r then [(if s then "" else Label(ReleaseNumber)) + releaseNumber + "\n"] else [])
  }
}
