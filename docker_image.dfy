/**
 * Whether a Docker image exists: the lines `docker image ls` prints,
 * after its header, are scanned for the image name.
 */
module DockerImage {
  import opened Wrappers
  import Strings

  /** The pattern ImageExists compiles. */
  const ImageLinePattern := "^" + NamedGroupOpen + "container_id>[0-9a-zA-Z]+)\\s+(?P<image_name>[^ ]+)"
  const NamedGroupOpen := "(?P<"

  predicate Contains(s: string, sub: string)
  {
    exists i :: 0 <= i <= |s| && Strings.HasPrefix(s[i..], sub)
  }

  /**
   * regexp.CompilePOSIX parses POSIX syntax only: the Perl class `\s` and
   * the `(?P<name>...)` group are errors there.
   */
  predicate PosixAccepts(pattern: string)
  {
    !Contains(pattern, "\\s") && !Contains(pattern, "(?")
  }

  lemma PatternRejected()
    ensures !PosixAccepts(ImageLinePattern)
  {
    var rest := "container_id>[0-9a-zA-Z]+)\\s+(?P<image_name>[^ ]+)";
    assert ImageLinePattern[1..] == NamedGroupOpen + rest;
    assert (NamedGroupOpen + rest)[..2] == "(?";
  }

  /** Perl's `\s`: tab, newline, form feed, carriage return and space. */
  predicate IsSpace(c: char)
  {
    c == '\t' || c == '\n' || c == 12 as char || c == '\r' || c == ' '
  }

  /** The longest prefix of blanks. */
  function LeadingSpace(s: string): (r: string)
    ensures Strings.HasPrefix(s, r) && (forall i :: 0 <= i < |r| ==> IsSpace(r[i]))
    ensures |r| < |s| ==> !IsSpace(s[|r|])
  {
    if s == [] || !IsSpace(s[0]) then "" else [s[0]] + LeadingSpace(s[1..])
  }

  /** The longest prefix without ' ' (the class `[^ ]+`). */
  function LeadingNonSpace(s: string): (r: string)
    ensures Strings.HasPrefix(s, r) && ' ' !in r
    ensures |r| < |s| ==> s[|r|] == ' '
  {
    if s == [] || s[0] == ' ' then "" else [s[0]] + LeadingNonSpace(s[1..])
  }

  /** The largest index j with 1 <= j < n and ws[j] != ' ', if any. */
  function LastNonBlank(ws: string, n: nat): (r: Option<nat>)
    requires n <= |ws|
    ensures r.Some? ==> 1 <= r.value < n && ws[r.value] != ' ' && forall j :: r.value < j < n ==> ws[j] == ' '
    ensures r.None? ==> forall j :: 1 <= j < n ==> ws[j] == ' '
  {
    if n <= 1 then None
    else if ws[n - 1] != ' ' then Some(n - 1)
    else LastNonBlank(ws, n - 1)
  }

  /**
   * The image_name group of `^([0-9a-zA-Z]+)\s+([^ ]+)` on a line, or None
   * when the line does not match.  The blanks are taken greedily and given
   * back only when nothing follows them, as a backtracking matcher does.
   */
  function ParseImageLine(line: string): (r: Option<string>)
    ensures r.Some? ==> r.value != "" && ' ' !in r.value
    ensures line == "" ==> r.None?
    ensures r.Some? ==> Strings.LeadingAlnum(line) != ""
  {
    var id := Strings.LeadingAlnum(line);
    if id == "" then None
    else
      var rest := line[|id|..];
      var ws := LeadingSpace(rest);
      if ws == "" then None
      else
        var after := rest[|ws|..];
        if after != "" then
          assert after[0] == rest[|ws|] && !IsSpace(after[0]);
          Some(LeadingNonSpace(after))
        else
          match LastNonBlank(ws, |ws|)
          case None => None
          case Some(j) => Some([ws[j]])
  }

  lemma {:induction false} LeadingAlnumOf(id: string, rest: string)
    requires forall i :: 0 <= i < |id| ==> Strings.IsAlnum(id[i])
    requires rest != "" ==> !Strings.IsAlnum(rest[0])
    ensures Strings.LeadingAlnum(id + rest) == id
  {
    if id != "" {
      assert (id + rest)[1..] == id[1..] + rest;
      LeadingAlnumOf(id[1..], rest);
    }
  }

  lemma {:induction false} LeadingNonSpaceOf(name: string, rest: string)
    requires ' ' !in name
    requires rest != "" ==> rest[0] == ' '
    ensures LeadingNonSpace(name + rest) == name
  {
    if name != "" {
      assert name[0] in name;
      assert (name + rest)[1..] == name[1..] + rest;
      LeadingNonSpaceOf(name[1..], rest);
    }
  }

  /**
   * A line of the listing, `<id> <name>` followed by nothing or by a
   * space, yields that name.
   */
  lemma ParseListingLine(id: string, name: string, tail: string)
    requires id != "" && forall i :: 0 <= i < |id| ==> Strings.IsAlnum(id[i])
    requires name != "" && ' ' !in name && !IsSpace(name[0])
    requires tail != "" ==> tail[0] == ' '
    ensures ParseImageLine(id + " " + name + tail) == Some(name)
  {
    assert id + " " + name + tail == id + " " + (name + tail);
    ParseAfterOneSpace(id, name + tail);
    LeadingNonSpaceOf(name, tail);
  }

  /** An id, one space and a word: the word's leading run of non-spaces is the name. */
  lemma ParseAfterOneSpace(id: string, after: string)
    requires id != "" && forall i :: 0 <= i < |id| ==> Strings.IsAlnum(id[i])
    requires after != "" && !IsSpace(after[0])
    ensures ParseImageLine(id + " " + after) == Some(LeadingNonSpace(after))
  {
    var rest := " " + after;
    assert id + " " + after == id + rest;
    LeadingAlnumOf(id, rest);
    assert (id + rest)[|id|..] == rest;
    OneLeadingSpace(after);
  }

  lemma OneLeadingSpace(s: string)
    requires s != "" && !IsSpace(s[0])
    ensures LeadingSpace(" " + s) == " " && (" " + s)[1..] == s
  {
    assert (" " + s)[1..] == s;
  }

  /** The scanning loop: the first line naming the image answers true, a line that does not match is fatal. */
  function Scan(imageName: string, lines: seq<string>): (r: Result<bool>)
    ensures !r.Err?
  {
    if lines == [] then Ok(false)
    else
      match ParseImageLine(lines[0])
      case None => Panic("Bad imageLine from docker images connect - " + lines[0])
      case Some(name) => if name == imageName then Ok(true) else Scan(imageName, lines[1..])
  }

  /** Scan answers false exactly when every line matches and none names the image. */
  lemma {:induction false} ScanFalse(imageName: string, lines: seq<string>)
    ensures Scan(imageName, lines) == Ok(false) <==> Matched(imageName, lines)
  {
    if lines != [] {
      ScanFalse(imageName, lines[1..]);
      assert Matched(imageName, lines) ==> Matched(imageName, lines[1..]) by {
        if Matched(imageName, lines) {
          forall i | 0 <= i < |lines[1..]| ensures ParseImageLine(lines[1..][i]).Some? && ParseImageLine(lines[1..][i]).value != imageName {
            assert lines[1..][i] == lines[i + 1];
          }
        }
      }
      assert ParseImageLine(lines[0]).Some? && ParseImageLine(lines[0]).value != imageName && Matched(imageName, lines[1..]) ==> Matched(imageName, lines) by {
        if Matched(imageName, lines[1..]) {
          forall i | 1 <= i < |lines| ensures ParseImageLine(lines[i]).Some? && ParseImageLine(lines[i]).value != imageName {
            assert lines[1..][i - 1] == lines[i];
          }
        }
      }
    }
  }

  /** A prefix of one line more matches when its first line and the shorter prefix of the rest do. */
  lemma MatchedPrefix(imageName: string, lines: seq<string>, i: nat)
    requires 0 < i <= |lines|
    ensures lines[..i] == [lines[0]] + lines[1..][..i - 1]
    ensures Matched(imageName, lines[..i]) <==>
      ParseImageLine(lines[0]).Some? && ParseImageLine(lines[0]).value != imageName && Matched(imageName, lines[1..][..i - 1])
  {
    var pre := lines[..i];
    var tail := lines[1..][..i - 1];
    assert pre == [lines[0]] + tail;
    assert forall j :: 1 <= j < |pre| ==> pre[j] == tail[j - 1];
    assert forall j :: 0 <= j < |tail| ==> tail[j] == pre[j + 1];
  }

  /** The line Scan stops at: it either names the image or does not match. */
  predicate StopsAt(imageName: string, lines: seq<string>, i: int, found: bool)
  {
    0 <= i < |lines| && Matched(imageName, lines[..i]) &&
    if found then ParseImageLine(lines[i]) == Some(imageName) else ParseImageLine(lines[i]).None?
  }

  /** Scan answers true exactly at a line naming the image and is fatal exactly at a line that does not match, the lines before it matching and naming other images. */
  lemma {:induction false} ScanStops(imageName: string, lines: seq<string>)
    ensures Scan(imageName, lines) == Ok(true) <==> exists i :: StopsAt(imageName, lines, i, true)
    ensures Scan(imageName, lines).Panic? <==> exists i :: StopsAt(imageName, lines, i, false)
  {
    if lines != [] {
      ScanStops(imageName, lines[1..]);
      var p := ParseImageLine(lines[0]);
      assert lines[..0] == [];
      forall i, found | StopsAt(imageName, lines, i, found) && i > 0
        ensures p.Some? && p.value != imageName && StopsAt(imageName, lines[1..], i - 1, found)
      {
        MatchedPrefix(imageName, lines, i);
      }
      if p.Some? && p.value != imageName {
        forall i, found | StopsAt(imageName, lines[1..], i, found) ensures StopsAt(imageName, lines, i + 1, found) {
          MatchedPrefix(imageName, lines, i + 1);
        }
        assert !StopsAt(imageName, lines, 0, true) && !StopsAt(imageName, lines, 0, false);
        if Scan(imageName, lines) == Ok(true) {
          var i :| StopsAt(imageName, lines[1..], i, true);
          assert StopsAt(imageName, lines, i + 1, true);
        }
        if Scan(imageName, lines).Panic? {
          var i :| StopsAt(imageName, lines[1..], i, false);
          assert StopsAt(imageName, lines, i + 1, false);
        }
      } else if p.Some? {
        assert StopsAt(imageName, lines, 0, true);
      } else {
        assert StopsAt(imageName, lines, 0, false);
      }
    }
  }

  /** Every line matches and none names the image. */
  predicate Matched(imageName: string, lines: seq<string>)
  {
    forall i :: 0 <= i < |lines| ==> ParseImageLine(lines[i]).Some? && ParseImageLine(lines[i]).value != imageName
  }

  /**
   * ImageExists with the pattern compiled as intended: a failing
   * `docker image ls` answers false; the first output line is the header.
   */
  function ImageExists(imageName: string, output: Result<string>): (r: Result<bool>)
    ensures !output.Ok? ==> r == Ok(false)
    ensures output.Ok? ==> r == Scan(imageName, Strings.Split(output.value, '\n')[1..])
  {
    if !output.Ok? then Ok(false)
    else Scan(imageName, Strings.Split(output.value, '\n')[1..])
  }

  /**
   * ImageExists as written: the POSIX compilation fails, the error is only
   * logged, and the nil pattern is then used, which panics.
   */
  function ImageExistsAsWritten(imageName: string, output: Result<string>): (r: Result<bool>)
    ensures !output.Ok? ==> r == Ok(false)
  {
    if !output.Ok? then Ok(false)
    else if !PosixAccepts(ImageLinePattern) then Panic("invalid memory address or nil pointer dereference")
    else ImageExists(imageName, output)
  }

  /** As written, every successful `docker image ls` ends in a panic. */
  lemma AsWrittenPanics(imageName: string, output: string)
    ensures ImageExistsAsWritten(imageName, Ok(output)).Panic?
  {
    PatternRejected();
  }

  /** With the intended pattern, output with only a header answers false. */
  lemma HeaderOnly(imageName: string, header: string)
    requires '\n' !in header
    ensures ImageExists(imageName, Ok(header)) == Ok(false)
  {
    Strings.SplitWithoutSeparator(header, '\n');
  }

  /** A trailing newline leaves an empty last line, which is fatal unless the image was found before it. */
  lemma {:induction false} TrailingNewlineFatal(imageName: string, output: string)
    requires ImageExists(imageName, Ok(output)) == Ok(false)
    ensures ImageExists(imageName, Ok(output + "\n")).Panic?
  {
    Strings.SplitTrailing(output, '\n');
    var lines := Strings.Split(output, '\n')[1..];
    assert Strings.Split(output + "\n", '\n')[1..] == lines + [""];
    var all := lines + [""];
    ScanFalse(imageName, lines);
    ScanStops(imageName, all);
    assert all[..|lines|] == lines;
    assert StopsAt(imageName, all, |lines|, false);
  }
}
