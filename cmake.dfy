/**
 * The CMake step: one `cmake` command line with a `-D` define per entry
 * of Defines and the directory of CMakeLists.txt.
 */
module CMake {
  import opened Wrappers
  import Strings
  import Paths
  import Collections

  /** `defines` is a Go map, which may be nil (None); SourceDir is not read from JSON. */
  datatype CMake = CMake(defines: Option<map<string, string>>, cmakeListDir: string, sourceDir: string)

  function Defines(c: CMake): map<string, string>
  {
    if c.defines.Some? then c.defines.value else map[]
  }

  const DefaultCMakeListDir := "./"

  /** FillDefault replaces the step with a Debug build type and the current directory. */
  function FillDefault(c: CMake): (r: CMake)
    ensures r.defines == Some(map["CMAKE_BUILD_TYPE" := "Debug"])
    ensures r.cmakeListDir == DefaultCMakeListDir && r.sourceDir == ""
  {
    CMake(Some(map["CMAKE_BUILD_TYPE" := "Debug"]), DefaultCMakeListDir, "")
  }

  /** The class `[0-9a-zA-Z_]`. */
  predicate IsNameChar(c: char)
  {
    Strings.IsAlnum(c) || c == '_'
  }

  /**
   * validateVariableName: `^[0-9a-zA-Z_]+$` compiled with CompilePOSIX,
   * whose anchors match at every line boundary: some whole line of the name
   * is a non-empty run of letters, digits and underscores.
   */
  predicate ValidVariableName(name: string)
  {
    exists i, j :: 0 <= i < j <= |name| && Strings.ClassLine(name, i, j, IsNameChar)
  }

  /** On a name of one line, the whole name must be letters, digits and underscores. */
  lemma ValidVariableNameSingleLine(name: string)
    requires '\n' !in name
    ensures ValidVariableName(name) <==> |name| >= 1 && forall k :: 0 <= k < |name| ==> IsNameChar(name[k])
  {
    if ValidVariableName(name) {
      var i, j :| 0 <= i < j <= |name| && Strings.ClassLine(name, i, j, IsNameChar);
      Strings.SingleLineAnchors(name, i, j);
    }
    if |name| >= 1 && forall k :: 0 <= k < |name| ==> IsNameChar(name[k]) {
      assert Strings.ClassLine(name, 0, |name|, IsNameChar);
    }
  }

  /** A name with one valid line passes whatever its other lines hold. */
  lemma ValidVariableNameOtherLines()
    ensures ValidVariableName("A\n-") && !ValidVariableName("A-")
  {
    assert Strings.ClassLine("A\n-", 0, 1, IsNameChar);
    ValidVariableNameSingleLine("A-");
    assert !IsNameChar("A-"[1]);
  }

  function DefineToken(key: string, value: string): string
  {
    "-D" + key + "=" + Strings.Quote(value)
  }

  /** The define tokens in the order the map is visited; the first invalid name panics. */
  function DefineTokens(order: seq<string>, defines: map<string, string>): (r: Result<seq<string>>)
    requires forall i :: 0 <= i < |order| ==> order[i] in defines
    ensures r.Ok? <==> forall i :: 0 <= i < |order| ==> ValidVariableName(order[i])
    ensures !r.Err?
    ensures r.Panic? ==> exists i :: 0 <= i < |order| && !ValidVariableName(order[i]) && r.msg == "invalid CMake variable: " + order[i]
    ensures r.Ok? ==> |r.value| == |order|
    ensures r.Ok? ==> forall i :: 0 <= i < |order| ==> r.value[i] == DefineToken(order[i], defines[order[i]])
  {
    if order == [] then Ok([])
    else if !ValidVariableName(order[0]) then Panic("invalid CMake variable: " + order[0])
    else
      var rest :- DefineTokens(order[1..], defines);
      assert forall i :: 1 <= i < |order| ==> order[i] == order[1..][i - 1];
      Ok([DefineToken(order[0], defines[order[0]])] + rest)
  }

  /**
   * The last word of the command line: SourceDir joined with CMakeListDir.
   * Under a cleaned absolute source directory a plain list directory is
   * simply appended after a slash.
   */
  function ListPath(c: CMake): (r: string)
    ensures c.sourceDir == "" && c.cmakeListDir == "" ==> r == ""
    ensures Paths.IsCleanAbsolute(c.sourceDir) && Paths.IsPlainSegment(c.cmakeListDir) ==>
      r == c.sourceDir + "/" + c.cmakeListDir
  {
    if Paths.IsCleanAbsolute(c.sourceDir) && Paths.IsPlainSegment(c.cmakeListDir) then
      Paths.JoinUnderAbsolute(c.sourceDir, [c.cmakeListDir]);
      Paths.Join([c.sourceDir, c.cmakeListDir])
    else
      Paths.Join([c.sourceDir, c.cmakeListDir])
  }

  /**
   * ConstructCMDLine, for the order in which the Go runtime happens to
   * visit Defines: one line `cmake <defines> <path>`.  An invalid define
   * name panics first, then an empty SourceDir.
   */
  function ConstructCmdLine(c: CMake, order: seq<string>): (r: Result<seq<string>>)
    requires Collections.IsEnumeration(order, Defines(c).Keys)
    ensures r.Ok? <==> (forall k :: k in Defines(c) ==> ValidVariableName(k)) && c.sourceDir != ""
    ensures !r.Err?
    ensures (exists k :: k in Defines(c) && !ValidVariableName(k)) ==> r.Panic? && Strings.HasPrefix(r.msg, "invalid CMake variable: ")
    ensures r.Ok? ==> |r.value| == 1
    ensures r.Ok? ==> Strings.HasPrefix(r.value[0], "cmake ") && Strings.HasSuffix(r.value[0], " " + ListPath(c))
    ensures r.Ok? ==> r.value[0] == Strings.Join(["cmake"] + DefineTokens(order, Defines(c)).value + [ListPath(c)], " ")
  {
    var tokens :- DefineTokens(order, Defines(c));
    if c.sourceDir == "" then Panic("cmake source source directory does not exist")
    else
      var words := ["cmake"] + tokens + [ListPath(c)];
      CmdLineShape(tokens, ListPath(c));
      var line := Strings.Join(words, " ");
      Ok([line])
  }

  /** A line `cmake w1 ... wn last` starts with the command and ends with the last word. */
  lemma CmdLineShape(tokens: seq<string>, last: string)
    ensures Strings.HasPrefix(Strings.Join(["cmake"] + tokens + [last], " "), "cmake ")
    ensures Strings.HasSuffix(Strings.Join(["cmake"] + tokens + [last], " "), " " + last)
  {
    var words := ["cmake"] + tokens + [last];
    Strings.JoinAppend(["cmake"], tokens + [last], " ");
    assert ["cmake"] + (tokens + [last]) == words;
    assert Strings.Join(["cmake"], " ") == "cmake";
    Strings.PrefixOfConcat("cmake " , Strings.Join(tokens + [last], " "));
    assert "cmake" + " " + Strings.Join(tokens + [last], " ") == "cmake " + Strings.Join(tokens + [last], " ");
    Strings.JoinAppend(["cmake"] + tokens, [last], " ");
    assert (["cmake"] + tokens) + [last] == words;
    assert Strings.Join([last], " ") == last;
    Strings.SuffixOfConcat(Strings.Join(["cmake"] + tokens, " "), " " + last);
    assert Strings.Join(["cmake"] + tokens, " ") + " " + last == Strings.Join(["cmake"] + tokens, " ") + (" " + last);
  }

  /**
   * SetDefine adds one define.  An existing key panics, and so does a nil
   * map, because Go cannot assign into one.
   */
  function SetDefine(c: CMake, key: string, value: string): (r: Result<CMake>)
    ensures r.Panic? <==> key in Defines(c) || c.defines.None?
    ensures !r.Err?
    ensures key in Defines(c) ==> r == Panic("cmake define - do not specify " + value)
    ensures r.Ok? ==> r.value.defines.Some? && r.value.defines.value.Keys == Defines(c).Keys + {key}
    ensures r.Ok? ==> r.value.defines.value[key] == value
    ensures r.Ok? ==> forall k :: k in Defines(c) ==> r.value.defines.value[k] == Defines(c)[k]
    ensures r.Ok? ==> r.value.cmakeListDir == c.cmakeListDir && r.value.sourceDir == c.sourceDir
  {
    if key in Defines(c) then Panic("cmake define - do not specify " + value)
    else if c.defines.None? then Panic("assignment to entry in nil map")
    else Ok(c.(defines := Some(c.defines.value[key := value])))
  }

  /** The defaults render a Debug build once a source directory is set. */
  lemma DefaultCmdLine(c: CMake, src: string)
    requires src != ""
    ensures var d := FillDefault(c).(sourceDir := src);
      ConstructCmdLine(d, ["CMAKE_BUILD_TYPE"]).Ok?
  {
    var d := FillDefault(c).(sourceDir := src);
    assert Defines(d).Keys == {"CMAKE_BUILD_TYPE"};
    assert ValidVariableName("CMAKE_BUILD_TYPE") by {
      var n := "CMAKE_BUILD_TYPE";
      assert forall i :: 0 <= i < |n| ==> IsNameChar(n[i]);
      assert Strings.ClassLine(n, 0, |n|, IsNameChar);
    }
  }
}
