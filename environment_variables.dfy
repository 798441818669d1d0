/**
 * The environment step: one `export KEY="VALUE"` line per variable, run
 * in the build shell before the build.
 */
module EnvironmentVariables {
  import opened Wrappers
  import Strings
  import Collections

  /** `env` is a Go map, which may be nil (None). */
  datatype EnvironmentVariables = EnvironmentVariables(env: Option<map<string, string>>)

  /** Ranging over a nil map visits nothing, like ranging over an empty one. */
  function Entries(v: EnvironmentVariables): map<string, string>
  {
    if v.env.Some? then v.env.value else map[]
  }

  /** FillDefault installs an empty map only when there is none. */
  function FillDefault(v: EnvironmentVariables): (r: EnvironmentVariables)
    ensures v.env.None? ==> r.env == Some(map[])
    ensures v.env.Some? ==> r == v
    ensures Entries(r) == Entries(v)
  {
    if v.env.None? then EnvironmentVariables(Some(map[])) else v
  }

  /**
   * validateKey's expression `^([0-9a-zA-Z]+)`, compiled with CompilePOSIX,
   * whose `^` also matches after a newline: it matches when some line of
   * the key starts with a letter or a digit.  It is not anchored at the end.
   */
  predicate ValidKey(key: string)
  {
    exists k :: 0 <= k < |key| && Strings.RunStartsAt(key, k, Strings.IsAlnum)
  }

  /** On a key of one line, only the first character is looked at. */
  lemma ValidKeySingleLine(key: string)
    requires '\n' !in key
    ensures ValidKey(key) <==> |key| >= 1 && Strings.IsAlnum(key[0])
  {
    forall k | 0 <= k < |key|
      ensures Strings.LineStart(key, k) <==> k == 0
    {
      Strings.SingleLineAnchors(key, k, k);
    }
    if |key| >= 1 && Strings.IsAlnum(key[0]) {
      assert Strings.RunStartsAt(key, 0, Strings.IsAlnum);
    }
  }

  /** A key passes once any of its lines starts with a letter or a digit, whatever comes before. */
  lemma ValidKeyLaterLine(before: string, line: string)
    requires |line| >= 1 && Strings.IsAlnum(line[0])
    ensures ValidKey(before + "\n" + line)
  {
    var key := before + "\n" + line;
    assert key[|before|] == '\n' && key[|before| + 1] == line[0];
    assert Strings.RunStartsAt(key, |before| + 1, Strings.IsAlnum);
  }

  /** A key whose only line starts with something else fails. */
  lemma InvalidKeyExample()
    ensures !ValidKey("-A") && ValidKey("-\nA")
  {
    ValidKeySingleLine("-A");
    ValidKeyLaterLine("-", "A");
    assert "-" + "\n" + "A" == "-\nA";
  }

  /** validateKey panics on a key the expression does not match. */
  function ValidateKey(key: string): (r: Outcome)
    ensures r.Pass? <==> ValidKey(key)
    ensures r.Fail? == false
  {
    if ValidKey(key) then Pass else Abort("key " + key + " is not valid")
  }

  function ExportLine(key: string, value: string): (r: string)
  {
    "export " + key + "=" + Strings.Quote(value)
  }

  /** Keys without '=' make the rendered line determine the key and the value. */
  lemma ExportLineInjective(k1: string, v1: string, k2: string, v2: string)
    requires '=' !in k1 && '=' !in k2
    requires ExportLine(k1, v1) == ExportLine(k2, v2)
    ensures k1 == k2 && v1 == v2
  {
    var line := ExportLine(k1, v1);
    assert line == ExportLine(k2, v2);
    assert line[7..7 + |k1|] == k1 && line[7 + |k1|] == '=';
    assert line[7..7 + |k2|] == k2 && line[7 + |k2|] == '=';
    // the first '=' after "export " ends the key
    assert |k1| == |k2|;
    assert k1 == k2;
    var q1 := Strings.Quote(v1);
    var q2 := Strings.Quote(v2);
    assert line[8 + |k1|..] == q1 && line[8 + |k2|..] == q2;
    assert v1 == q1[1..|q1| - 1] && v2 == q2[1..|q2| - 1];
  }

  /** The loop of ConstructCMDLine over the keys in `order`; the first invalid key panics. */
  function ExportLines(order: seq<string>, env: map<string, string>): (r: Result<seq<string>>)
    requires forall i :: 0 <= i < |order| ==> order[i] in env
    ensures r.Ok? <==> forall i :: 0 <= i < |order| ==> ValidKey(order[i])
    ensures !r.Err?
    ensures r.Ok? ==> |r.value| == |order|
    ensures r.Ok? ==> forall i :: 0 <= i < |order| ==> r.value[i] == ExportLine(order[i], env[order[i]])
  {
    if order == [] then Ok([])
    else
      var _ :- ValidateKey(order[0]).ToResult();
      var rest :- ExportLines(order[1..], env);
      Ok([ExportLine(order[0], env[order[0]])] + rest)
  }

  /**
   * ConstructCMDLine, for the order in which the Go runtime happens to
   * visit the map.  The lines do not depend on that order except for
   * their sequence: there is one per variable and every line exports some
   * variable with its value.
   */
  function ConstructCmdLine(v: EnvironmentVariables, order: seq<string>): (r: Result<seq<string>>)
    requires Collections.IsEnumeration(order, Entries(v).Keys)
    ensures r.Ok? <==> forall k :: k in Entries(v) ==> ValidKey(k)
    ensures !r.Err?
    ensures r.Ok? ==> |r.value| == |Entries(v)|
    ensures r.Ok? ==> forall k :: k in Entries(v) ==> ExportLine(k, Entries(v)[k]) in r.value
    ensures r.Ok? ==> forall i :: 0 <= i < |r.value| ==> exists k :: k in Entries(v) && r.value[i] == ExportLine(k, Entries(v)[k])
  {
    var env := Entries(v);
    Collections.EnumerationSize(order, env.Keys);
    var r := ExportLines(order, env);
    if r.Ok? then
      assert forall k :: k in env ==> ExportLine(k, env[k]) in r.value by {
        forall k | k in env ensures ExportLine(k, env[k]) in r.value {
          var i :| 0 <= i < |order| && order[i] == k;
          assert r.value[i] == ExportLine(k, env[k]);
        }
      }
      r
    else
      assert exists i :: 0 <= i < |order| && !ValidKey(order[i]);
      r
  }

  /** Without '=' in the keys, no line is rendered twice. */
  lemma {:induction false} LinesAreDistinct(v: EnvironmentVariables, order: seq<string>)
    requires Collections.IsEnumeration(order, Entries(v).Keys)
    requires forall k :: k in Entries(v) ==> '=' !in k
    requires ConstructCmdLine(v, order).Ok?
    ensures Collections.NoDuplicates(ConstructCmdLine(v, order).value)
  {
    var env := Entries(v);
    var lines := ConstructCmdLine(v, order).value;
    assert lines == ExportLines(order, env).value;
    forall i, j | 0 <= i < j < |lines| ensures lines[i] != lines[j] {
      if lines[i] == lines[j] {
        ExportLineInjective(order[i], env[order[i]], order[j], env[order[j]]);
        assert false;
      }
    }
  }
}
