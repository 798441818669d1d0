/**
 * The initialisation protocol every configurable part follows: fill in
 * defaults when the instance is still its zero value, then fill in the
 * values known only at run time, then check the result.
 */
module Prerequisites {
  import opened Wrappers
  import Git

  /** An argument passed to Initialize: a pointer to an Args record, or any other value. */
  datatype Arg = ArgsPointer(record: Args) | Other(repr: string)

  /** The Args record the three steps receive. */
  datatype Args = Args(variadicArgs: seq<Arg>)

  /** prepareArgs: a lone Args pointer is passed on, anything else is wrapped in a fresh record. */
  function PrepareArgs(args: seq<Arg>): (r: Args)
    ensures |args| == 1 && args[0].ArgsPointer? ==> r == args[0].record
    ensures !(|args| == 1 && args[0].ArgsPointer?) ==> r == Args(args)
  {
    if |args| == 1 && args[0].ArgsPointer? then args[0].record else Args(args)
  }

  /** The three methods of the interface, each a step on the instance with an error result. */
  datatype Steps<!T> = Steps(
    fillDefault: (T, Args) -> (T, Outcome),
    fillDynamic: (T, Args) -> (T, Outcome),
    checkPrerequisites: (T, Args) -> Outcome)

  datatype StepName = FillDefault | FillDynamic | CheckPrerequisites

  /** The instance Initialize works on through its pointer. */
  class Instance<T> {
    var value: T

    constructor(v: T)
      ensures value == v
    {
      value := v;
    }
  }

  /**
   * Initialize: `isStruct` says whether the type is a struct, `steps` is
   * None for a type that does not implement all three methods and `zero`
   * is the type's zero value.
   */
  method Initialize<T(==)>(instance: Instance<T>, isStruct: bool, steps: Option<Steps<T>>, zero: T, args: seq<Arg>)
    returns (err: Outcome, called: seq<StepName>)
    modifies instance
    ensures !isStruct ==> err == Fail("type is not a struct") && called == [] && instance.value == old(instance.value)
    ensures isStruct && steps.None? ==> err == Pass && called == [] && instance.value == old(instance.value)
    ensures isStruct && steps.Some? ==>
      var a := PrepareArgs(args);
      var st := steps.value;
      var d := if old(instance.value) == zero then st.fillDefault(old(instance.value), a) else (old(instance.value), Pass);
      var prefix := if old(instance.value) == zero then [FillDefault] else [];
      if !d.1.Pass? then err == d.1 && instance.value == d.0 && called == prefix
      else
        var y := st.fillDynamic(d.0, a);
        if !y.1.Pass? then err == y.1 && instance.value == y.0 && called == prefix + [FillDynamic]
        else err == st.checkPrerequisites(y.0, a) && instance.value == y.0 && called == prefix + [FillDynamic, CheckPrerequisites]
  {
    called := [];
    if !isStruct {
      return Fail("type is not a struct"), [];
    }
    var a := PrepareArgs(args);
    if steps.None? {
      return Pass, [];
    }
    var st := steps.value;
    if instance.value == zero {
      var r := st.fillDefault(instance.value, a);
      instance.value := r.0;
      called := [FillDefault];
      if !r.1.Pass? {
        return r.1, called;
      }
    }
    var r := st.fillDynamic(instance.value, a);
    instance.value := r.0;
    called := called + [FillDynamic];
    if !r.1.Pass? {
      return r.1, called;
    }
    err := st.checkPrerequisites(instance.value, a);
    called := called + [CheckPrerequisites];
  }

  /** CreateAndInitialize: a zero instance initialised; any error panics. */
  method CreateAndInitialize<T(==)>(isStruct: bool, steps: Option<Steps<T>>, zero: T, args: seq<Arg>) returns (r: Result<T>)
    ensures !isStruct ==> r == Panic("type is not a struct")
    ensures isStruct && steps.None? ==> r == Ok(zero)
    ensures isStruct && steps.Some? ==>
      var a := PrepareArgs(args);
      var d := steps.value.fillDefault(zero, a);
      var y := steps.value.fillDynamic(d.0, a);
      var c := steps.value.checkPrerequisites(y.0, a);
      r == (if !d.1.Pass? then Panic(d.1.msg) else if !y.1.Pass? then Panic(y.1.msg) else if !c.Pass? then Panic(c.msg) else Ok(y.0))
  {
    var instance := new Instance(zero);
    var err, called := Initialize(instance, isStruct, steps, zero, args);
    if !err.Pass? {
      return Panic(err.msg);
    }
    return Ok(instance.value);
  }

  /**
   * Git spells its second method FillDynamics, so it does not implement
   * the interface and Initialize leaves it as it is.
   */
  const GitSteps: Option<Steps<Git.Git>> := None

  method InitializeGit(g: Git.Git, args: seq<Arg>) returns (err: Outcome, r: Git.Git)
    ensures err == Pass && r == g
  {
    var instance := new Instance(g);
    var called;
    err, called := Initialize(instance, true, GitSteps, Git.Git("", "", ""), args);
    r := instance.value;
  }
}
