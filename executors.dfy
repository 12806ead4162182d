/** Executors: running a variant's commands one after another inside display scopes, and
    the name and YAML shape of an executor. */
module Executors {
  import opened Values
  import opened Strings
  import opened Displays

  /** The environment variables handed to every command. */
  type Environment = map<string, string>

  /** How `execute_one` ended: it returned a value (None when it returned no code), or it
      raised. */
  datatype Status = Returned(value: Option<int>) | Raised(error: string)

  /** One `execute_one` call: the chunks it passed to its `output` callback, in order, and
      how it ended. */
  datatype Run = Run(output: seq<Bytes>, status: Status)

  /** Why `execute` stopped early. */
  datatype ExecError =
    | MissingReturnCode(command: string)
    | ExecuteOneFailed(error: string)
  {
    function Message(): (msg: string)
      ensures MissingReturnCode? ==> Contains(msg, command)
    {
      match this
      case MissingReturnCode(command) =>
        var prefix := "No returncode specified for command execution (";
        assert OccursAt(prefix + command + ")", command, |prefix|);
        prefix + command + ")"
      case ExecuteOneFailed(error) => error
    }
  }

  /** The shape YAML gives a represented executor. */
  datatype Node =
    | ScalarNode(tag: string, value: string)
    | MappingNode(tag: string, entries: map<string, Obj>)

  const StrTag := "tag:yaml.org,2002:str"
  const MapTag := "tag:yaml.org,2002:map"

  /** An executor: the module and class that define it, its validated options, and its
      `execute_one`, which runs one command. */
  datatype Executor = Executor(
    moduleName: string,
    className: string,
    options: map<string, Obj>,
    executeOne: (Environment, string) -> Run)
  {
    /** The dotted name of the executor's class. */
    function FullName(): (name: string)
      ensures |name| == |moduleName| + 1 + |className|
      ensures name[..|moduleName|] == moduleName && name[|moduleName|] == '.' && name[|moduleName| + 1..] == className
    {
      moduleName + "." + className
    }

    /** Whether `execute_one` gave a return code for `command`. */
    predicate Completes(env: Environment, command: string)
    {
      executeOne(env, command).status.Returned? && executeOne(env, command).status.value.Some?
    }

    /** What the block of one `display.command(...)` scope does for `command`: it forwards the
        output, stores the code `execute_one` returned, and raises when that call raised or
        returned no code. */
    function BodyOf(env: Environment, command: string): (b: Body<ExecError>)
      ensures b.output == executeOne(env, command).output
      ensures b.raised.None? <==> Completes(env, command)
      ensures Completes(env, command) ==> b.returncode == executeOne(env, command).status.value
      ensures !Completes(env, command) ==> b.returncode.None?
      ensures executeOne(env, command).status == Returned(None) ==> b.raised == Some(MissingReturnCode(command))
      ensures executeOne(env, command).status.Raised? ==> b.raised == Some(ExecuteOneFailed(executeOne(env, command).status.error))
    {
      var run := executeOne(env, command);
      match run.status
      case Raised(error) => Body(run.output, None, Some(ExecuteOneFailed(error)))
      case Returned(None) => Body(run.output, None, Some(MissingReturnCode(command)))
      case Returned(Some(code)) => Body(run.output, Some(code), None)
    }

    /** The display calls `execute` makes from command `from` on. */
    function Calls(env: Environment, commands: seq<string>, from: nat): seq<Call>
      decreases |commands| - from
    {
      if from >= |commands| then []
      else
        var body := BodyOf(env, commands[from]);
        Bracket(from, |commands|, commands[from], body)
        + (if body.raised.Some? then [] else Calls(env, commands, from + 1))
    }

    /** The error `execute` raises from command `from` on, or None when it returns. */
    function Outcome(env: Environment, commands: seq<string>, from: nat): Option<ExecError>
      decreases |commands| - from
    {
      if from >= |commands| then None
      else
        var body := BodyOf(env, commands[from]);
        if body.raised.Some? then body.raised else Outcome(env, commands, from + 1)
    }

    /** `execute`: runs the commands in list order, each in its own display scope; stops with
        an error at the first command whose `execute_one` raised or returned no code, after
        closing that command's scope. Otherwise it returns nothing. */
    method Execute(env: Environment, commands: seq<string>, display: StreamDisplay) returns (raised: Option<ExecError>)
      requires display.Valid()
      modifies display, display.stream, display.binaryStream
      ensures display.Valid()
      ensures display.calls == old(display.calls) + Calls(env, commands, 0)
      ensures display.WroteSince(old(display.stream.written), old(display.binaryStream.written), Calls(env, commands, 0))
      ensures raised == Outcome(env, commands, 0)
    {
      ghost var text0, binary0, calls0 := display.stream.written, display.binaryStream.written, display.calls;
      var i := 0;
      raised := None;
      while i < |commands| && raised.None?
        invariant 0 <= i <= |commands|
        invariant display.Valid()
        invariant raised.None? ==> display.calls == calls0 + CallsUpTo(env, commands, i)
        invariant raised.None? ==> Calls(env, commands, 0) == CallsUpTo(env, commands, i) + Calls(env, commands, i)
        invariant raised.None? ==> Outcome(env, commands, 0) == Outcome(env, commands, i)
        invariant raised.Some? ==> display.calls == calls0 + Calls(env, commands, 0) && raised == Outcome(env, commands, 0)
        decreases |commands| - i, if raised.None? then 1 else 0
      {
        var body := BodyOf(env, commands[i]);
        raised := display.Command(i, |commands|, commands[i], body);
        StepFacts(env, commands, i, calls0);
        if raised.None? {
          i := i + 1;
        }
      }
      if raised.None? {
        AppendNil(CallsUpTo(env, commands, i));
      }
      MirrorsTrans(text0, binary0, display.binaryStream == display.stream, display.textBase, display.binaryBase,
                   calls0, Calls(env, commands, 0), display.stream.written, display.binaryStream.written);
    }

    /** What the loop of `execute` learns from running command `i` after the commands before
        it: its scope extends the calls made so far, and either it ends the run or the run
        continues with command `i + 1`. */
    lemma StepFacts(env: Environment, commands: seq<string>, i: nat, earlier: seq<Call>)
      requires i < |commands|
      requires Calls(env, commands, 0) == CallsUpTo(env, commands, i) + Calls(env, commands, i)
      requires Outcome(env, commands, 0) == Outcome(env, commands, i)
      ensures var body := BodyOf(env, commands[i]);
        var now := earlier + CallsUpTo(env, commands, i) + Bracket(i, |commands|, commands[i], body);
        && (body.raised.Some? ==> now == earlier + Calls(env, commands, 0) && body.raised == Outcome(env, commands, 0))
        && (body.raised.None? ==>
              && now == earlier + CallsUpTo(env, commands, i + 1)
              && Calls(env, commands, 0) == CallsUpTo(env, commands, i + 1) + Calls(env, commands, i + 1)
              && Outcome(env, commands, 0) == Outcome(env, commands, i + 1))
    {
      var bracket := Bracket(i, |commands|, commands[i], BodyOf(env, commands[i]));
      CallsStep(env, commands, i);
      AppendAssoc(earlier, CallsUpTo(env, commands, i), bracket);
      AppendAssoc(CallsUpTo(env, commands, i), bracket, Calls(env, commands, i + 1));
    }

    /** The display calls of the first `n` commands, each in full. */
    ghost function CallsUpTo(env: Environment, commands: seq<string>, n: nat): seq<Call>
      requires n <= |commands|
    {
      if n == 0 then []
      else CallsUpTo(env, commands, n - 1) + Bracket(n - 1, |commands|, commands[n - 1], BodyOf(env, commands[n - 1]))
    }

    /** One step of `execute`: the scope of command `i`, then the rest unless it raised. */
    lemma CallsStep(env: Environment, commands: seq<string>, i: nat)
      requires i < |commands|
      ensures var body := BodyOf(env, commands[i]);
        && Calls(env, commands, i) == Bracket(i, |commands|, commands[i], body)
             + (if body.raised.Some? then [] else Calls(env, commands, i + 1))
        && Outcome(env, commands, i) == (if body.raised.Some? then body.raised else Outcome(env, commands, i + 1))
        && (body.raised.Some? ==> Calls(env, commands, i) == Bracket(i, |commands|, commands[i], body))
    {
      AppendNil(Bracket(i, |commands|, commands[i], BodyOf(env, commands[i])));
    }
  }

  /** Schema({}): the options schema of the base executor, which accepts only no options. */
  function EmptySchema(options: map<string, Obj>): (r: Result<map<string, Obj>, string>)
    ensures r.Success? <==> options == map[]
    ensures r.Success? ==> r.value == options
  {
    if options == map[] then Success(options) else Failure("extra keys not allowed")
  }

  /** `BaseExecutor.__init__`: missing options become an empty map before the class's options
      schema checks them. */
  function NewExecutor(
    moduleName: string, className: string, options: Option<map<string, Obj>>,
    schema: map<string, Obj> -> Result<map<string, Obj>, string>,
    executeOne: (Environment, string) -> Run): (r: Result<Executor, string>)
    ensures var given := if options.Some? then options.value else map[];
      && (r.Success? <==> schema(given).Success?)
      && (r.Success? ==> r.value == Executor(moduleName, className, schema(given).value, executeOne))
      && (r.Failure? ==> r.error == schema(given).error)
  {
    var given := if options.Some? then options.value else map[];
    match schema(given)
    case Failure(error) => Failure(error)
    case Success(validated) => Success(Executor(moduleName, className, validated, executeOne))
  }

  /** With the base schema, no options and empty options both give an executor with empty
      options, and any option at all is refused. */
  lemma BaseExecutorOptions(moduleName: string, className: string, options: Option<map<string, Obj>>, executeOne: (Environment, string) -> Run)
    ensures var r := NewExecutor(moduleName, className, options, EmptySchema, executeOne);
      && (r.Success? <==> (options.None? || options.value == map[]))
      && (r.Success? ==> r.value.options == map[])
  {
  }

  /** `executor_representer`: a mapping with the name and options when there are options, the
      bare dotted name otherwise. */
  function Represent(e: Executor): (n: Node)
    ensures n.ScalarNode? <==> e.options == map[]
    ensures n.ScalarNode? ==> n == ScalarNode(StrTag, e.FullName())
    ensures n.MappingNode? ==>
      && n.tag == MapTag && n.entries.Keys == {"name", "options"}
      && n.entries["name"] == Str(e.FullName()) && n.entries["options"] == Dict(e.options)
  {
    if e.options != map[] then
      MappingNode(MapTag, map["name" := Str(e.FullName()), "options" := Dict(e.options)])
    else
      ScalarNode(StrTag, e.FullName())
  }

  /** The value a YAML loader reads back from a represented executor. */
  function LoadedValue(n: Node): Obj
  {
    match n
    case ScalarNode(_, value) => Str(value)
    case MappingNode(_, entries) => Dict(entries)
  }

  /** The expected start calls of commands `from` up to `last`. */
  function StartsFrom(commands: seq<string>, from: nat, last: nat): seq<(nat, nat, string)>
    requires from <= last <= |commands|
  {
    seq(last - from, k requires 0 <= k < last - from => var index: nat := from + k; (index, |commands|, commands[from + k]))
  }

  /** The expected stop calls of commands `from` up to `last`. */
  function StopsFrom(e: Executor, env: Environment, commands: seq<string>, from: nat, last: nat): seq<(nat, Option<int>)>
    requires from <= last <= |commands|
  {
    seq(last - from, k requires 0 <= k < last - from => var index: nat := from + k; (index, e.BodyOf(env, commands[from + k]).returncode))
  }

  /** Let `upto` be the first command, from `from` on, whose `execute_one` raised or gave no
      code (`|commands|` when there is none). Then commands `from` through `upto` get a scope
      each, in list order, with their own index, the full count and their text; each scope is
      closed with the code `execute_one` returned (None for `upto`); no later command runs; and
      `execute` raises exactly when `upto` is a command. Non-zero codes do not stop the loop. */
  lemma {:induction false} RunsUpToFirstFailure(e: Executor, env: Environment, commands: seq<string>, from: nat, upto: nat)
    requires from <= upto <= |commands|
    requires forall i :: from <= i < upto ==> e.Completes(env, commands[i])
    requires upto < |commands| ==> !e.Completes(env, commands[upto])
    ensures var last := if upto < |commands| then upto + 1 else upto;
      && Starts(e.Calls(env, commands, from)) == StartsFrom(commands, from, last)
      && Stops(e.Calls(env, commands, from)) == StopsFrom(e, env, commands, from, last)
    ensures e.Outcome(env, commands, from) == (if upto < |commands| then e.BodyOf(env, commands[upto]).raised else None)
    decreases upto - from
  {
    var last := if upto < |commands| then upto + 1 else upto;
    if from < |commands| {
      var body := e.BodyOf(env, commands[from]);
      var bracket := Bracket(from, |commands|, commands[from], body);
      e.CallsStep(env, commands, from);
      BracketOpensAndCloses(from, |commands|, commands[from], body);
      ExpectedCons(e, env, commands, from, last);
      if from == upto {
        assert StartsFrom(commands, from + 1, last) == [] && StopsFrom(e, env, commands, from + 1, last) == [];
      } else {
        RunsUpToFirstFailure(e, env, commands, from + 1, upto);
        StartsStopsConcat(bracket, e.Calls(env, commands, from + 1));
      }
    }
  }

  lemma ExpectedCons(e: Executor, env: Environment, commands: seq<string>, from: nat, last: nat)
    requires from < last <= |commands|
    ensures StartsFrom(commands, from, last) == [(from, |commands|, commands[from])] + StartsFrom(commands, from + 1, last)
    ensures StopsFrom(e, env, commands, from, last) == [(from, e.BodyOf(env, commands[from]).returncode)] + StopsFrom(e, env, commands, from + 1, last)
  {
  }

  /** When every command gives a code, zero or not, every command runs and `execute` returns
      normally, and each scope is closed with that command's code. */
  lemma AllCommandsRun(e: Executor, env: Environment, commands: seq<string>)
    requires forall i :: 0 <= i < |commands| ==> e.Completes(env, commands[i])
    ensures Starts(e.Calls(env, commands, 0)) == seq(|commands|, i requires 0 <= i < |commands| => (i, |commands|, commands[i]))
    ensures Stops(e.Calls(env, commands, 0)) == seq(|commands|, i requires 0 <= i < |commands| && e.Completes(env, commands[i]) => (i, e.executeOne(env, commands[i]).status.value))
    ensures e.Outcome(env, commands, 0) == None
  {
    RunsUpToFirstFailure(e, env, commands, 0, |commands|);
  }

  /** A command whose `execute_one` returns no code ends the run with that error, after its
      own scope closed with no code; later commands never start. */
  lemma StopsAtMissingReturnCode(e: Executor, env: Environment, commands: seq<string>, j: nat)
    requires j < |commands|
    requires forall i :: 0 <= i < j ==> e.Completes(env, commands[i])
    requires e.executeOne(env, commands[j]).status == Returned(None)
    ensures |Starts(e.Calls(env, commands, 0))| == j + 1
    ensures forall k :: 0 <= k < |Starts(e.Calls(env, commands, 0))| ==> Starts(e.Calls(env, commands, 0))[k].0 <= j
    ensures |Stops(e.Calls(env, commands, 0))| == j + 1 && Stops(e.Calls(env, commands, 0))[j] == (j, None)
    ensures e.Outcome(env, commands, 0) == Some(MissingReturnCode(commands[j]))
  {
    RunsUpToFirstFailure(e, env, commands, 0, j);
  }
}
