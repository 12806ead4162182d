/** Configuration: the shaping and defaulting a loaded configuration goes through before a
    run. */
module Configuration {
  import opened Values
  import opened Executors

  /** `command_or_command_list`: a string becomes a one-command list, a list or tuple is
      kept as it is, anything else is refused. */
  function CommandOrCommandList(value: Obj): (r: Result<Obj, string>)
    ensures value.Str? ==> r == Success(List([value]))
    ensures value.List? || value.Tuple? ==> r == Success(value)
    ensures r.Failure? <==> !(value.Str? || value.List? || value.Tuple?)
    ensures r.Success? ==> r.value.List? || r.value.Tuple?
  {
    match value
    case Str(_) => Success(List([value]))
    case List(_) => Success(value)
    case Tuple(_) => Success(value)
    case _ => Failure("Value must be either a string or a list")
  }

  /** Coercing an already coerced section changes nothing. */
  lemma CommandOrCommandListIdempotent(value: Obj)
    requires CommandOrCommandList(value).Success?
    ensures CommandOrCommandList(CommandOrCommandList(value).value) == CommandOrCommandList(value)
  {
  }

  /** `name.rsplit('.', 1)` when it gives two parts: everything before the last '.', and
      everything after it. None when the name holds no '.'. */
  function RSplitDot(name: string): (r: Option<(string, string)>)
    ensures r.None? <==> '.' !in name
    ensures r.Some? ==> name == r.value.0 + "." + r.value.1 && '.' !in r.value.1
  {
    if |name| == 0 then None
    else if name[|name| - 1] == '.' then
      assert name == name[..|name| - 1] + "." + "";
      Some((name[..|name| - 1], ""))
    else
      match RSplitDot(name[..|name| - 1])
      case None =>
        assert name == name[..|name| - 1] + [name[|name| - 1]];
        None
      case Some((moduleName, className)) =>
        assert name == name[..|name| - 1] + [name[|name| - 1]];
        Some((moduleName, className + [name[|name| - 1]]))
  }

  /** Splitting a dotted name whose last part has no '.' gives back both parts. */
  lemma {:induction false} SplitFullName(moduleName: string, className: string)
    requires '.' !in className
    ensures RSplitDot(moduleName + "." + className) == Some((moduleName, className))
    decreases |className|
  {
    var name := moduleName + "." + className;
    if |className| == 0 {
      assert name[|name| - 1] == '.';
      assert name[..|name| - 1] == moduleName;
    } else {
      var front := className[..|className| - 1];
      assert name[..|name| - 1] == moduleName + "." + front;
      assert name[|name| - 1] == className[|className| - 1];
      assert '.' !in front by {
        assert forall c :: c in front ==> c in className;
      }
      SplitFullName(moduleName, front);
      assert front + [className[|className| - 1]] == className;
    }
  }

  /** What `parse_executor` hands to the dynamic import: the module to import, the class to
      take from it, and the options to build the instance with. */
  datatype ExecutorSpec = ExecutorSpec(moduleName: string, className: string, options: map<string, Obj>)

  /** `parse_executor` up to the import: a bare string stands for `{'name': value}`; the
      mapping may hold only `name`, which is required and a string, and `options`, which
      defaults to an empty mapping and must be a mapping; the name is split at its last '.'. */
  function ParseExecutor(value: Obj): (r: Result<ExecutorSpec, string>)
    ensures value.Str? ==> (r.Success? <==> '.' in value.s)
    ensures value.Str? && r.Success? ==> r.value.options == map[]
    ensures r.Success? ==> value.Str? || value.Dict?
    ensures value.Dict? ==> (r.Success? <==>
      && value.entries.Keys <= {"name", "options"}
      && "name" in value.entries && value.entries["name"].Str? && '.' in value.entries["name"].s
      && ("options" in value.entries ==> value.entries["options"].Dict?))
    ensures value.Dict? && r.Success? ==>
      && value.entries.Keys <= {"name", "options"}
      && "name" in value.entries && value.entries["name"].Str?
      && ("options" in value.entries ==> value.entries["options"] == Dict(r.value.options))
      && ("options" !in value.entries ==> r.value.options == map[])
    ensures r.Success? ==>
      var name := if value.Str? then value.s else value.entries["name"].s;
      name == r.value.moduleName + "." + r.value.className && '.' !in r.value.className
  {
    var shaped := if value.Str? then Dict(map["name" := value]) else value;
    if !shaped.Dict? then Failure("expected a dictionary")
    else if !(shaped.entries.Keys <= {"name", "options"}) then Failure("extra keys not allowed")
    else if "name" !in shaped.entries then Failure("required key not provided @ data['name']")
    else if !shaped.entries["name"].Str? then Failure("expected str for dictionary value @ data['name']")
    else
      var options := if "options" in shaped.entries then shaped.entries["options"] else Dict(map[]);
      if !options.Dict? then Failure("expected a dictionary for dictionary value @ data['options']")
      else
        match RSplitDot(shaped.entries["name"].s)
        case None => Failure("not enough values to unpack")
        case Some((moduleName, className)) => Success(ExecutorSpec(moduleName, className, options.entries))
  }

  /** The class `parse_executor` builds with the parsed options, given that class's options
      schema and its `execute_one`. */
  function Instantiate(spec: ExecutorSpec, schema: map<string, Obj> -> Result<map<string, Obj>, string>,
                       executeOne: (Environment, string) -> Run): (r: Result<Executor, string>)
    ensures r.Success? ==> r.value.moduleName == spec.moduleName && r.value.className == spec.className
    ensures r.Success? <==> schema(spec.options).Success?
  {
    NewExecutor(spec.moduleName, spec.className, Some(spec.options), schema, executeOne)
  }

  /** The executor YAML writes out parses back to the same class and options: the bare
      dotted name when there are no options, the name/options mapping otherwise. */
  lemma RepresentedExecutorParses(e: Executor)
    requires '.' !in e.className
    ensures ParseExecutor(LoadedValue(Represent(e))) == Success(ExecutorSpec(e.moduleName, e.className, e.options))
  {
    SplitFullName(e.moduleName, e.className);
  }

  /** An executor named by a string comes out with that full name. */
  lemma ParsedNameIsFullName(name: string, schema: map<string, Obj> -> Result<map<string, Obj>, string>,
                             executeOne: (Environment, string) -> Run)
    requires ParseExecutor(Str(name)).Success?
    requires Instantiate(ParseExecutor(Str(name)).value, schema, executeOne).Success?
    ensures Instantiate(ParseExecutor(Str(name)).value, schema, executeOne).value.FullName() == name
  {
  }

  /** Where an executor class's options schema comes from: importing the named module, taking
      the named class from it and reading its `options_schema`. */
  type SchemaLookup = (string, string) -> (map<string, Obj> -> Result<map<string, Obj>, string>)

  /** `parse_executor` as `normalize` applies it: the value is parsed, then the named class's
      options schema checks the options while the class is built; the executor keeps the
      options the schema returns. */
  function CheckExecutor(value: Obj, schemaOf: SchemaLookup): (r: Result<ExecutorSpec, string>)
    ensures r.Success? <==>
      ParseExecutor(value).Success? &&
      var spec := ParseExecutor(value).value;
      schemaOf(spec.moduleName, spec.className)(spec.options).Success?
    ensures r.Success? ==>
      var spec := ParseExecutor(value).value;
      r.value == ExecutorSpec(spec.moduleName, spec.className, schemaOf(spec.moduleName, spec.className)(spec.options).value)
  {
    match ParseExecutor(value)
    case Failure(e) => Failure(e)
    case Success(spec) =>
      match schemaOf(spec.moduleName, spec.className)(spec.options)
      case Failure(e) => Failure(e)
      case Success(options) => Success(ExecutorSpec(spec.moduleName, spec.className, options))
  }

  /** The executor checked by `normalize` is the one `Instantiate` builds from the parsed
      value: it is built exactly when the check passes, with the same class and options. */
  lemma CheckedExecutorIsInstantiated(value: Obj, schemaOf: SchemaLookup, executeOne: (Environment, string) -> Run)
    requires ParseExecutor(value).Success?
    ensures var spec := ParseExecutor(value).value;
      var built := Instantiate(spec, schemaOf(spec.moduleName, spec.className), executeOne);
      && (CheckExecutor(value, schemaOf).Success? <==> built.Success?)
      && (built.Success? ==>
            && built.value.moduleName == CheckExecutor(value, schemaOf).value.moduleName
            && built.value.className == CheckExecutor(value, schemaOf).value.className
            && built.value.options == CheckExecutor(value, schemaOf).value.options)
  {
  }

  /** The executor a configuration gets when it names none: `plix.executors.ShellExecutor`
      with no options. */
  const DefaultExecutor := ExecutorSpec("plix.executors", "ShellExecutor", map[])

  /** The sections holding commands, coerced by `command_or_command_list`. */
  const CommandSections: set<string> :=
    {"before_install", "install", "before_script", "script", "after_success", "after_failure", "after_script"}

  /** The sections holding mappings of arbitrary values. */
  const MappingSections: set<string> := {"global", "matrix", "exclusion_matrix"}

  /** How the normalizing schema treats one section other than `executor`. */
  function CheckSection(key: string, value: Obj): (r: Result<Obj, string>)
    ensures r.Success? ==> key in CommandSections || key in MappingSections
    ensures r.Success? && key in CommandSections ==>
      && (r.value.List? || r.value.Tuple?)
      && (value.Str? ==> r.value == List([value]))
      && (!value.Str? ==> r.value == value)
    ensures r.Success? && key in MappingSections ==> r.value == value && value.Dict?
    ensures key in CommandSections ==> (r.Success? <==> value.Str? || value.List? || value.Tuple?)
    ensures key in MappingSections ==> (r.Success? <==> value.Dict?)
  {
    if key in CommandSections then CommandOrCommandList(value)
    else if key in MappingSections then
      if value.Dict? then Success(value) else Failure("expected a dictionary")
    else Failure("extra keys not allowed")
  }

  /** Whether the normalizing schema accepts `value` under `key`. */
  predicate Accepted(key: string, value: Obj, schemaOf: SchemaLookup)
  {
    if key == "executor" then CheckExecutor(value, schemaOf).Success? else CheckSection(key, value).Success?
  }

  /** A normalized configuration: the executor to build, and every other section. */
  datatype Normalized = Normalized(executor: ExecutorSpec, sections: map<string, Obj>)

  /** Why normalizing failed: the configuration is not a mapping, or these sections are
      invalid (every one of them is reported). */
  datatype NormalizeError = NotAMapping | InvalidKeys(keys: set<string>)

  /** `normalize`: checks every section and coerces the command sections; a missing executor
      is the default one. */
  function Normalize(raw: Obj, schemaOf: SchemaLookup): (r: Result<Normalized, NormalizeError>)
    ensures !raw.Dict? ==> r == Failure(NotAMapping)
    ensures raw.Dict? ==> (r.Success? <==> forall k :: k in raw.entries ==> Accepted(k, raw.entries[k], schemaOf))
    ensures raw.Dict? && r.Failure? ==>
      r.error == InvalidKeys(set k | k in raw.entries && !Accepted(k, raw.entries[k], schemaOf))
    ensures r.Success? ==>
      && r.value.executor == (if "executor" in raw.entries then CheckExecutor(raw.entries["executor"], schemaOf).value else DefaultExecutor)
      && r.value.sections.Keys == raw.entries.Keys - {"executor"}
      && (forall k :: k in r.value.sections ==> k in CommandSections || k in MappingSections)
      && (forall k :: k in r.value.sections && k in CommandSections ==>
            && (r.value.sections[k].List? || r.value.sections[k].Tuple?)
            && (raw.entries[k].Str? ==> r.value.sections[k] == List([raw.entries[k]]))
            && (!raw.entries[k].Str? ==> r.value.sections[k] == raw.entries[k]))
      && (forall k :: k in r.value.sections && k in MappingSections ==>
            r.value.sections[k] == raw.entries[k] && raw.entries[k].Dict?)
  {
    if !raw.Dict? then Failure(NotAMapping)
    else
      var entries := raw.entries;
      var invalid := set k | k in entries && !Accepted(k, entries[k], schemaOf);
      if invalid != {} then
        assert forall k :: k in invalid ==> k in entries && !Accepted(k, entries[k], schemaOf);
        Failure(InvalidKeys(invalid))
      else
        assert forall k :: k in entries ==> k !in invalid;
        var executor := if "executor" in entries then CheckExecutor(entries["executor"], schemaOf).value else DefaultExecutor;
        var sections := map k | k in entries && k != "executor" :: CheckSection(k, entries[k]).value;
        assert forall k :: k in sections ==> CheckSection(k, entries[k]).Success? && sections[k] == CheckSection(k, entries[k]).value;
        Success(Normalized(executor, sections))
  }

  /** A configuration whose matrix is a list and whose script is a mapping is refused with
      both sections reported. */
  lemma BothInvalidSectionsReported(schemaOf: SchemaLookup)
    ensures Normalize(Dict(map["matrix" := List([]), "script" := Dict(map["key" := Str("value")])]), schemaOf)
      == Failure(InvalidKeys({"matrix", "script"}))
  {
    var entries := map["matrix" := List([]), "script" := Dict(map["key" := Str("value")])];
    assert !Accepted("matrix", entries["matrix"], schemaOf) && !Accepted("script", entries["script"], schemaOf);
    assert (set k | k in entries && !Accepted(k, entries[k], schemaOf)) == {"matrix", "script"};
  }

  /** A bare script string is normalized to a one-command list, with the default executor. */
  lemma ScriptStringBecomesList(command: string, schemaOf: SchemaLookup)
    ensures Normalize(Dict(map["script" := Str(command)]), schemaOf)
      == Success(Normalized(DefaultExecutor, map["script" := List([Str(command)])]))
  {
    var entries := map["script" := Str(command)];
    assert Accepted("script", entries["script"], schemaOf);
    var r := Normalize(Dict(entries), schemaOf);
    assert r.value.sections == map["script" := List([Str(command)])];
  }

  /** A configuration with one invalid section is refused with that section reported. */
  lemma OneInvalidSection(key: string, value: Obj, schemaOf: SchemaLookup)
    requires !Accepted(key, value, schemaOf)
    ensures Normalize(Dict(map[key := value]), schemaOf) == Failure(InvalidKeys({key}))
  {
    var entries := map[key := value];
    assert (set k | k in entries && !Accepted(k, entries[k], schemaOf)) == {key};
  }

  /** A mapping naming a dotted class, with options, parses to that module, class and options. */
  lemma NamedExecutorParses(moduleName: string, className: string, options: map<string, Obj>)
    requires '.' !in className
    ensures ParseExecutor(Dict(map["name" := Str(moduleName + "." + className), "options" := Dict(options)]))
      == Success(ExecutorSpec(moduleName, className, options))
  {
    SplitFullName(moduleName, className);
  }

  /** Options the named class's schema refuses make the executor section, and so the
      configuration, invalid. */
  lemma RefusedOptionsInvalidate(moduleName: string, className: string, options: map<string, Obj>, schemaOf: SchemaLookup)
    requires '.' !in className
    requires schemaOf(moduleName, className)(options).Failure?
    ensures Normalize(Dict(map["executor" := Dict(map["name" := Str(moduleName + "." + className),
                                                      "options" := Dict(options)])]), schemaOf)
      == Failure(InvalidKeys({"executor"}))
  {
    NamedExecutorParses(moduleName, className, options);
    OneInvalidSection("executor", Dict(map["name" := Str(moduleName + "." + className), "options" := Dict(options)]), schemaOf);
  }

  /** The shell executor, whose schema is the base `Schema({})`, refuses any option. */
  lemma ShellExecutorOptionsRefused(schemaOf: SchemaLookup)
    requires forall o :: schemaOf("plix.executors", "ShellExecutor")(o) == EmptySchema(o)
    ensures Normalize(Dict(map["executor" := Dict(map["name" := Str("plix.executors.ShellExecutor"),
                                                      "options" := Dict(map["a" := Int(1)])])]), schemaOf)
      == Failure(InvalidKeys({"executor"}))
  {
    var options := map["a" := Int(1)];
    assert "a" in options;
    assert "plix.executors" + "." + "ShellExecutor" == "plix.executors.ShellExecutor";
    RefusedOptionsInvalidate("plix.executors", "ShellExecutor", options, schemaOf);
  }
}
