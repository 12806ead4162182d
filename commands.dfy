/** Commands: running the build matrix of a configuration. */
module Commands {
  import opened Values
  import opened Exceptions
  import opened Matrix
  import opened Displays
  import opened Executors

  /** A normalized configuration as a run reads it: the global values, the matrix, the
      command sections, and the executor built from its `executor` section. */
  datatype RunConfig = RunConfig(
    global: map<string, Obj>,
    matrix: Dimensions,
    beforeInstall: seq<string>,
    install: seq<string>,
    beforeScript: seq<string>,
    script: seq<string>,
    afterSuccess: seq<string>,
    afterFailure: seq<string>,
    afterScript: seq<string>,
    executor: Executor)

  /** `find_required_keys_in_configuration`: the names the global, install, script,
      after_success and after_failure sections refer to, and no others. */
  function RequiredKeysInConfiguration(c: RunConfig, freeVars: string -> set<string>): (keys: set<string>)
    ensures RequiredKeysOf(Dict(c.global), freeVars) <= keys
    ensures forall i :: 0 <= i < |c.install| ==> freeVars(c.install[i]) <= keys
    ensures forall i :: 0 <= i < |c.script| ==> freeVars(c.script[i]) <= keys
    ensures forall i :: 0 <= i < |c.afterSuccess| ==> freeVars(c.afterSuccess[i]) <= keys
    ensures forall i :: 0 <= i < |c.afterFailure| ==> freeVars(c.afterFailure[i]) <= keys
    ensures forall k :: k in keys ==>
      || k in RequiredKeysOf(Dict(c.global), freeVars)
      || (exists i :: 0 <= i < |c.install| && k in freeVars(c.install[i]))
      || (exists i :: 0 <= i < |c.script| && k in freeVars(c.script[i]))
      || (exists i :: 0 <= i < |c.afterSuccess| && k in freeVars(c.afterSuccess[i]))
      || (exists i :: 0 <= i < |c.afterFailure| && k in freeVars(c.afterFailure[i]))
  {
    RequiredKeysOf(Dict(c.global), freeVars)
    + FindRequiredKeys(c.install, freeVars)
    + FindRequiredKeys(c.script, freeVars)
    + FindRequiredKeys(c.afterSuccess, freeVars)
    + FindRequiredKeys(c.afterFailure, freeVars)
  }

  /** The before_install, before_script and after_script sections, the matrix and the
      executor never change which keys are required. */
  lemma RequiredKeysIgnoreOtherSections(c: RunConfig, d: RunConfig, freeVars: string -> set<string>)
    requires c.global == d.global && c.install == d.install && c.script == d.script
    requires c.afterSuccess == d.afterSuccess && c.afterFailure == d.afterFailure
    ensures RequiredKeysInConfiguration(c, freeVars) == RequiredKeysInConfiguration(d, freeVars)
  {
  }

  /** The `(matrix, unknown_keys)` pair `command_run` expects from `validate_keys`: the
      matrix restricted to the known required keys, and the required keys it lacks. */
  function ValidateKeysPair(m: Dimensions, keys: set<string>): (r: (Dimensions, set<string>))
    ensures r.0.Keys == keys * m.Keys
    ensures forall k :: k in r.0 ==> r.0[k] == m[k]
    ensures forall k :: k in r.1 <==> k in keys && k !in m
  {
    (map k | k in m && k in keys :: m[k], keys - m.Keys)
  }

  /** The pair agrees with what `validate_keys` does: its unknown keys are exactly the ones
      `validate_keys` raises about, and when there are none the matrices coincide. */
  lemma ValidateKeysPairAgrees(m: Dimensions, keys: set<string>)
    ensures ValidateKeys(m, keys).Success? <==> ValidateKeysPair(m, keys).1 == {}
    ensures ValidateKeys(m, keys).Success? ==> ValidateKeys(m, keys).value == ValidateKeysPair(m, keys).0
    ensures ValidateKeys(m, keys).Failure? ==> ValidateKeys(m, keys).error.keys == ValidateKeysPair(m, keys).1
  {
    var pair := ValidateKeysPair(m, keys);
    assert forall k :: k in keys && k !in m ==> k in pair.1;
    if ValidateKeys(m, keys).Success? {
      assert ValidateKeys(m, keys).value.Keys == pair.0.Keys;
    }
  }

  /** The outcome of checking a configuration's names: the matrix reduced to the required
      dimensions, and the unknown, duplicate and unreferenced names. */
  datatype KeyReport = KeyReport(
    reduced: Dimensions,
    unknown: set<string>,
    duplicate: set<string>,
    unreferenced: set<string>)

  /** The name bookkeeping of `command_run`, from the declared dimensions, the global names
      and the required names. */
  function Reconcile(full: Dimensions, globalKeys: set<string>, required: set<string>): (r: KeyReport)
    ensures r.reduced.Keys == required * full.Keys && forall k :: k in r.reduced ==> r.reduced[k] == full[k]
    ensures forall k :: k in r.unknown <==> k in required && k !in full && k !in globalKeys
    ensures forall k :: k in r.duplicate <==> k in globalKeys && k in full
    ensures forall k :: k in r.unreferenced <==>
      (k in full && k !in required) || (k in globalKeys && !(k in required && k !in full))
  {
    var (reduced, unknown) := ValidateKeysPair(full, required);
    var unreferenced := (full.Keys - reduced.Keys) + (globalKeys - unknown);
    KeyReport(reduced, unknown - globalKeys, globalKeys * full.Keys, unreferenced)
  }

  /** Once the names pass the duplicate check, the names warned about are exactly the
      declared names, dimensions or globals, that nothing refers to. */
  lemma UnreferencedAreUnused(full: Dimensions, globalKeys: set<string>, required: set<string>)
    requires Reconcile(full, globalKeys, required).duplicate == {}
    ensures forall k :: k in Reconcile(full, globalKeys, required).unreferenced <==>
      (k in full || k in globalKeys) && k !in required
  {
    var r := Reconcile(full, globalKeys, required);
    forall k
      ensures k in r.unreferenced <==> (k in full || k in globalKeys) && k !in required
    {
      assert k !in r.duplicate;
    }
  }

  /** The error `command_run` raises about names: duplicates first, then unknown names;
      unreferenced names are never an error. */
  function CheckKeys(r: KeyReport): (e: Option<KeysError>)
    ensures e.None? <==> r.duplicate == {} && r.unknown == {}
    ensures r.duplicate != {} ==> e == Some(DuplicateKeys(r.duplicate))
    ensures r.duplicate == {} && r.unknown != {} ==> e == Some(UnknownKeys(r.unknown))
  {
    if r.duplicate != {} then Some(DuplicateKeys(r.duplicate))
    else if r.unknown != {} then Some(UnknownKeys(r.unknown))
    else None
  }

  /** Variants are generated from the reduced matrix: every pair of every selected variant
      names a dimension that is both declared and required, so unreferenced dimensions never
      multiply the variants. */
  lemma VariantsUseRequiredDimensions(full: Dimensions, globalKeys: set<string>, required: set<string>, pairs: set<Pair>)
    ensures var reduced := Reconcile(full, globalKeys, required).reduced;
      forall v, p :: v in GenerateVariants(reduced, pairs) && p in v ==>
        p.0 in required && p.0 in full && p.1 in full[p.0]
  {
  }

  /** `dict(variant)`: each dimension name mapped to the variant's value for it. */
  function VariantContext(v: Variant): (ctx: Context)
    requires HasUniqueKeys(v)
    ensures forall k :: k in ctx <==> exists x :: (k, x) in v
    ensures forall p :: p in v ==> p.0 in ctx && ctx[p.0] == p.1
  {
    var ctx := map p | p in v :: p.0 := p.1;
    assert forall k :: (exists x :: (k, x) in v) ==> k in ctx by {
      forall k, x | (k, x) in v ensures k in ctx {
        assert (k, x).0 == k;
      }
    }
    ctx
  }

  /** `get_context`: the variant's values, overridden by the globals rendered against the
      variant's values. */
  function GetContext(v: Variant, global: map<string, Obj>, renderString: (string, Context) -> string): (ctx: Context)
    requires HasUniqueKeys(v)
    ensures ctx.Keys == VariantContext(v).Keys + global.Keys
    ensures forall k :: k in global ==> ctx[k] == RenderObject(global[k], VariantContext(v), renderString)
    ensures forall p :: p in v && p.0 !in global ==> ctx[p.0] == p.1
  {
    var rendered := RenderObject(Dict(global), VariantContext(v), renderString);
    VariantContext(v) + rendered.entries
  }

  /** The script rendered with a context: one command per entry, in order. */
  function RenderedScript(script: seq<string>, ctx: Context, renderString: (string, Context) -> string): (commands: seq<string>)
    ensures |commands| == |script|
    ensures forall i :: 0 <= i < |script| ==> Str(commands[i]) == RenderObject(Str(script[i]), ctx, renderString)
  {
    seq(|script|, i requires 0 <= i < |script| => renderString(script[i], ctx))
  }

  /** The commands a variant runs. */
  function VariantCommands(c: RunConfig, v: Variant, renderString: (string, Context) -> string): seq<string>
    requires HasUniqueKeys(v)
  {
    RenderedScript(c.script, GetContext(v, c.global, renderString), renderString)
  }

  /** `run_variant`: renders the script with the variant's context and has the executor run
      it on the display. Its value is what `execute` returns: nothing, or the error raised. */
  method RunVariant(c: RunConfig, v: Variant, renderString: (string, Context) -> string,
                    env: Environment, display: StreamDisplay) returns (raised: Option<ExecError>)
    requires HasUniqueKeys(v) && display.Valid()
    modifies display, display.stream, display.binaryStream
    ensures display.Valid()
    ensures display.calls == old(display.calls) + c.executor.Calls(env, VariantCommands(c, v, renderString), 0)
    ensures display.WroteSince(old(display.stream.written), old(display.binaryStream.written),
                               c.executor.Calls(env, VariantCommands(c, v, renderString), 0))
    ensures raised == c.executor.Outcome(env, VariantCommands(c, v, renderString), 0)
  {
    var context := GetContext(v, c.global, renderString);
    var commands := RenderedScript(c.script, context, renderString);
    raised := c.executor.Execute(env, commands, display);
  }

  /** How `command_run` ends. */
  datatype RunOutcome =
    | KeyFailure(keysError: KeysError)
    | VariantFailure(variant: Variant, execError: ExecError)
    | TypeFailure(message: string)
    | Interrupted(variant: Variant)
    | Completed

  /** The name check `command_run` makes on a configuration. */
  function NameReport(c: RunConfig, freeVars: string -> set<string>): KeyReport
  {
    Reconcile(c.matrix, c.global.Keys, RequiredKeysInConfiguration(c, freeVars))
  }

  /** The variants `command_run` runs: those of the reduced matrix containing `pairs`. */
  function SelectedVariants(c: RunConfig, pairs: set<Pair>, freeVars: string -> set<string>): (r: seq<Variant>)
    ensures forall v :: v in r ==> HasUniqueKeys(v) && pairs <= v
  {
    GenerateVariants(NameReport(c, freeVars).reduced, pairs)
  }

  /** What drawing the first selected variant gives: the TypeError of a value Python
      cannot hash, the first selected variant, or nothing. */
  function FirstSelected(c: RunConfig, pairs: set<Pair>, freeVars: string -> set<string>): (r: Result<Option<Variant>, string>)
    ensures r.Success? && r.value.Some? ==>
      SelectedVariants(c, pairs, freeVars) != [] && r.value.value == SelectedVariants(c, pairs, freeVars)[0]
    ensures r.Success? && r.value.Some? ==> HasUniqueKeys(r.value.value) && pairs <= r.value.value
    ensures r.Success? && r.value.None? ==> SelectedVariants(c, pairs, freeVars) == []
    ensures r.Failure? ==> HashedVariants(NameReport(c, freeVars).reduced, pairs).Failure?
  {
    FirstKeptFailsOnlyIfHashedFails(NameReport(c, freeVars).reduced, pairs);
    var r := FirstKept(AllVariants(NameReport(c, freeVars).reduced), pairs);
    assert r.Success? && r.value.Some? ==> r.value.value in SelectedVariants(c, pairs, freeVars);
    r
  }

  /** How the build ends once variant `v` has run: with the error `execute` raised, or
      interrupted, since `run_variant` returned nothing. */
  function AfterVariant(c: RunConfig, v: Variant, renderString: (string, Context) -> string, env: Environment): RunOutcome
    requires HasUniqueKeys(v)
  {
    match c.executor.Outcome(env, VariantCommands(c, v, renderString), 0)
    case Some(error) => VariantFailure(v, error)
    case None => Interrupted(v)
  }

  /** `command_run`: checks the names before anything runs, warns about unreferenced names,
      then draws the selected variants in order and runs them until one returns a falsy
      value. Since `run_variant` returns what `execute` returns, nothing, the first selected
      variant is also the last; drawing it raises the TypeError of a value Python cannot
      hash, before anything runs. */
  method CommandRun(c: RunConfig, pairs: set<Pair>, freeVars: string -> set<string>,
                    renderString: (string, Context) -> string, env: Environment, display: StreamDisplay)
    returns (outcome: RunOutcome, warned: set<string>)
    requires display.Valid()
    modifies display, display.stream, display.binaryStream
    ensures display.Valid()
    ensures CheckKeys(NameReport(c, freeVars)).Some? ==>
      && outcome == KeyFailure(CheckKeys(NameReport(c, freeVars)).value) && warned == {}
      && display.calls == old(display.calls)
      && display.stream.written == old(display.stream.written)
      && display.binaryStream.written == old(display.binaryStream.written)
    ensures CheckKeys(NameReport(c, freeVars)).None? ==> warned == NameReport(c, freeVars).unreferenced
    ensures CheckKeys(NameReport(c, freeVars)).None? && FirstSelected(c, pairs, freeVars).Failure? ==>
      && outcome == TypeFailure(FirstSelected(c, pairs, freeVars).error)
      && display.calls == old(display.calls)
      && display.stream.written == old(display.stream.written)
      && display.binaryStream.written == old(display.binaryStream.written)
    ensures CheckKeys(NameReport(c, freeVars)).None? && FirstSelected(c, pairs, freeVars) == Success(None) ==>
      && outcome == Completed
      && display.calls == old(display.calls)
      && display.stream.written == old(display.stream.written)
      && display.binaryStream.written == old(display.binaryStream.written)
    ensures CheckKeys(NameReport(c, freeVars)).None? && FirstSelected(c, pairs, freeVars).Success? ==>
      FirstSelected(c, pairs, freeVars).value.Some? ==>
      var first := FirstSelected(c, pairs, freeVars).value.value;
      && display.calls == old(display.calls) + c.executor.Calls(env, VariantCommands(c, first, renderString), 0)
      && display.WroteSince(old(display.stream.written), old(display.binaryStream.written),
                            c.executor.Calls(env, VariantCommands(c, first, renderString), 0))
      && outcome == AfterVariant(c, first, renderString, env)
  {
    var report := NameReport(c, freeVars);
    warned := {};
    var failure := CheckKeys(report);
    if failure.Some? {
      outcome := KeyFailure(failure.value);
      return;
    }
    warned := report.unreferenced;
    match FirstSelected(c, pairs, freeVars)
    case Failure(message) =>
      outcome := TypeFailure(message);
    case Success(None) =>
      outcome := Completed;
    case Success(Some(v)) =>
      var raised := RunVariant(c, v, renderString, env, display);
      // `run_variant` returns nothing or an error; either way the loop over the variants
      // stops after this one.
      outcome := if raised.Some? then VariantFailure(v, raised.value) else Interrupted(v);
  }

  /** When every command of the first selected variant gives a code, its scopes are its
      script entries, rendered with its context, in order, each with its index and the
      script's length. */
  lemma FirstVariantScopes(c: RunConfig, v: Variant, renderString: (string, Context) -> string, env: Environment)
    requires HasUniqueKeys(v)
    requires forall i :: 0 <= i < |c.script| ==> c.executor.Completes(env, VariantCommands(c, v, renderString)[i])
    ensures var ctx := GetContext(v, c.global, renderString);
      Starts(c.executor.Calls(env, VariantCommands(c, v, renderString), 0))
        == seq(|c.script|, i requires 0 <= i < |c.script| => (i, |c.script|, renderString(c.script[i], ctx)))
  {
    AllCommandsRun(c.executor, env, VariantCommands(c, v, renderString));
  }
}
