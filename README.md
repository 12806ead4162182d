# plix build-matrix core, modelled in Dafny

plix runs a configuration's script once per variant of a build matrix. This project models
the following parts of it:

- The matrix: expanding the dimensions into variants, restricting a matrix to the names a
  configuration uses, and collecting those names.
- The run: reconciling the declared dimensions, the `global` names and the required names
  into duplicate, unknown and unreferenced names. It then builds each variant's context,
  renders its script and runs the variants in order.
- The executor driver `BaseExecutor.execute`: one display scope per command, and an error
  on a missing return code. Also its `full_name`, its options defaulting and its YAML
  representation.
- The display protocol: `BaseDisplay.command` as a start/stop bracket, and `StreamDisplay`
  writing text lines to a stream and raw bytes to the stream's binary `buffer`.
- Configuration coercion: `command_or_command_list`, the name and option shaping of
  `parse_executor`, and the defaulting and coercion `normalize` applies.
- The two key errors, `UnknownKeys` and `DuplicateKeys`.

One module per source file:

- `values.dfy`: configuration values `Obj`, bytes, `Option` and `Result`. A float is kept
  as its literal text, and `Hashable` says which values Python can put in a frozenset.
- `strings.dfy`: Python's string order, `sorted`, `", ".join` and `"{}".format` of integers.
- `exceptions.dfy`, `matrix.dfy`, `displays.dfy`, `executors.dfy`, `configuration.dfy` and
  `commands.dfy`: the corresponding plix files.

Where plix depends on other libraries, the model takes them as parameters:

- The templating engine's undeclared-variable analysis is `freeVars`.
- Its string rendering is `renderString`.
- The executor subclass's `execute_one` is `executeOne`. It maps an environment and a
  command to the output chunks written and a status: a code, no code, or an exception.
- An executor class's options schema is `schema`. The import that finds a class's schema
  from its module and class names is `schemaOf`.
- `os.environ` is the `env` parameter.

Displays and streams are classes. A stream's `written` sequence only ever grows. A
`StreamDisplay` keeps a ghost record `calls` of every start, output and stop call made on
it. Its invariant `Valid()` ties what each stream holds to that record. When the text
stream has no `buffer`, both go to the same stream and it holds everything in call order.
Otherwise the text stream holds only the lines and the buffer only the bytes. `execute` and
`run_variant` are proved against the record: the calls they make are exactly
`Executor.Calls(...)`. The lemmas about `Calls` then state the protocol: scopes in list
order, the return codes passed to stop, and the stop at the first missing code.

The model follows the code. Where the code cannot run as written, or depends on
definitions it does not have, the model makes these choices:

- `commands.py` imports `filter_variants` and `render_object`, but `matrix.py` defines
  neither. `render_object` is modelled as `RenderObject`:
  - strings are rendered;
  - lists and tuples keep their kind, length and order;
  - mappings keep their keys;
  - everything else passes through.

  `filter_variants(variants, pairs)` is modelled as `generate_variants`' own superset
  filter.
- `command_run` unpacks `validate_keys(...)` as a pair `(matrix, unknown_keys)`. The
  `validate_keys` in `matrix.py` returns a dictionary, or raises `UnknownKeys`. The run is
  modelled against the pair it expects: the matrix restricted to the required names, and
  the required names the matrix lacks (`ValidateKeysPair`). `ValidateKeysPairAgrees`
  relates the pair to `ValidateKeys`, which models `matrix.py`'s own function.
- `find_required_keys_in_configuration` passes one list holding five sections, and the
  templating engine would parse that list's string form. The model analyses each string in
  each section instead, and the values, not keys, of nested mappings. This differs from the
  code: the names in mapping keys, and names bound by a `{% set %}` in one string and used
  in another, are treated differently.
- `command_run` logs `len(variants)` of a generator, which raises `TypeError` after the
  unreferenced-names warning and before any variant runs. The model treats
  `generate_variants` and `filter_variants` as lazy sequences and carries on past the log
  lines.
- `generate_variants` builds each variant as a frozenset, which raises `TypeError` on a
  list or mapping value. `HashedVariants` models consuming the whole generator this way.
  `FirstKept` models drawing only its first kept variant, as `command_run` does.
- `BaseExecutor.execute` returns nothing whether or not the commands succeed. So
  `run_variant` returns a falsy value and `command_run` stops after the first selected
  variant, logging "build interrupted". `CommandRun` states exactly that, with what the run writes to the streams.
- The test suite expects a display `set_context` method, a `"43) ..."` output format, a
  boolean result from `execute` and a `Configuration` class. None of them exists in the
  code, and none is modelled.
- `normalize` fills in the `ShellExecutor()` default without passing it through
  `parse_executor`. The model represents it as the spec `DefaultExecutor`, naming
  `plix.executors.ShellExecutor` with no options. This depends on the voluptuous
  version, and `setup.py` pins none. Later versions validate inserted defaults, and a
  `ShellExecutor` instance would then fail `parse_executor`'s mapping schema. The model
  follows the behaviour that `tests/test_configuration.py` expects.
- `BaseExecutor.options_schema` is `Schema({})`, which accepts only an empty mapping. It is
  modelled as `EmptySchema`.

## Model

| member | source | states |
|---|---|---|
| Strings.SortedKeys | plix/matrix.py:45-47 | `sorted(keys)` lists every name of the set exactly once, in strictly increasing string order, and nothing else |
| Exceptions.NewUnknownKeys | plix/exceptions.py:6-18 | builds an `UnknownKeys` whose frozen key set holds exactly the given names |
| Exceptions.NewDuplicateKeys | plix/exceptions.py:21-33 | builds a `DuplicateKeys`, a distinct kind, whose frozen key set holds exactly the given names |
| Exceptions.FrozenKeys | plix/exceptions.py:12-18 | two inputs naming the same keys give the same error: repeats and order do not matter |
| Exceptions.Message | plix/exceptions.py:14-16 | the `", "`-joined message contains every key, and is empty for an empty key set |
| Strings.JoinContains | plix/exceptions.py:14-16 | every part of a `", "`-join occurs in the joined text |
| Matrix.FindRequiredKeys | plix/matrix.py:17-29 | the result contains every command's free names, and each of its names is free in some command |
| Matrix.RequiredKeysOf | plix/commands.py:31-39 | a string's required names are exactly its free names; a list, tuple or mapping requires exactly the union of what its items or values require; other leaves, floats included, require none |
| Matrix.RenderObject | plix/commands.py:47 | a string becomes its rendering with the context; list and tuple item i becomes the rendering of item i, kind and length kept; a mapping keeps its keys and each value becomes its rendering; other leaves are unchanged |
| Matrix.RenderPlainIsIdentity | plix/commands.py:47 | a value whose strings all render to themselves is rendered unchanged |
| Matrix.ProductLength | plix/matrix.py:44-46 | the cartesian product has n1 * ... * nk tuples |
| Matrix.ProductMember | plix/matrix.py:44-46 | a tuple is in the product iff it has one entry per dimension, each taken from that dimension's list |
| Matrix.ProductOrder | plix/matrix.py:44-47 | product order: tuple i * (size of the rest) + j is value i of the first dimension followed by tuple j of the rest, so the last dimension varies fastest |
| Matrix.LengthProductZero | plix/matrix.py:44-46 | a dimension with an empty list makes the product size zero |
| Matrix.KeepSupersets | plix/matrix.py:49-50 | keeps exactly the variants that contain every subset pair, never adding any |
| Matrix.KeepSupersetsConcat | plix/matrix.py:44-50 | filtering keeps product order: filtering two runs of variants one after the other is filtering each in turn |
| Matrix.KeepSupersetsFirst | plix/matrix.py:44-50 | the first variant kept is the first one, in product order, that contains every subset pair |
| Matrix.GenerateVariants | plix/matrix.py:32-50 | every yielded variant picks one listed value for each dimension and contains the subset pairs |
| Matrix.ZipIsVariant | plix/matrix.py:47 | zipping the sorted names with a product tuple gives a variant: each pair's value is listed for its name, every name appears once |
| Matrix.ZipSize | plix/matrix.py:47 | zipping distinct names with as many values gives one pair per name |
| Matrix.AllVariantsSound | plix/matrix.py:44-47 | every zipped product tuple is a variant of the matrix |
| Matrix.VariantIsGenerated | plix/matrix.py:44-47 | every variant of the matrix is among the zipped product tuples |
| Matrix.GenerateVariantsMember | plix/matrix.py:41-50 | a set of pairs is yielded iff it picks one listed value per dimension and contains every subset pair |
| Matrix.VariantCount | plix/matrix.py:41-50 | with no subset every product tuple yields its variant, so the count is the product of the dimension lengths |
| Matrix.NoDimensions | plix/matrix.py:44-50 | a matrix without dimensions yields exactly the empty variant for the empty subset, and nothing for any other subset |
| Matrix.EmptyDimension | plix/matrix.py:44-47 | a dimension with no values yields no variant |
| Matrix.ForeignSubsetPair | plix/matrix.py:49 | a subset pair naming no dimension, or a value its dimension does not list, makes the result empty |
| Matrix.VariantSize | plix/matrix.py:45-47 | every yielded variant holds exactly as many pairs as the matrix has dimensions |
| Matrix.TupleVariantSize | plix/matrix.py:45-47 | every zipped product tuple holds one pair per dimension |
| Matrix.HashedVariants | plix/matrix.py:41-50 | consuming the generator either raises the unhashable-type error or gives exactly the generated variants |
| Matrix.ValueInSomeVariant | plix/matrix.py:44-47 | when no dimension is empty, every listed value appears in some variant |
| Matrix.HashedVariantsFails | plix/matrix.py:47 | the TypeError is raised iff no dimension is empty and some dimension lists a list, a mapping, or a tuple holding one |
| Matrix.FirstKept | plix/matrix.py:44-50 | drawing the first variant raises iff some unhashable variant comes before every kept one; otherwise it gives the first kept variant, or nothing when none is kept |
| Matrix.FirstKeptFailsOnlyIfHashedFails | plix/matrix.py:44-50 | drawing the first variant raises only where consuming the whole generator raises |
| Matrix.ValidateKeys | plix/matrix.py:53-72 | raises `UnknownKeys` carrying exactly `keys - matrix names` iff that is non-empty; otherwise returns the matrix restricted to `keys`, values unchanged |
| Displays.ShownConcat | plix/displays.py:67-96 | nothing is buffered or reordered: what a run of calls writes is what its parts write, one after the other |
| Displays.ShownOutputs | plix/displays.py:89-96 | output calls write their bytes unchanged, in order, to the binary side and nothing to the text side |
| Displays.ShownBracket | plix/displays.py:16-96 | one `command()` block writes its start line, then its output chunks, then its exit line, each on its side |
| Displays.CommandOnSharedStream | plix/displays.py:28-44 | on a stream without `buffer` one command shows `"> " + command + "\n"`, its chunks in order, then `"> Exit status: " + code + "\n"` |
| Displays.CommandOnSplitStreams | plix/displays.py:62-65 | with a `buffer` the text stream gets only the two lines and the buffer only the bytes |
| Displays.BracketOpensAndCloses | plix/displays.py:28-44 | a `command()` block starts once and stops once, with the same index, total and command, and the stop gets the code the body left, or None |
| Displays.StreamDisplay.constructor | plix/displays.py:52-65 | the binary stream is the stream's `buffer` when it has one, otherwise the stream itself; no call recorded |
| Displays.StreamDisplay.StartCommand | plix/displays.py:67-76 | appends exactly the start line to the text stream and leaves a distinct binary stream untouched |
| Displays.StreamDisplay.StopCommand | plix/displays.py:78-87 | appends exactly the exit line with the code to the text stream and leaves a distinct binary stream untouched |
| Displays.StreamDisplay.CommandOutput | plix/displays.py:89-96 | appends the bytes unchanged to the binary stream and leaves a distinct text stream untouched |
| Displays.StreamDisplay.Command | plix/displays.py:16-44 | records start, the body's output bound to the index, then stop with the body's code, even when the body raises, and re-raises the body's error; the streams keep what they held and gain exactly what this bracket writes |
| Displays.MirrorsTrans | plix/displays.py:67-96 | what the streams gained since some earlier point is exactly what the calls made since then write |
| Executors.ExecError.Message | plix/executors.py:59-65 | the missing-code error message names the command |
| Executors.Executor.FullName | plix/executors.py:26-37 | the full name is the module name, ".", then the class name |
| Executors.Executor.BodyOf | plix/executors.py:49-65 | the scope of one command: its output is `execute_one`'s, the stop gets its code, None when it raised or gave none, and no code raises the missing-code error |
| Executors.Executor.Execute | plix/executors.py:39-65 | runs the commands in order, each in its own display scope, up to the first that raises or gives no code, and raises that error; the streams keep what they held and gain exactly what those scopes write |
| Executors.RunsUpToFirstFailure | plix/executors.py:47-65 | scope i opens with index i, the total and command i, and closes with command i's code, for each command up to and including the first failure, and for none after it |
| Executors.AllCommandsRun | plix/executors.py:47-65 | when every command gives a code, zero or not, every command gets its scope in order, every stop gets that code, and `execute` returns nothing |
| Executors.StopsAtMissingReturnCode | plix/executors.py:59-65 | a command without a code still closes its scope with None, no later command opens a scope, and the missing-code error naming it is raised |
| Executors.EmptySchema | plix/executors.py:21 | `Schema({})` accepts exactly the empty mapping, unchanged |
| Executors.NewExecutor | plix/executors.py:23-24 | options default to the empty mapping when absent; the executor holds what the options schema returns, or construction fails with its error |
| Executors.BaseExecutorOptions | plix/executors.py:21-24 | a base executor is built iff its options are absent or empty, and then its options are empty |
| Executors.Represent | plix/executors.py:68-81 | an executor with options is represented as a `{name, options}` mapping with its full name; one without as the bare full-name string |
| Configuration.CommandOrCommandList | plix/configuration.py:41-53 | a string becomes a one-element list, a list or tuple is returned unchanged with its kind, anything else is an error |
| Configuration.CommandOrCommandListIdempotent | plix/configuration.py:41-53 | coercing an already coerced value changes nothing |
| Configuration.RSplitDot | plix/configuration.py:72 | `rsplit('.', 1)` fails iff the name has no "."; otherwise the parts rejoin to the name and the second has no "." |
| Configuration.SplitFullName | plix/configuration.py:72 | splitting `module + "." + class` with a dot-free class gives back the module and the class |
| Configuration.ParseExecutor | plix/configuration.py:56-72 | a bare string parses iff it holds a ".", with empty options; a mapping parses iff it holds only `name` and `options`, `name` is a string holding a ".", and `options`, if present, is a mapping (default empty); the name splits at its last "." |
| Configuration.Instantiate | plix/configuration.py:75 | the class is built iff its options schema accepts the parsed options, and it keeps the parsed module and class |
| Configuration.RepresentedExecutorParses | plix/configuration.py:56-75 | an executor's YAML representation, loaded back, parses to its own module, class and options |
| Configuration.ParsedNameIsFullName | plix/configuration.py:72-75 | the executor built from a name has that name as its full name |
| Configuration.CheckSection | plix/configuration.py:85-99 | a command section is accepted iff it is a string, list or tuple, and is coerced to a list or tuple; a mapping section is accepted iff it is a mapping, and is kept; any other name is refused |
| Configuration.CheckExecutor | plix/configuration.py:56-75 | the executor section is accepted iff it parses and the named class's options schema accepts the options; the executor keeps the options the schema returns |
| Configuration.CheckedExecutorIsInstantiated | plix/configuration.py:73-75 | the executor section is accepted exactly when the class is built from the parsed value, with the same module, class and options |
| Configuration.Normalize | plix/configuration.py:78-102 | a mapping is accepted iff every section is valid, the executor's options included, with all invalid sections reported; the executor defaults to `ShellExecutor` with no options, and every other section is checked and coerced |
| Configuration.BothInvalidSectionsReported | plix/configuration.py:85-102 | a list matrix and a mapping script are both reported |
| Configuration.ScriptStringBecomesList | plix/configuration.py:96 | a bare script string becomes a one-command list, with the default executor |
| Configuration.OneInvalidSection | plix/configuration.py:85-102 | a configuration with one invalid section is refused with that section reported |
| Configuration.NamedExecutorParses | plix/configuration.py:66-72 | a `{name, options}` mapping whose name is a module, "." and a dot-free class parses to that module, class and options |
| Configuration.RefusedOptionsInvalidate | plix/configuration.py:73-89 | options the named class's schema refuses make the executor section, and so the configuration, invalid |
| Configuration.ShellExecutorOptionsRefused | plix/executors.py:21-24 | with the base `Schema({})`, `{name: plix.executors.ShellExecutor, options: {a: 1}}` makes the configuration invalid |
| Commands.RequiredKeysInConfiguration | plix/commands.py:24-39 | the required names are exactly those of the global, install, script, after_success and after_failure sections |
| Commands.RequiredKeysIgnoreOtherSections | plix/commands.py:31-39 | the matrix, before_install, before_script, after_script and executor sections have no say in the required names |
| Commands.ValidateKeysPair | plix/commands.py:85 | the reduced matrix is the matrix restricted to the required names, values unchanged; the unknown names are the required names it lacks |
| Commands.ValidateKeysPairAgrees | plix/commands.py:85 | the pair agrees with `validate_keys`: it succeeds iff nothing is unknown, returning the reduced matrix, and otherwise raises with the unknown names |
| Commands.Reconcile | plix/commands.py:82-92 | unknown = required and undeclared, minus globals; duplicate = globals that are dimensions; unreferenced = unrequired dimensions plus globals not among the required-but-undeclared names |
| Commands.UnreferencedAreUnused | plix/commands.py:86-88 | without duplicates, the unreferenced names are exactly the declared names, dimensions or globals, that nothing requires |
| Commands.CheckKeys | plix/commands.py:94-98 | duplicates are raised first, then unknown names, and nothing when both are empty |
| Commands.VariantsUseRequiredDimensions | plix/commands.py:85-90 | every pair of every selected variant names a dimension that is declared and required, with a listed value |
| Commands.VariantContext | plix/commands.py:46 | `dict(variant)` maps each dimension name of the variant to its value, and has no other names |
| Commands.GetContext | plix/commands.py:42-49 | the context has every variant name and every global name; a global's value is rendered against the variant and overrides the variant's value |
| Commands.RenderedScript | plix/commands.py:64 | each script entry is rendered with the context: same length, same order |
| Commands.RunVariant | plix/commands.py:52-70 | runs the rendered script through the executor on the display: the calls and the streams gain exactly that script's scopes, and it results in what `execute` raises or nothing |
| Commands.SelectedVariants | plix/commands.py:89-90 | every selected variant contains the requested pairs and gives each name one value |
| Commands.FirstSelected | plix/commands.py:89-90 | the variant drawn first is the first selected one, with unique names and the requested pairs; nothing is drawn only when none is selected; raising implies consuming the whole generator raises |
| Commands.CommandRun | plix/commands.py:73-133 | name errors are raised before anything runs or is warned about, leaving the streams untouched; otherwise it warns about exactly the unreferenced names; drawing an unhashable variant first raises the TypeError and writes nothing; with no selected variant nothing is written; otherwise the first drawn variant runs, the streams gain exactly its scopes, and the build ends |
| Commands.FirstVariantScopes | plix/commands.py:63-70 | when every command gives a code, scope i opens on script entry i rendered with the variant's context, with the script's length as total |

## Left out

- The templating engine: parsing, the undeclared-variable analysis and rendering are
  parameters (`freeVars`, `renderString`). Render errors are not modelled.
- `ShellExecutor.execute_one`: process spawning, pipes and locale encoding are operating
  system I/O. `executeOne` stands for it and is taken to be a function of the environment
  and the command. The bytes it writes are the chunk list of its result.
- The YAML machinery: `load_from_stream`, `load_from_file`, `yaml.add_multi_representer`
  and `plix/compat.py`. Representation is modelled as a node (`Represent`) and loading as
  `LoadedValue`.
- The dynamic import of the executor class in `parse_executor`. The result is a spec
  naming module and class, plus `Instantiate` with the class's options schema as a
  parameter. Schema internals beyond `Schema({})`, and the exact wording of schema error
  messages, are not modelled.
- `Configuration.Instantiate`: the model assumes the imported class is defined in the
  module it was named from, under the name it was looked up by. Python's
  `getattr(__import__(module), klass)` returns whatever that attribute holds. A class
  re-exported under another module or name has its own `__module__` and `__name__`, and
  `full_name` reports those.
- `Configuration.ParsedNameIsFullName`: holds only under the same assumption. For a
  re-exported class, Python's `full_name` differs from the name that was parsed.
- `Configuration.ParseExecutor`: the model follows Python 3, where YAML strings load as
  `str`. Under Python 2.7, the only version `setup.py` lists, `plix/compat.py` loads every
  YAML string as `unicode`. `Required('name'): str` then refuses every executor named in
  a YAML file.
- Logging and `chromalog` markup in `command_run` and `run_variant`. `plix/main.py`,
  `plix/__init__.py` and `setup.py`.
- `CommandRun`: as written, `plix/commands.py` imports `filter_variants`, which `matrix.py`
  does not define, and `len(variants)` on a generator raises `TypeError` after the warning
  and before any variant runs. The model runs past both, as described above.
- `Matrix.GenerateVariants`: Python treats `1`, `True` and `1.0` as equal, so a frozenset
  can merge such values. In the model `Int`, `Bool` and `Float` are distinct. The
  unhashable-value `TypeError` is modelled by `HashedVariants` and `FirstKept`.
- `Configuration.Normalize`: an `ImportError` or `AttributeError` from importing the
  executor's module and class is not modelled. `schemaOf` stands for the import, and a
  class's options schema is a parameter.
- A configuration section missing at run time (a `KeyError`), non-string script entries
  and non-list matrix values. `RunConfig` holds every section, typed.
- `Exceptions.Message`: the iteration order of the frozen key set is a parameter, so the
  contract fixes what the message contains, not the order of the keys in it.
- `Displays.StreamDisplay.Command`: the block inside `command()` is given as a value. That
  value holds its output chunks, the code it leaves and the exception it raises. The
  block's own code is not run inside the scope.
- `Displays.FormatReturnCode`: the decimal rendering of an integer is defined but no
  property of it is proved.
- Streams are append-only sequences. Flushing, encoding of text and write errors are not
  modelled.
