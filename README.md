# aria-core, modelled in Dafny

aria-core is the Python 2 library behind the `aria` command line: it
initialises a TOSCA-style blueprint in a working directory, installs the
blueprint's plugins into a virtualenv, builds the blueprint's local
environment and runs `install` / `uninstall` workflows against it. This
project models the sequential core of that library and proves what it
promises:

- **Working directory and inputs** (`utils.dfy`, `logger_config.dfy`).
  - The upward walk to the nearest `.aria` directory, and the paths built
    from it: `config.yaml`, `context`, `local-storage/<id>`.
  - The `AriaConfig` accessors and their defaults.
  - The inline deployment-inputs parser `key1=value1;key2=value2` and the
    `inputs_to_dict` fallback to a YAML file or a YAML string.
  - The recursive unicode-to-UTF-8 normalisers `decode_list` / `decode_dict`.
- **Plugin resolution and installation** (`blueprint_processor.dfy`,
  `virtualenv_processor.dfy`).
  - The set of install sources a parsed blueprint asks for.
  - The install loop over a virtualenv, modelled as a class with an
    `installed` set and a record of the `install` calls made.
  - The `sys.path` bracket around building the local environment.
- **Workflows and events** (`workflows.dfy`, `logger.dfy`).
  - The site-packages path and the `sys.path` bracket around
    `environment.execute`.
  - The one-line rendering of a workflow event.

Supporting modules model the Python pieces the core relies on:

- `values.dfy`: Python values, the errors that reach callers, `dict.get`,
  and the two kinds of Python 2 string (`Text`: a byte string `str` or a
  `unicode` string) with the ASCII-codec coercions between them that
  `format`, `encode('utf-8')` and `join` perform.
- `pystr.dfy`: `strip`, `split`, `join`, `in`, `upper`, UTF-8 encoding.
- `pypath.dfy`: paths as sequences of components, with the root as the
  fixed point of `dirname`.
- `pysys.dfy`: `sys.path`, a class whose entries are appended to and
  deleted from.

The outside world becomes parameters:

- `os.getcwd` and `os.path.exists` are a `WorkDir`.
- Reading and YAML-loading a file is a function returning a `Result`.
- `os.path.abspath` is a function on paths.
- The DSL parser, its `create_import_resolver`, and the local
  environment's `init_env` and `execute` are function parameters whose
  results, errors included, are passed through.

An exception becomes the `Err` case of a `Result`:

- `AriaError`, the library's own;
- an `AttributeError` or `KeyError` Python itself would raise;
- an external error raised by a collaborator;
- the `UnicodeEncodeError` / `UnicodeDecodeError` of the ASCII codec, when
  a unicode string outside ASCII meets a byte-string template or a byte
  string outside ASCII has to be decoded;
- the `IOError` of opening an inputs file.

The `Event` properties of `logger.py` are the member functions of
`Logger.Event`; their meaning is stated by the lemmas after it.
`Utils.Segments`, `Classify`, `Fold` and `InlineInputs` are the reference
definition `PlainStringToDict` is proved against.
`BlueprintProcessor.Requirements` / `PlanRequirements` play the same part
for the two requirement loops.

## Model

| member | source | states |
|---|---|---|
| PyValues.DictGet | aria_core/logger_config.py:70-93 | `d.get(key, default)` succeeds exactly on dictionaries, giving the stored value or the default; on anything else it is the `AttributeError` for `get` |
| PyValues.Text.Like | aria_core/utils.py:111 | a string made from another (its strip, a part of its split, its upper case) has the given text and the other's kind |
| PyValues.FormatField | aria_core/logger.py:208 | `{0}` in a byte-string template shows None as `None` and a byte string or an ASCII unicode string as it is; it fails exactly on a unicode string outside ASCII, with the `UnicodeEncodeError` at its first such character |
| PyValues.EncodeUtf8 | aria_core/logger.py:169 | `encode('utf-8')` succeeds exactly on unicode strings and ASCII byte strings, gives bytes, leaves ASCII as it is, and on a byte string outside ASCII is the `UnicodeDecodeError` at its first such byte |
| PyValues.FirstUndecodable | aria_core/logger.py:162 | the first item the ASCII codec cannot decode, every earlier one decodable; None exactly when every item decodes |
| PyValues.JoinText | aria_core/logger.py:162 | `sep.join` of byte strings is a byte string; with a unicode item it is unicode when every byte-string item decodes, and otherwise the `UnicodeDecodeError` of the first that does not |
| PyStr.LStrip | aria_core/utils.py:111 | the result is no longer than the input and does not start with whitespace |
| PyStr.RStrip | aria_core/utils.py:111 | the result is no longer than the input and does not end with whitespace |
| PyStr.Strip | aria_core/utils.py:111 | the result is no longer than the input and neither starts nor ends with whitespace |
| PyStr.LStripCut | aria_core/utils.py:111 | `lstrip` returns a suffix of its input and everything it removes is whitespace |
| PyStr.RStripCut | aria_core/utils.py:111 | `rstrip` returns a prefix of its input and everything it removes is whitespace |
| PyStr.StripCut | aria_core/utils.py:111 | `strip` returns a slice of its input with only whitespace before and after it |
| PyStr.StripUnchanged | aria_core/utils.py:115 | a string without whitespace at its ends is its own strip |
| PyStr.Split | aria_core/utils.py:113 | `split` gives at least one piece and no piece holds the separator |
| PyStr.JoinSplit | aria_core/utils.py:113 | joining the pieces of `s.split(sep)` with `sep` gives `s` back |
| PyStr.SplitCount | aria_core/utils.py:117-118 | `s.split(sep)` has one piece more than `s` has separators |
| PyStr.SplitWithoutSeparator | aria_core/utils.py:113 | a string without the separator splits into itself |
| PyStr.SplitAtSeparator | aria_core/utils.py:113 | splitting `a + sep + b`, with no `sep` in `a`, gives `a` followed by the pieces of `b` |
| PyStr.SplitJoin | aria_core/logger.py:159-162 | `split` inverts `join` when no piece holds the separator |
| PyStr.JoinLast | aria_core/logger.py:162 | a join of two or more pieces is the join of all but the last, the separator, and the last |
| PyStr.SplitFirst | aria_core/logger.py:179-182 | `s.split(sep)[0]` is the prefix of `s` up to its first separator |
| PyStr.SplitLast | aria_core/logger.py:188-193 | `s.split(sep)[-1]` is the suffix of `s` after its last separator |
| PyStr.Contains | aria_core/processor/blueprint_processor.py:51 | `sub in s` holds exactly when `sub` occurs in `s` at some index |
| PyStr.UpperChar | aria_core/logger.py:176 | lower-case ASCII letters map to their upper-case letter, every other character to itself |
| PyStr.Upper | aria_core/logger.py:176 | `upper` keeps the length and upper-cases character by character |
| PyStr.Utf8Char | aria_core/utils.py:220-221 | one character encodes to one to four bytes, and to itself exactly when it is ASCII |
| PyStr.Utf8 | aria_core/logger.py:169 | `encode('utf-8')` gives a byte string at least as long as the text |
| PyStr.Utf8Ascii | aria_core/logger.py:169 | encoding leaves ASCII text unchanged |
| PyStr.FirstNonAscii | aria_core/logger.py:169 | the position where the ASCII codec stops: a character outside ASCII with only ASCII before it |
| PyStr.JoinAscii | aria_core/logger.py:162 | ASCII pieces joined with an ASCII separator give ASCII text |
| PyStr.Join | aria_core/logger.py:162 | `sep.join(xs)`: the pieces with the separator between each two; `JoinSplit`, `SplitJoin` and `JoinLast` state what it gives |
| PyPath.Dirname | aria_core/logger_config.py:52-54 | `dirname` drops the last component; the root is the only path that is its own `dirname` |
| PyPath.Join | aria_core/logger_config.py:46-47 | `os.path.join(p, name)` for one relative component: `p` extended by `name`; `NearestInit` states the `.aria` paths it builds |
| PyPath.Render | aria_core/utils.py:73-75 | the text of a path is absolute |
| PySys.IndexOf | aria_core/workflows.py:39 | `s.index(e)` is the first position holding `e` |
| PySys.RemoveFirst | aria_core/workflows.py:39 | `del sys.path[sys.path.index(e)]` (also virtualenv_processor.py:55): one entry shorter, with exactly one copy of `e` gone from the multiset; `RemoveFirstRestores` and `RemoveFirstMovesToEnd` state which copy |
| PySys.SysPath | aria_core/workflows.py:32-39 | `sys.path` itself, one list that `Append` and `DeleteFirst` change in place |
| PySys.RemoveFirstRestores | aria_core/workflows.py:32-39 | appending an entry that was absent and deleting its first occurrence restores the list |
| PySys.IndexOfAppend | aria_core/workflows.py:39 | appending does not move the first occurrence of an entry already present |
| PySys.RemoveFirstMovesToEnd | aria_core/workflows.py:32-39 | when the entry was already present, the bracket moves its earlier copy to the end and keeps the same entries |
| PySys.SysPath.Append | aria_core/workflows.py:32 | `sys.path.append(e)` adds `e` at the end |
| PySys.SysPath.DeleteFirst | aria_core/workflows.py:39 | `del sys.path[sys.path.index(e)]` removes the first occurrence of `e` |
| LoggerConfig.NearestInit | aria_core/logger_config.py:42-54 | the `.aria` of the nearest directory that has one, the start directory first and then each ancestor; None exactly when no directory up to the root has one; the recursion ends because `dirname` shortens the path until the root |
| LoggerConfig.HasAria | aria_core/logger_config.py:46-49 | `os.path.exists(os.path.join(dir, '.aria'))`; `NearestInit` states how the walk uses it |
| LoggerConfig.GetInitPath | aria_core/logger_config.py:42-54 | the `while True` walk returns the nearest `.aria` |
| LoggerConfig.GetConfigurationPath | aria_core/logger_config.py:57-62 | `.aria/config.yaml` of the nearest initialised directory; outside one, the `AttributeError` of joining onto None |
| LoggerConfig.LoggingSection.Filename | aria_core/logger_config.py:70-72 | `filename` is the section's value, None when absent; a section that is not a dictionary fails with the `AttributeError` of `get` |
| LoggerConfig.LoggingSection.Loggers | aria_core/logger_config.py:74-76 | `loggers` is the section's value, `{}` when absent; a section that is not a dictionary fails with the `AttributeError` of `get` |
| LoggerConfig.MakeLoggingSection | aria_core/logger_config.py:67-68 | a falsy `logging` section is replaced by `{}` |
| LoggerConfig.AriaConfig.Logging | aria_core/logger_config.py:82-84 | the `logging` section, `{}` when absent; it fails exactly when the configuration is not a dictionary |
| LoggerConfig.AriaConfig.LocalProviderContext | aria_core/logger_config.py:86-88 | `local_provider_context`, `{}` when absent |
| LoggerConfig.AriaConfig.LocalImportResolver | aria_core/logger_config.py:90-93 | the value under `import_resolver`, `{}` when absent |
| LoggerConfig.LoggingDefaults | aria_core/logger_config.py:66-84 | without a `logging` key the configuration names no log file and no loggers |
| LoggerConfig.ConfigOf | aria_core/logger_config.py:78-80 | the configuration is the loaded `config.yaml` of the nearest `.aria`; a read or load error, or a missing `.aria`, is the error |
| LoggerConfig.LoadAriaConfig | aria_core/logger_config.py:78-80 | `AriaConfig()` locates, reads and loads `config.yaml` as `ConfigOf` describes |
| Utils.GetInitPath | aria_core/utils.py:135-147 | the second copy of the walk returns the nearest `.aria` too |
| Utils.IsInitialized | aria_core/utils.py:131-132 | initialised exactly when some directory from the working directory up to the root has `.aria` |
| Utils.Uninitialized | aria_core/utils.py:52-61 | the `Not initialized` `AriaError` naming `.aria` and the working directory, with `aria init` as its one suggested solution; `GetContextPath` states where it is raised |
| Utils.GetContextPath | aria_core/utils.py:52-77 | outside an initialised directory the `Not initialized` error with its suggested command; a missing `context` file is an `AriaError` naming it; otherwise the path of `.aria/context` |
| Utils.ImportResolverOf | aria_core/utils.py:195-203 | None outside an initialised directory; otherwise the read error of `config.yaml`, or the error of `import_resolver`, or the factory's error, or the resolver `create_import_resolver` makes from the configuration |
| Utils.GetImportResolver | aria_core/utils.py:195-203 | `get_import_resolver()` returns what `ImportResolverOf` describes |
| Utils.StorageDir | aria_core/utils.py:267-270 | `os.path.join(cwd, 'local-storage', id)`: an absolute id on its own, otherwise `<cwd>/local-storage/<id>`; always an absolute path |
| Utils.StorageDirsDistinct | aria_core/utils.py:267-270 | different relative blueprint ids give different storage path texts |
| Utils.StorageDirAbsoluteShared | aria_core/utils.py:267-270 | a relative id and the absolute id spelling out its storage path get the same storage path |
| Utils.Segments | aria_core/utils.py:111-113 | the `;`-pieces of the stripped input; `SegmentsOfTwo` and `InlineInputsMeaning` state what they are |
| Utils.Classify | aria_core/utils.py:115-126 | one segment is blank, an entry of stripped key and value, or malformed; `ClassifyMalformed` and `ClassifyEntry` state when |
| Utils.Fold | aria_core/utils.py:114-128 | the dictionary the segments build in order, or the failure at the first malformed one; `FoldSucceeds`, `FoldEntries` and `FoldErrorPersists` state its meaning |
| Utils.InlineInputs | aria_core/utils.py:110-128 | what `plain_string_to_dict` returns or raises; `InlineInputsMeaning` states it and `PlainStringToDict` is proved to compute it |
| Utils.InvalidInputFormat | aria_core/utils.py:124-126 | the format error naming the stripped input; `InvalidInputFormatKinds` states which error it is |
| Utils.InvalidInputFormatKinds | aria_core/utils.py:124-126 | the format error is the `AriaError` naming the stripped input when that is a byte string or ASCII, and the `UnicodeEncodeError` at its first non-ASCII character when it is unicode outside ASCII |
| Utils.FoldErrorPersists | aria_core/utils.py:122-126 | once a segment is malformed, the ones after it are not looked at |
| Utils.FoldSucceeds | aria_core/utils.py:110-128 | parsing succeeds exactly when no segment is malformed, and otherwise fails with the format error it is given |
| Utils.FoldEntries | aria_core/utils.py:116-121 | on success the keys are exactly the entries' keys and each key holds the value of its last entry |
| Utils.PlainStringToDict | aria_core/utils.py:110-128 | the loop returns what the segment-by-segment definition gives, error included |
| Utils.FoldStep | aria_core/utils.py:114-122 | after a prefix that succeeded, one more segment adds nothing, adds its entry, or fails with the format error |
| Utils.InlineInputsMeaning | aria_core/utils.py:110-128 | inline inputs parse exactly when every non-blank segment has one `=`; then keys are the stripped keys and a later duplicate wins; otherwise it is the format error |
| Utils.ClassifyMalformed | aria_core/utils.py:114-126 | a segment is refused exactly when, stripped and non-empty, it does not hold exactly one `=` |
| Utils.StripEntry | aria_core/utils.py:115 | a `key=value` of stripped parts is its own strip |
| Utils.SplitEntry | aria_core/utils.py:117 | `key=value` without other `=` splits into key and value |
| Utils.ClassifyEntry | aria_core/utils.py:115-121 | such a segment contributes the entry `key: value` |
| Utils.SegmentsOfTwo | aria_core/utils.py:111-113 | `p;q` has the two segments `p` and `q` |
| Utils.EntryShape | aria_core/utils.py:113 | `key=value` starts with the key's first and ends with the value's last character and holds no `;` |
| Utils.FoldOfTwo | aria_core/utils.py:118-121 | two entries build the map of both, the second key winning |
| Utils.InlineInputsTwoEntries | aria_core/utils.py:110-128 | `k1=v1;k2=v2` parses into `{k1: v1, k2: v2}`, with `k2` winning when the keys are equal |
| Utils.InlineInputsTrailingSeparator | aria_core/utils.py:114-116 | a trailing `;` is skipped: `k=v;` parses into `{k: v}` |
| Utils.InlineInputsSingleWord | aria_core/utils.py:118-126 | a stripped word without `=` or `;` is refused with the format error |
| Utils.InlineInputsMissingValue | aria_core/utils.py:118-126 | `a` is refused with `Invalid input format: a, the expected format is: key1=value1;key2=value2` |
| Utils.InvalidInputFormatOfWord | aria_core/utils.py:124-125 | the format error for `a`, written out |
| Utils.InlineInputsTwoEquals | aria_core/utils.py:118-126 | `a=b=c` is refused with the format error |
| Utils.SameKind | aria_core/utils.py:110-121 | a string made from a `str` is a `str` and one made from a `unicode` is a `unicode` |
| Utils.AsText | aria_core/utils.py:85 | a string resource is handed on with its text and its kind |
| Utils.InlineDict | aria_core/utils.py:110-128 | the dictionary of inline inputs holds exactly the parsed keys with their values, as strings of the input's kind |
| Utils.NotADictionary | aria_core/utils.py:103-107 | the error for a document that is not a dictionary: the `AriaError` naming resource and resource name, or the `UnicodeEncodeError` of a unicode resource outside ASCII; `FromYaml` states where it is raised |
| Utils.FromYaml | aria_core/utils.py:87-107 | a path that exists is read and loaded as a file, anything else loaded as a YAML string; an `IOError` of opening or reading the file passes through; a YAML error names the resource; the result is accepted exactly when it is a dictionary, and otherwise refused with the not-a-dictionary error |
| Utils.InputsToDictAsWritten | aria_core/utils.py:80-107 | `inputs_to_dict` as written: None for a falsy resource; a non-string resource fails on `strip`; a string is parsed inline first and as YAML only when that fails with an `AriaError`; any other inline error escapes; a result is always a dictionary |
| Utils.InputsAsWrittenRejectDictionary | aria_core/utils.py:80-86 | a non-empty dictionary is rejected with the `AttributeError` for `strip` on a `dict` |
| Utils.InputsUnicodeEscape | aria_core/utils.py:83-126 | a malformed unicode resource whose strip is outside ASCII fails with the codec's `UnicodeEncodeError` and is never tried as YAML |
| Utils.InlineInputsUnicodeMessage | aria_core/utils.py:124-125 | `u'caf\xe9'` is refused with the `UnicodeEncodeError` at position 3, not the format error |
| Utils.InputsToDict | aria_core/utils.py:80-107 | `inputs_to_dict` as intended: a dictionary is taken as it is; otherwise as written; a result is always a dictionary; an error is an `AriaError`, the `IOError` of a path that exists, the codec error of a unicode resource, or the missing `strip` of a value that is neither a string nor a dictionary |
| Utils.InputsInlineFirst | aria_core/utils.py:80-84 | the inline form wins over YAML, whatever a file or a YAML parse would give |
| Utils.InlineDictOfTwo | aria_core/utils.py:110-128 | the dictionary of two distinct parsed keys is the two-entry dictionary |
| Utils.DecodeItem | aria_core/utils.py:219-225 | one item is decoded: unicode to UTF-8 bytes, lists and dictionaries recursively, anything else unchanged |
| Utils.DecodeList | aria_core/utils.py:217-227 | `decode_list` keeps length and order and decodes every item |
| Utils.DecodeDict | aria_core/utils.py:230-242 | `decode_dict` keeps the keys, encoding unicode ones, and decodes every value |
| Utils.DecodedHasNoUnicode | aria_core/utils.py:217-242 | no unicode string survives decoding, at any depth, keys included |
| Utils.DecodeIdentity | aria_core/utils.py:217-242 | a value without unicode strings decodes to itself |
| Utils.DecodeUnique | aria_core/utils.py:217-242 | a value without unicode strings decodes to nothing but itself |
| Utils.DecodeIdempotent | aria_core/utils.py:217-242 | decoding a decoded value again gives it back unchanged |
| BlueprintProcessor.RequirementsMembership | aria_core/processor/blueprint_processor.py:43-61 | a source is required exactly when some install-flagged plugin gives it |
| BlueprintProcessor.Requirement | aria_core/processor/blueprint_processor.py:47-60 | the source one install-flagged plugin contributes: a URL as it is, otherwise under `<abspath(dirname(blueprint))>/plugins/`; `PluginsToRequirements` states it |
| BlueprintProcessor.Requirements | aria_core/processor/blueprint_processor.py:43-61 | the sources of a list of plugins; `RequirementsMembership` states which they are and `PluginsToRequirements` is proved to compute them |
| BlueprintProcessor.PluginsToRequirements | aria_core/processor/blueprint_processor.py:43-61 | `_plugins_to_requirements` collects, for the install-flagged plugins only, a URL source as it is and any other under `<abspath(dirname(blueprint))>/plugins/` |
| BlueprintProcessor.NodesRequirementsMembership | aria_core/processor/blueprint_processor.py:32-38 | a source is required by the nodes exactly when one of the nodes requires it |
| BlueprintProcessor.NodesRequirements | aria_core/processor/blueprint_processor.py:32-38 | the sources every node's plugins give; `NodesRequirementsMembership` and `NodeOrderIrrelevant` state them |
| BlueprintProcessor.PlanRequirements | aria_core/processor/blueprint_processor.py:20-40 | the requirements of a parsed plan; `PlanRequirementsMembership` states them and `CreateRequirements` returns them |
| BlueprintProcessor.PlanRequirementsMembership | aria_core/processor/blueprint_processor.py:20-40 | the requirements are the union of the deployment-level plugins' and every node's plugins' sources, and nothing else |
| BlueprintProcessor.NodeOrderIrrelevant | aria_core/processor/blueprint_processor.py:32-38 | reordering the nodes does not change the requirements |
| BlueprintProcessor.NodesInclude | aria_core/processor/blueprint_processor.py:32-38 | a reordering of the nodes requires every source the nodes require |
| BlueprintProcessor.CreateRequirements | aria_core/processor/blueprint_processor.py:20-40 | `create_requirements` propagates a parse error and otherwise returns the plan's requirements |
| VirtualenvProcessor.SitePackages | aria_core/processor/virtualenv_processor.py:81 | the venv path extended by exactly `lib`, the interpreter and `site-packages` |
| VirtualenvProcessor.VirtualEnv.OpenOrCreate | aria_core/processor/virtualenv_processor.py:69-71 | opening either fails with the environment's creation error or opens it; nothing is installed |
| VirtualenvProcessor.VirtualEnv.IsInstalled | aria_core/processor/virtualenv_processor.py:73 | `venv.is_installed(req)` is membership in the installed set; `InstallMissing` states that installed requirements get no call |
| VirtualenvProcessor.VirtualEnv.Install | aria_core/processor/virtualenv_processor.py:74 | every call is recorded; a failing requirement installs nothing, any other is added to the installed set |
| VirtualenvProcessor.InstallStep | aria_core/processor/virtualenv_processor.py:72-75 | installing a missing requirement keeps the loop's calls distinct, failure-free and installed |
| VirtualenvProcessor.SkipStep | aria_core/processor/virtualenv_processor.py:73 | an installed requirement gets no call |
| VirtualenvProcessor.FailureOutcome | aria_core/processor/virtualenv_processor.py:72-79 | the failing call is the last one, the earlier ones succeeded and their requirements stay installed |
| VirtualenvProcessor.SuccessOutcome | aria_core/processor/virtualenv_processor.py:72-75 | a loop without failure installed every missing requirement, and no missing requirement would have failed |
| VirtualenvProcessor.InstallMissing | aria_core/processor/virtualenv_processor.py:72-79 | each missing requirement gets exactly one `install` call and installed ones none; the installed set only grows; without error all requirements are installed; the first failure stops the loop and is not rolled back |
| VirtualenvProcessor.InstallBlueprintPlugins | aria_core/processor/virtualenv_processor.py:59-83 | requirements are computed first; without `install_plugins` or requirements nothing is opened and the result is None; otherwise it succeeds exactly when no creation or missing-requirement install fails, returns `<venv>/lib/<python>/site-packages`, and wraps any failure as `AriaError("Unable to install dependencies. ...")` |
| VirtualenvProcessor.EntryFor | aria_core/processor/virtualenv_processor.py:46 | the `sys.path` entry is the site-packages path, or None when no plugins were installed; `BuildEnvironment` states where it goes |
| VirtualenvProcessor.ContextAndInputs | aria_core/processor/virtualenv_processor.py:43-45 | the provider context, then the inputs normalised by `inputs_to_dict` as written, each error passing through; `BuildEnvironment` states that both are read before `sys.path` changes |
| VirtualenvProcessor.ContextAndInputsRejectDictionary | aria_core/processor/virtualenv_processor.py:43-45 | with the configuration and provider context read, a non-empty dictionary of inputs fails with the `AttributeError` of `strip`, before `sys.path` changes and without `init_env` |
| VirtualenvProcessor.BuildEnvironment | aria_core/processor/virtualenv_processor.py:41-56 | provider context and inputs, normalised as written, are read before `sys.path` changes, and their errors leave it alone; the entry is appended before `init_env`, the import resolver is made next, by the factory from the `import_resolver` configuration, and a factory error leaves the entry on `sys.path`; the `init_env` call gets the normalised inputs, the ignored modules, the provider context and the resolver the factory made; its first occurrence is removed after success, restoring `sys.path` when it was absent; a failing `init_env` leaves it there |
| VirtualenvProcessor.InitializeBlueprint | aria_core/processor/virtualenv_processor.py:32-56 | plugins are installed first: without `install_plugins` or requirements the virtualenv is untouched; otherwise each missing requirement gets one `install` call, in distinct calls, all are installed when nothing fails, and a failure stops at its call with the earlier ones installed, wrapped as the `AriaError`; an installation failure leaves `sys.path` alone; then the environment is built as `BuildEnvironment` states, with the site-packages path, or None, as the entry; an error of the inputs leaves `sys.path` alone and an error of the import resolver factory leaves that entry there |
| Workflows.VenvDirName | aria_core/workflows.py:28 | `.venv_<blueprint_id>`: `.venv_None` without an id, the id as it is when it is a byte string or ASCII, and the `UnicodeEncodeError` at its first non-ASCII character otherwise |
| Workflows.VenvSitePackages | aria_core/workflows.py:27-31 | the path extends the working directory by exactly the venv directory, `lib`, the interpreter and `site-packages` |
| Workflows.GenericExecute | aria_core/workflows.py:19-40 | a blueprint id that cannot be formatted fails before `sys.path` changes; otherwise `execute` receives the arguments unchanged and its result or error is returned unchanged; the path is appended before it and its first occurrence removed after a normal return, restoring `sys.path` when it was absent; an error, or no environment at all, leaves it there |
| Workflows.ExecuteWithPath | aria_core/workflows.py:32-40 | the `sys.path` bracket around `execute` for a given path: appended before, its first occurrence deleted after a normal return, left there on an error |
| Workflows.Install | aria_core/workflows.py:43-53 | the `install` workflow, with no blueprint id and `python2.7`, other arguments forwarded; the entry stays on failure, and `sys.path` is restored exactly after success when the entry was absent |
| Workflows.Uninstall | aria_core/workflows.py:56-66 | the `uninstall` workflow, with no blueprint id and `python2.7`, other arguments forwarded; the entry stays on failure, and `sys.path` is restored exactly after success when the entry was absent |
| Workflows.InstallLooksInVenvNone | aria_core/workflows.py:19-31 | without a blueprint id the path segment is `.venv_None` |
| Workflows.VenvPathsDistinct | aria_core/workflows.py:27-31 | different blueprint ids give different site-packages paths |
| Logger.Present | aria_core/logger.py:159-161 | the present values are exactly the values that are not None: each of them is in the result, the result holds nothing else, and it is no longer than the input |
| Logger.PresentNone | aria_core/logger.py:159-161 | nothing is present exactly when every value is None |
| Logger.PresentAppend | aria_core/logger.py:159-161 | the filter keeps order: one more value adds itself at the end when it is there, and nothing otherwise |
| Logger.Event.Operation | aria_core/logger.py:187-192 | `operation`; `OperationIsLastPart` states it |
| Logger.Event.Ctx | aria_core/logger.py:188 | `self._event['context']` (also line 208): the context when present, otherwise `KeyError('context')` |
| Logger.Event.DeploymentId | aria_core/logger.py:206-208 | `deployment_id`; `DeploymentIdShown` states it |
| Logger.Event.IsLogMessage | aria_core/logger.py:214-216 | `is_log_message`, the `KeyError` for `type` when there is none; `IndicatorIsLogIffMarker` states when it holds |
| Logger.Event.EventTypeIndicator | aria_core/logger.py:183-185 | `event_type_indicator`; `IndicatorIsLogIffMarker` states it |
| Logger.Event.LogLevel | aria_core/logger.py:174-176 | `log_level`; `LogLevelUpper` states it |
| Logger.Event.RawTimestamp | aria_core/logger.py:180-181 | `@timestamp` when present and not empty, else `timestamp`; `TimestampIsFirstPart` states it |
| Logger.Event.Timestamp | aria_core/logger.py:178-181 | `timestamp`; `TimestampIsFirstPart` states it |
| Logger.Event.Text | aria_core/logger.py:167-172 | `text`; `TextLevelPrefix` states it |
| Logger.Event.OperationInfo | aria_core/logger.py:144-165 | `operation_info`; `RelationshipInfo`, `NodeInfoEmpty`, `NodeInfoSplitsBack` and `NodeInfoUnicode` state it |
| Logger.Event.Render | aria_core/logger.py:128-142 | `str(event)`; `RenderLayout` and `RenderErrors` state it |
| Logger.RelationshipText | aria_core/logger.py:156-157 | `source->target|operation`, its fields formatted left to right; `RelationshipInfo` states it |
| Logger.Bracketed | aria_core/logger.py:163-164 | an error or an empty info passes through; a non-empty one becomes the byte string `[info]`, or the `UnicodeEncodeError` of a unicode info outside ASCII; a result is empty or a byte string |
| Logger.Line | aria_core/logger.py:135-142 | for an info that is empty or a byte string: timestamp, indicator and `<deployment>` each followed by a space, the info and a space only when there is one, then the text; a unicode timestamp outside ASCII is the `UnicodeEncodeError` |
| Logger.OperationIsLastPart | aria_core/logger.py:188-193 | `operation` is the text after the last `.` of the context's operation, and None exactly when it has none |
| Logger.DeploymentIdShown | aria_core/logger.py:206-208 | `<id>`: the `KeyError` for a missing context or id; otherwise it succeeds exactly when the id is a byte string or ASCII, and is the `UnicodeEncodeError` of the id otherwise |
| Logger.LogLevelUpper | aria_core/logger.py:174-176 | the level of the level's kind, of its length, with its ASCII lower-case letters upper-cased; the `KeyError` for `level` exactly when there is none |
| Logger.TimestampIsFirstPart | aria_core/logger.py:178-181 | the timestamp is `@timestamp` when present and not empty, else `timestamp`, cut at its first `.` and of the same kind; only the absence of both is the `KeyError` for `timestamp` |
| Logger.IndicatorIsLogIffMarker | aria_core/logger.py:184-186 | the indicator is `LOG` exactly when `aria_log` occurs in the type, and `CFY` otherwise |
| Logger.TextLevelPrefix | aria_core/logger.py:167-176 | the message is encoded first, so a byte string outside ASCII is the `UnicodeDecodeError` before anything else; then the `KeyError` for `type`; a non-log message is its UTF-8 bytes, an ASCII one as it is; a log message gets the upper-cased level and `: ` in front, the `KeyError` for `level` without one, and the `UnicodeEncodeError` of a unicode level outside ASCII |
| Logger.RelationshipInfo | aria_core/logger.py:156-164 | with a source the info block is `[source->target\|operation]`, None printing as `None`; the first of the three that is unicode outside ASCII gives its `UnicodeEncodeError` |
| Logger.JoinEmpty | aria_core/logger.py:162-164 | a join is empty exactly for no pieces or one empty piece |
| Logger.NodeInfoEmpty | aria_core/logger.py:159-165 | without a source, the info block is empty exactly when nothing or only an empty string is present, in particular when all are None |
| Logger.NodeInfoSplitsBack | aria_core/logger.py:159-166 | without a source, when the values are all byte strings or all ASCII and hold no `.`, the info block is a bracketed byte string that splits back into node, operation, group, policy and trigger, in that order, as far as present |
| Logger.NodeInfoUnicode | aria_core/logger.py:159-164 | without a source, a unicode value makes the join unicode: then a byte-string value outside ASCII gives the `UnicodeDecodeError` of the first such value, and a joined text outside ASCII gives the `UnicodeEncodeError` of the brackets |
| Logger.RenderLayout | aria_core/logger.py:128-143 | `str(event)` is timestamp, indicator and `<deployment_id>`, each followed by a space, then the info block and a space only when there is one, then the text |
| Logger.RenderErrors | aria_core/logger.py:128-142 | the parts are read in the order of the source: the deployment id's error, or a missing context, comes first; then the timestamp's; then a missing `type` is `KeyError('type')`; then the text's error; then the operation info's; once every part is there, a unicode timestamp outside ASCII is the `UnicodeEncodeError` and anything else renders |

## Left out

- File and YAML I/O is a parameter. The content of `config.yaml`, the
  existence of paths, reading an inputs file and YAML loading are
  functions, so reading the same file twice gives the same result. Opening
  or reading an inputs file that exists can fail with an `IOError`
  (`Utils.FileLoad.Unreadable`), which passes through `inputs_to_dict`.
  The read error of `config.yaml` is whatever the reading function
  returns.
- A YAML error is given by its description, the `str(e)` of the source; a
  description that is itself unicode outside ASCII is not modelled.
- Requirement sources, paths, resource names, workflow ids and `sys.path`
  entries are plain strings without the `str`/`unicode` kind. The ASCII
  codec's errors are modelled for the event fields, the inline and YAML
  inputs and the blueprint id of `generic_execute`. They are not modelled
  for the `LOG` messages and for `str(ex)` of the install loop
  (`virtualenv_processor.py` lines 75-77).
- PyStr.Upper: upper-cases the ASCII letters only; of a unicode level
  outside ASCII, the letters outside ASCII are kept as they are, where
  Python would upper-case them too.
- Logger.LogLevelUpper: states the level upper-cased in its ASCII letters
  only, for the same reason as `PyStr.Upper`.
- Utils.InputsToDict: no longer promises that every error on a string is
  an `AriaError`. An `IOError` of an inputs file that exists, and the
  codec's `UnicodeEncodeError` of a malformed unicode resource outside
  ASCII, escape as they do in the source.
- The logging set-up of `logger.py` (`configure_loggers`,
  `_configure_defaults`, `_configure_from_file`, `get_events_logger`) and
  the module-level loggers are not modelled; the `LOG` calls of the install
  loop are omitted because they change nothing the model tracks.
- `api.py` and `blueprints.py` are not part of this model: they only
  delegate, and their calls pass a `storage_path` the called functions
  do not take.
- `utils.venv_path` is not part of this model; the virtualenv it names is
  passed in as `VirtualenvProcessor.VirtualEnv`.
- VirtualenvProcessor.InstallBlueprintPlugins: does not model
  `blueprint_id`, `storage_path` or `default_python_interpreter`, because
  they only choose which virtualenv is opened, and that choice is the
  `venv` argument (its `path` and `python`).
- virtualenvapi itself is not modelled: `open_or_create` and `install`
  fail as the environment's `createFailure` and `failures` say, and
  `is_installed` is membership in `installed`.
- `create_import_resolver` of the DSL parser is a function parameter from
  the `import_resolver` configuration to a resolver or an error; what
  resolver it makes is not modelled.
- `init_env`, `execute`, `create_import_resolver` and the DSL parser are
  function parameters; their results and errors pass through unchanged.
- PyStr.Strip: recognises only the ASCII whitespace characters of
  Python 2's byte-string `strip`, not unicode whitespace.
- BlueprintProcessor.Requirement: `os.path.join` is modelled only for the
  case the code meets, an absolute source replacing what comes before it;
  `abspath` is a function on normalised component paths.
- Python 2 treats a `str` key and a `unicode` key with the same ASCII text
  as the same dictionary key; in the model they are different keys, so
  `Utils.DecodesTo` allows either value when two keys encode alike.
- Utils.InputsAsWrittenRejectDictionary: states the error through the
  message builder `NoAttribute` rather than as one literal string.
- `get_configuration_path` of `utils.py` (lines 150-155) is the same as the
  one of `logger_config.py` and is modelled once, as
  `LoggerConfig.GetConfigurationPath`.
- BlueprintProcessor.Plugin, BlueprintProcessor.Node and
  BlueprintProcessor.Plan: the parser's plan is taken as well formed. The
  `KeyError` of a plan without `nodes` or the deployment plugins, a node
  without `plugins`, or a plugin without `install` or `source`
  (blueprint_processor.py lines 25-38 and 47-51) is not modelled.
- Utils.StorageDir: `os.path.join` is modelled for a relative or an
  absolute blueprint id; the path is a text, so texts such as `x` and `./x`
  that name one directory are different paths in the model.
- Utils.StorageDirsDistinct: promises different storage paths only for
  different relative ids, compared as texts, not as normalised directories;
  an absolute id can name the storage path of a relative one
  (`Utils.StorageDirAbsoluteShared`).
- Workflows.VenvSitePackages and VirtualenvProcessor.SitePackages: the
  interpreter is one relative path component; an absolute interpreter
  would replace what comes before it in `os.path.join`. The callers pass
  `python2.7` (workflows.py:26) and the `python` of the virtualenv.
- Logger.Event: the fields read with `[...]` or `get` are strings whenever
  they are present. A field present with the value None, or with a value
  that is not a string, is not modelled: `{'deployment_id': None}` renders
  `<None>` (logger.py:208), a None message text, level or timestamp raises
  `AttributeError` (169, 176, 181), and a None `type` raises `TypeError`
  (216).
- There is no concurrency: `sys.path` is one sequence changed step by step.

## Findings

| source | as written | input that shows it | evidently intended | confidence | as-written member | corrected member |
|---|---|---|---|---|---|---|
| aria_core/utils.py:80-86 | every truthy resource is first handed to `plain_string_to_dict`, which calls `strip()` on it; only `AriaError` is caught, so the `AttributeError` of a dictionary escapes | `inputs={'a': 1}`, the form `aria_core/api.py:49-50` documents for `inputs` | a dictionary is taken as it is | not executed | Utils.InputsToDictAsWritten (shown by Utils.InputsAsWrittenRejectDictionary; `initialize_blueprint` uses it, see VirtualenvProcessor.ContextAndInputsRejectDictionary) | Utils.InputsToDict |
