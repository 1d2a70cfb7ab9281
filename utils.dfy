/** The working-directory and input helpers of aria_core/utils.py. */
module Utils {
  import opened PyValues
  import opened PyPath
  import PyStr
  import LoggerConfig

  const StorageDirName := "local-storage"
  /** Name of the working-directory settings file inside `.aria`. */
  const ContextFileName := "context"

  // ---------------------------------------------------------------------------
  // Working directory

  /** `get_init_path()`: the same walk as the one in logger_config. */
  method GetInitPath(wd: LoggerConfig.WorkDir) returns (r: Option<Path>)
    ensures r == LoggerConfig.NearestInit(wd.cwd, wd.pathExists)
  {
    r := LoggerConfig.GetInitPath(wd);
  }

  /** `is_initialized()`: some directory from the working directory up to the root holds `.aria`. */
  function IsInitialized(wd: LoggerConfig.WorkDir): (b: bool)
    ensures b <==> exists j :: 0 <= j <= |wd.cwd| && LoggerConfig.HasAria(wd.pathExists, wd.cwd[..j])
  {
    LoggerConfig.NearestInit(wd.cwd, wd.pathExists).Some?
  }

  /** The error `raise_uninitialized()` raises. */
  function Uninitialized(cwd: Path): Error
  {
    AriaError("Not initialized: Cannot find " + LoggerConfig.AriaDirName + " in " + Render(cwd)
              + ", or in any of its parent directories",
              ["Run 'aria init -p [blueprint-path]' in this directory"])
  }

  /** `get_context_path()`: `.aria/context` of the nearest initialised directory. */
  method GetContextPath(wd: LoggerConfig.WorkDir) returns (r: Result<Path>)
    ensures var init := LoggerConfig.NearestInit(wd.cwd, wd.pathExists);
      && (init.None? ==> r == Err(Uninitialized(wd.cwd)))
      && (init.Some? && !wd.pathExists(Join(init.value, ContextFileName)) ==>
            r == Err(AriaError("File " + Render(Join(init.value, ContextFileName)) + " does not exist", [])))
      && (init.Some? && wd.pathExists(Join(init.value, ContextFileName)) ==>
            r == Ok(Join(init.value, ContextFileName)))
  {
    var initPath := GetInitPath(wd);
    if initPath.None? {
      return Err(Uninitialized(wd.cwd));
    }
    var contextPath := Join(initPath.value, ContextFileName);
    if !wd.pathExists(contextPath) {
      return Err(AriaError("File " + Render(contextPath) + " does not exist", []));
    }
    return Ok(contextPath);
  }

  /** `get_import_resolver()`: nothing outside an initialised directory;
      else the `local_import_resolver` configuration handed to the DSL
      parser's `create_import_resolver`, which is the parameter
      `createResolver`, its resolver or its error coming back unchanged. */
  function ImportResolverOf<R>(wd: LoggerConfig.WorkDir, readYaml: Path -> Result<Value>,
                               createResolver: Value -> Result<R>): (r: Result<Option<R>>)
    ensures !IsInitialized(wd) ==> r == Ok(None)
    ensures IsInitialized(wd) ==>
      var loaded := readYaml(Join(LoggerConfig.NearestInit(wd.cwd, wd.pathExists).value, LoggerConfig.ConfigFileName));
      && (loaded.Err? ==> r == Err(loaded.error))
      && (loaded.Ok? ==>
            var conf := LoggerConfig.AriaConfig(loaded.value).LocalImportResolver();
            && (conf.Err? ==> r == Err(conf.error))
            && (conf.Ok? && createResolver(conf.value).Err? ==> r == Err(createResolver(conf.value).error))
            && (conf.Ok? && createResolver(conf.value).Ok? ==> r == Ok(Some(createResolver(conf.value).value))))
  {
    if !IsInitialized(wd) then Ok(None)
    else
      match LoggerConfig.ConfigOf(wd, readYaml)
      case Err(e) => Err(e)
      case Ok(config) =>
        match config.LocalImportResolver()
        case Err(e) => Err(e)
        case Ok(conf) =>
          match createResolver(conf)
          case Err(e) => Err(e)
          case Ok(resolver) => Ok(Some(resolver))
  }

  /** `get_import_resolver()` */
  method GetImportResolver<R>(wd: LoggerConfig.WorkDir, readYaml: Path -> Result<Value>,
                              createResolver: Value -> Result<R>)
    returns (r: Result<Option<R>>)
    ensures r == ImportResolverOf(wd, readYaml, createResolver)
  {
    if !IsInitialized(wd) {
      return Ok(None);
    }
    var config := LoggerConfig.LoadAriaConfig(wd, readYaml);
    if config.Err? {
      return Err(config.error);
    }
    var localImportResolver := config.value.LocalImportResolver();
    if localImportResolver.Err? {
      return Err(localImportResolver.error);
    }
    var resolver := createResolver(localImportResolver.value);
    if resolver.Err? {
      return Err(resolver.error);
    }
    return Ok(Some(resolver.value));
  }

  /** `storage_dir(blueprint_id)`: `os.path.join(cwd, 'local-storage',
      blueprint_id)`, where an absolute id replaces everything before it. */
  function StorageDir(cwd: Path, blueprintId: string): (p: string)
    ensures IsAbsolute(p)
    ensures IsAbsolute(blueprintId) ==> p == blueprintId
    ensures !IsAbsolute(blueprintId) ==> p == Render(Join(cwd, StorageDirName)) + "/" + blueprintId
  {
    if IsAbsolute(blueprintId) then blueprintId
    else
      PyStr.JoinLast(Join(Join(cwd, StorageDirName), blueprintId), '/');
      assert Join(Join(cwd, StorageDirName), blueprintId)[..|cwd| + 1] == Join(cwd, StorageDirName);
      Render(Join(Join(cwd, StorageDirName), blueprintId))
  }

  /** Different relative ids give different storage path texts. */
  lemma StorageDirsDistinct(cwd: Path, a: string, b: string)
    requires !IsAbsolute(a) && !IsAbsolute(b) && a != b
    ensures StorageDir(cwd, a) != StorageDir(cwd, b)
  {
    var base := Render(Join(cwd, StorageDirName)) + "/";
    assert StorageDir(cwd, a)[|base|..] == a;
    assert StorageDir(cwd, b)[|base|..] == b;
  }

  /** An absolute id naming another id's storage directory shares it: the
      two ids differ, their storage directories do not. */
  lemma StorageDirAbsoluteShared(cwd: Path, x: string)
    requires !IsAbsolute(x)
    ensures var y := StorageDir(cwd, x);
      y != x && StorageDir(cwd, y) == StorageDir(cwd, x)
  {
  }

  // ---------------------------------------------------------------------------
  // Inline inputs: `key1=value1;key2=value2`

  /** The `;`-separated segments of the stripped input. */
  function Segments(input: string): seq<string>
  {
    PyStr.Split(PyStr.Strip(input), ';')
  }

  /** What one segment contributes: nothing (blank), a key and a value, or the format error. */
  datatype SegmentKind = Blank | Entry(key: string, value: string) | Malformed

  /** A segment is stripped; if not empty, it must split on `=` into exactly two parts. */
  function Classify(segment: string): SegmentKind
  {
    var stripped := PyStr.Strip(segment);
    if stripped == "" then Blank
    else
      var parts := PyStr.Split(stripped, '=');
      if |parts| == 2 then Entry(PyStr.Strip(parts[0]), PyStr.Strip(parts[1])) else Malformed
  }

  function Kinds(segments: seq<string>): (ks: seq<SegmentKind>)
    ensures |ks| == |segments|
    ensures forall i :: 0 <= i < |segments| ==> ks[i] == Classify(segments[i])
  {
    seq(|segments|, i requires 0 <= i < |segments| => Classify(segments[i]))
  }

  /** The tail of the format error's message, which shows the expected layout. */
  const FormatHint := ", the expected format is: key1=value1;key2=value2"

  /** The format error `plain_string_to_dict` raises. Its message is a
      byte-string template, so a unicode input outside ASCII ends in the
      ASCII codec's error instead. */
  function InvalidInputFormat(input: Text): Error
  {
    match FormatField(Some(input.Like(PyStr.Strip(input.s))))
    case Ok(shown) =>
      AriaError("Invalid input format: " + shown + FormatHint, [])
    case Err(e) => e
  }

  /** The format error is an `AriaError` unless the stripped input is unicode
      outside ASCII, which the ASCII codec refuses. */
  lemma InvalidInputFormatKinds(input: Text)
    ensures var stripped := PyStr.Strip(input.s);
      && (input.ByteStr? || PyStr.IsAscii(stripped) ==>
            InvalidInputFormat(input) == AriaError("Invalid input format: " + stripped + FormatHint, []))
      && (input.UniStr? && !PyStr.IsAscii(stripped) ==>
            InvalidInputFormat(input) == UnicodeEncodeError(stripped, PyStr.FirstNonAscii(stripped)))
  {
  }

  /** The dictionary the segments build, one after the other, or `failure`
      when one of them is malformed. */
  function Fold(kinds: seq<SegmentKind>, failure: Error): Result<map<string, string>>
    decreases |kinds|
  {
    if kinds == [] then Ok(map[])
    else
      match Fold(kinds[..|kinds| - 1], failure)
      case Err(e) => Err(e)
      case Ok(m) =>
        match kinds[|kinds| - 1]
        case Blank => Ok(m)
        case Entry(k, v) => Ok(m[k := v])
        case Malformed => Err(failure)
  }

  /** What `plain_string_to_dict(input)` returns or raises. */
  function InlineInputs(input: Text): Result<map<string, string>>
  {
    Fold(Kinds(Segments(input.s)), InvalidInputFormat(input))
  }

  /** Once a prefix is malformed, the rest of the segments do not matter. */
  lemma {:induction false} FoldErrorPersists(kinds: seq<SegmentKind>, n: nat, failure: Error)
    requires n <= |kinds|
    requires Fold(kinds[..n], failure).Err?
    ensures Fold(kinds, failure) == Fold(kinds[..n], failure)
    decreases |kinds| - n
  {
    if n < |kinds| {
      assert kinds[..n + 1][..n] == kinds[..n];
      FoldErrorPersists(kinds, n + 1, failure);
    } else {
      assert kinds[..n] == kinds;
    }
  }

  /** The fold succeeds exactly when no segment is malformed, and fails with `failure` otherwise. */
  lemma {:induction false} FoldSucceeds(kinds: seq<SegmentKind>, failure: Error)
    ensures Fold(kinds, failure).Ok? <==> forall i :: 0 <= i < |kinds| ==> !kinds[i].Malformed?
    ensures Fold(kinds, failure).Err? ==> Fold(kinds, failure).error == failure
    decreases |kinds|
  {
    if kinds != [] {
      var front := kinds[..|kinds| - 1];
      FoldSucceeds(front, failure);
      assert forall i :: 0 <= i < |front| ==> front[i] == kinds[i];
    }
  }

  /** On success, the keys are those of the entries, and each key holds the value of its last entry. */
  lemma {:induction false} FoldEntries(kinds: seq<SegmentKind>, failure: Error)
    requires Fold(kinds, failure).Ok?
    ensures var m := Fold(kinds, failure).value;
      && (forall k :: k in m <==> exists i :: 0 <= i < |kinds| && kinds[i].Entry? && kinds[i].key == k)
      && (forall i :: 0 <= i < |kinds| && kinds[i].Entry?
            && (forall j :: i < j < |kinds| && kinds[j].Entry? ==> kinds[j].key != kinds[i].key)
            ==> m[kinds[i].key] == kinds[i].value)
    decreases |kinds|
  {
    if kinds != [] {
      var n := |kinds| - 1;
      var front := kinds[..n];
      assert forall i :: 0 <= i < n ==> front[i] == kinds[i];
      FoldEntries(front, failure);
      var m := Fold(kinds, failure).value;
      var m0 := Fold(front, failure).value;
      forall k
        ensures k in m <==> exists i :: 0 <= i < |kinds| && kinds[i].Entry? && kinds[i].key == k
      {
        if k in m && !(kinds[n].Entry? && kinds[n].key == k) {
          assert k in m0;
          var i :| 0 <= i < n && front[i].Entry? && front[i].key == k;
          assert kinds[i].Entry? && kinds[i].key == k;
        }
      }
    }
  }

  /** `plain_string_to_dict(input_string)` */
  method PlainStringToDict(input: Text) returns (r: Result<map<string, string>>)
    ensures r == InlineInputs(input)
  {
    var inputString := PyStr.Strip(input.s);
    var inputDict: map<string, string> := map[];
    var mappedInputs := PyStr.Split(inputString, ';');
    ghost var kinds := Kinds(mappedInputs);
    ghost var failure := InvalidInputFormat(input);
    assert InlineInputs(input) == Fold(kinds, failure);
    for i := 0 to |mappedInputs|
      invariant Fold(kinds[..i], failure) == Ok(inputDict)
    {
      FoldStep(kinds, i, failure);
      assert kinds[i] == Classify(mappedInputs[i]);
      var mappedInput := PyStr.Strip(mappedInputs[i]);
      if mappedInput == "" {
        continue;
      }
      var splitMapping := PyStr.Split(mappedInput, '=');
      if |splitMapping| == 2 {
        var key := PyStr.Strip(splitMapping[0]);
        var value := PyStr.Strip(splitMapping[1]);
        inputDict := inputDict[key := value];
      } else {
        FoldErrorPersists(kinds, i + 1, failure);
        return Err(InvalidInputFormat(input));
      }
    }
    assert kinds[..|mappedInputs|] == kinds;
    return Ok(inputDict);
  }

  /** One more segment, after a prefix that succeeded. */
  lemma FoldStep(kinds: seq<SegmentKind>, i: nat, failure: Error)
    requires i < |kinds| && Fold(kinds[..i], failure).Ok?
    ensures var m := Fold(kinds[..i], failure).value;
      Fold(kinds[..i + 1], failure)
        == match kinds[i]
           case Blank => Ok(m)
           case Entry(k, v) => Ok(m[k := v])
           case Malformed => Err(failure)
  {
    assert kinds[..i + 1][..i] == kinds[..i];
  }

  /** `plain_string_to_dict` succeeds exactly when every non-blank segment has
      one `=`; its keys are the stripped keys, and a later duplicate wins. */
  lemma InlineInputsMeaning(input: Text)
    ensures var kinds := Kinds(Segments(input.s));
      && (InlineInputs(input).Ok? <==> forall i :: 0 <= i < |kinds| ==> !kinds[i].Malformed?)
      && (InlineInputs(input).Err? ==> InlineInputs(input).error == InvalidInputFormat(input))
      && (InlineInputs(input).Ok? ==>
            var m := InlineInputs(input).value;
            && (forall k :: k in m <==> exists i :: 0 <= i < |kinds| && kinds[i].Entry? && kinds[i].key == k)
            && (forall i :: 0 <= i < |kinds| && kinds[i].Entry?
                  && (forall j :: i < j < |kinds| && kinds[j].Entry? ==> kinds[j].key != kinds[i].key)
                  ==> m[kinds[i].key] == kinds[i].value))
  {
    var kinds := Kinds(Segments(input.s));
    FoldSucceeds(kinds, InvalidInputFormat(input));
    if InlineInputs(input).Ok? {
      FoldEntries(kinds, InvalidInputFormat(input));
    }
  }

  /** A segment is malformed exactly when, stripped and not empty, it does not have exactly one `=`. */
  lemma ClassifyMalformed(segment: string)
    ensures Classify(segment).Malformed? <==>
      PyStr.Strip(segment) != "" && PyStr.Count(PyStr.Strip(segment), '=') != 1
  {
    PyStr.SplitCount(PyStr.Strip(segment), '=');
  }

  predicate IsStripped(s: string)
  {
    s == [] || (!PyStr.IsSpace(s[0]) && !PyStr.IsSpace(s[|s| - 1]))
  }

  lemma StripEntry(k: string, v: string)
    requires IsStripped(k) && IsStripped(v)
    ensures PyStr.Strip(k + "=" + v) == k + "=" + v
  {
    var s := k + "=" + v;
    assert s[0] == (if k == [] then '=' else k[0]);
    assert s[|s| - 1] == (if v == [] then '=' else v[|v| - 1]);
    PyStr.StripUnchanged(s);
  }

  lemma SplitEntry(k: string, v: string)
    requires '=' !in k && '=' !in v
    ensures PyStr.Split(k + "=" + v, '=') == [k, v]
  {
    PyStr.SplitAtSeparator(k, v, '=');
    PyStr.SplitWithoutSeparator(v, '=');
  }

  /** `key=value` with a stripped key and value and no further `=` classifies back as that entry. */
  lemma ClassifyEntry(k: string, v: string)
    requires IsStripped(k) && IsStripped(v) && '=' !in k && '=' !in v
    ensures Classify(k + "=" + v) == Entry(k, v)
  {
    StripEntry(k, v);
    SplitEntry(k, v);
    PyStr.StripUnchanged(k);
    PyStr.StripUnchanged(v);
  }

  /** `p;q` with stripped ends and no `;` inside the two parts has the segments `p` and `q`. */
  lemma SegmentsOfTwo(p: string, q: string)
    requires p != [] && q != [] && !PyStr.IsSpace(p[0]) && !PyStr.IsSpace(q[|q| - 1])
    requires ';' !in p && ';' !in q
    ensures Segments(p + ";" + q) == [p, q]
  {
    var s := p + ";" + q;
    assert s[0] == p[0] && s[|s| - 1] == q[|q| - 1];
    PyStr.StripUnchanged(s);
    PyStr.SplitAtSeparator(p, q, ';');
    PyStr.SplitWithoutSeparator(q, ';');
  }

  /** Neither `=` nor `;` occurs in `s`. */
  predicate NoDelimiter(s: string)
  {
    '=' !in s && ';' !in s
  }

  lemma EntryShape(k: string, v: string)
    requires NoDelimiter(k) && NoDelimiter(v)
    ensures ';' !in k + "=" + v
    ensures k != [] ==> (k + "=" + v)[0] == k[0]
    ensures v != [] ==> (k + "=" + v)[|k + "=" + v| - 1] == v[|v| - 1]
  {
  }

  lemma FoldOfTwo(k1: string, v1: string, k2: string, v2: string, failure: Error)
    ensures Fold([Entry(k1, v1), Entry(k2, v2)], failure) == Ok(map[k1 := v1][k2 := v2])
  {
    var kinds := [Entry(k1, v1), Entry(k2, v2)];
    assert kinds[..1] == [Entry(k1, v1)];
    assert kinds[..1][..0] == [];
    assert Fold(kinds[..1], failure) == Ok(map[][k1 := v1]);
    assert map[][k1 := v1] == map[k1 := v1];
  }

  /** Two `key=value` segments give both entries, the second winning when
      the keys are the same. */
  lemma InlineInputsTwoEntries(k1: string, v1: string, k2: string, v2: string, input: Text)
    requires IsStripped(k1) && IsStripped(v1) && IsStripped(k2) && IsStripped(v2)
    requires k1 != [] && v2 != []
    requires NoDelimiter(k1) && NoDelimiter(v1) && NoDelimiter(k2) && NoDelimiter(v2)
    requires input.s == (k1 + "=" + v1) + ";" + (k2 + "=" + v2)
    ensures InlineInputs(input) == Ok(map[k1 := v1][k2 := v2])
  {
    var p := k1 + "=" + v1;
    var q := k2 + "=" + v2;
    EntryShape(k1, v1);
    EntryShape(k2, v2);
    SegmentsOfTwo(p, q);
    ClassifyEntry(k1, v1);
    ClassifyEntry(k2, v2);
    assert Kinds([p, q]) == [Entry(k1, v1), Entry(k2, v2)];
    FoldOfTwo(k1, v1, k2, v2, InvalidInputFormat(input));
  }

  /** A trailing `;` adds an empty segment, which is skipped. */
  lemma InlineInputsTrailingSeparator(k: string, v: string, input: Text)
    requires IsStripped(k) && IsStripped(v) && k != []
    requires NoDelimiter(k) && NoDelimiter(v)
    requires input.s == (k + "=" + v) + ";"
    ensures InlineInputs(input) == Ok(map[k := v])
  {
    var p := k + "=" + v;
    var s := p + ";";
    EntryShape(k, v);
    assert s[0] == p[0] && s[|s| - 1] == ';';
    PyStr.StripUnchanged(s);
    assert s == p + [';'] + "";
    PyStr.SplitAtSeparator(p, "", ';');
    assert Segments(s) == [p, ""];
    PyStr.StripUnchanged("");
    ClassifyEntry(k, v);
    var kinds := Kinds([p, ""]);
    assert kinds == [Entry(k, v), Blank];
    assert kinds[..1] == [Entry(k, v)] && kinds[..1][..0] == [];
    var failure := InvalidInputFormat(input);
    assert Fold(kinds[..1], failure) == Ok(map[][k := v]);
    assert map[][k := v] == map[k := v];
    assert Fold(kinds, failure) == Ok(map[k := v]);
  }

  /** A single word, without `=`, is refused whatever its kind. */
  lemma InlineInputsSingleWord(input: Text)
    requires IsStripped(input.s) && input.s != [] && NoDelimiter(input.s)
    ensures InlineInputs(input) == Err(InvalidInputFormat(input))
  {
    var u := input.s;
    PyStr.StripUnchanged(u);
    PyStr.SplitWithoutSeparator(u, ';');
    PyStr.SplitWithoutSeparator(u, '=');
    assert Segments(u) == [u];
    assert Classify(u) == Malformed;
    var kinds := Kinds([u]);
    assert kinds == [Malformed] && kinds[..0] == [];
    var failure := InvalidInputFormat(input);
    assert Fold(kinds[..0], failure) == Ok(map[]);
    assert Fold(kinds, failure) == Err(failure);
  }

  /** A segment without `=` is refused with the format error, which names the input. */
  lemma InlineInputsMissingValue()
    ensures InlineInputs(ByteStr("a"))
      == Err(AriaError("Invalid input format: a" + FormatHint, []))
  {
    InlineInputsSingleWord(ByteStr("a"));
    InvalidInputFormatOfWord();
  }

  /** The format error for the word `a`, written out. */
  lemma InvalidInputFormatOfWord()
    ensures InvalidInputFormat(ByteStr("a"))
      == AriaError("Invalid input format: a" + FormatHint, [])
  {
    PyStr.StripUnchanged("a");
    assert ByteStr("a").Like(PyStr.Strip("a")) == ByteStr("a");
    assert FormatField(Some(ByteStr("a"))) == Ok("a");
    assert "Invalid input format: " + "a" == "Invalid input format: a";
  }

  /** A segment with two `=` is refused. */
  lemma InlineInputsTwoEquals()
    ensures InlineInputs(ByteStr("a=b=c")) == Err(InvalidInputFormat(ByteStr("a=b=c")))
  {
    PyStr.StripUnchanged("a=b=c");
    PyStr.SplitWithoutSeparator("a=b=c", ';');
    PyStr.SplitCount("a=b=c", '=');
    assert PyStr.Count("a=b=c", '=') == 2;
    assert Kinds(["a=b=c"]) == [Malformed];
    assert Kinds(["a=b=c"])[..0] == [];
  }

  // ---------------------------------------------------------------------------
  // Deployment inputs

  /** The outcome of a YAML load: the document, or the `YAMLError`'s text. */
  datatype YamlResult = Loaded(document: Value) | YamlError(description: string)

  /** Reading a path that exists: opening or reading it can fail with an
      `IOError` (a directory, a file without read permission), else its
      content is YAML-loaded. */
  datatype FileLoad = Unreadable(reason: string) | Read(result: YamlResult)

  /** What `inputs_to_dict` consults besides its argument: `os.path.exists`,
      reading and YAML-loading a file, and YAML-loading a string. */
  datatype YamlSource = YamlSource(
    fileExists: string -> bool,
    loadFile: string -> FileLoad,
    load: string -> YamlResult)

  predicate IsText(v: Value)
  {
    v.Str? || v.Unicode?
  }

  function TextOf(v: Value): string
    requires IsText(v)
  {
    if v.Str? then v.s else v.u
  }

  /** A string value as a string of its kind. */
  function AsText(v: Value): (t: Text)
    requires IsText(v)
    ensures t.s == TextOf(v) && (t.UniStr? <==> v.Unicode?)
  {
    if v.Str? then ByteStr(v.s) else UniStr(v.u)
  }

  /** A string of the same kind (`str` or `unicode`) as `like`. */
  function SameKind(like: Value, s: string): (v: Value)
    requires IsText(like)
    ensures IsText(v) && TextOf(v) == s
    ensures v.Str? <==> like.Str?
  {
    if like.Str? then Str(s) else Unicode(s)
  }

  /** The dictionary `plain_string_to_dict` builds from `resource`: its strings are of the resource's kind. */
  function InlineDict(like: Value, m: map<string, string>): (d: Value)
    requires IsText(like)
    ensures d.Dict?
    ensures forall k :: k in m <==> SameKind(like, k) in d.entries
    ensures forall k :: k in m ==> d.entries[SameKind(like, k)] == SameKind(like, m[k])
  {
    Dict(map k | k in m :: SameKind(like, k) := SameKind(like, m[k]))
  }

  /** The error raised for a document that is not a dictionary. Its message
      is a byte-string template, so a unicode resource outside ASCII ends in
      the ASCII codec's error instead. */
  function NotADictionary(resource: Text, resourceName: string): Error
  {
    match FormatField(Some(resource))
    case Ok(shown) =>
      AriaError("Invalid input: " + shown + ". " + resourceName + " must represent a dictionary. Valid "
                + "values can either be a path to a YAML file, a string "
                + "formatted as YAML or a string formatted as "
                + "key1=value1;key2=value2", [])
    case Err(e) => e
  }

  /** The YAML branch of `inputs_to_dict`: a file's content when the path
      exists, the string itself otherwise. An `IOError` of reading the file
      passes through; a YAML error names the resource, and a document that
      is not a dictionary is refused. */
  function FromYaml(resource: Text, resourceName: string, yaml: YamlSource): (r: Result<Option<Value>>)
    ensures yaml.fileExists(resource.s) && yaml.loadFile(resource.s).Unreadable? ==>
      r == Err(IOError(yaml.loadFile(resource.s).reason))
    ensures var loaded := if yaml.fileExists(resource.s) then yaml.loadFile(resource.s) else Read(yaml.load(resource.s));
      loaded.Read? ==>
      var y := loaded.result;
      && (r.Ok? <==> y.Loaded? && y.document.Dict?)
      && (r.Ok? ==> r.value == Some(y.document))
      && (y.YamlError? ==> r == Err(AriaError("'" + resourceName + "' is not a valid YAML. " + y.description, [])))
      && (y.Loaded? && !y.document.Dict? ==> r == Err(NotADictionary(resource, resourceName)))
  {
    var loaded := if yaml.fileExists(resource.s) then yaml.loadFile(resource.s) else Read(yaml.load(resource.s));
    match loaded
    case Unreadable(reason) => Err(IOError(reason))
    case Read(YamlError(description)) =>
      Err(AriaError("'" + resourceName + "' is not a valid YAML. " + description, []))
    case Read(Loaded(document)) =>
      if document.Dict? then Ok(Some(document)) else Err(NotADictionary(resource, resourceName))
  }

  /** `inputs_to_dict(resource, resource_name)` as written: every truthy
      resource is first handed to `plain_string_to_dict`, whose `strip()`
      exists only on strings; only its `AriaError` sends the resource on to
      YAML. */
  function InputsToDictAsWritten(resource: Value, resourceName: string, yaml: YamlSource): (r: Result<Option<Value>>)
    ensures !Truthy(resource) ==> r == Ok(None)
    ensures Truthy(resource) && !IsText(resource) ==> r == Err(NoAttribute(resource, "strip"))
    ensures Truthy(resource) && IsText(resource) ==>
      var inline := InlineInputs(AsText(resource));
      && (inline.Ok? ==> r == Ok(Some(InlineDict(resource, inline.value))))
      && (inline.Err? && inline.error.AriaError? ==> r == FromYaml(AsText(resource), resourceName, yaml))
      && (inline.Err? && !inline.error.AriaError? ==> r == Err(inline.error))
    ensures r.Ok? && r.value.Some? ==> r.value.value.Dict?
  {
    if !Truthy(resource) then Ok(None)
    else if !IsText(resource) then Err(NoAttribute(resource, "strip"))
    else
      match InlineInputs(AsText(resource))
      case Ok(m) => Ok(Some(InlineDict(resource, m)))
      case Err(e) => if e.AriaError? then FromYaml(AsText(resource), resourceName, yaml) else Err(e)
  }

  /** A non-empty dictionary, the form the API documents for `inputs`, is
      rejected by the code as written. */
  lemma InputsAsWrittenRejectDictionary(m: map<Value, Value>, resourceName: string, yaml: YamlSource)
    requires m != map[]
    ensures InputsToDictAsWritten(Dict(m), resourceName, yaml) == Err(NoAttribute(Dict(m), "strip"))
    ensures TypeName(Dict(m)) == "dict"
  {
  }

  /** A malformed unicode resource outside ASCII never reaches YAML: the
      ASCII codec's error, raised while the format error is built, is not
      the `AriaError` that `inputs_to_dict` catches. */
  lemma InputsUnicodeEscape(u: string, resourceName: string, yaml: YamlSource)
    requires InlineInputs(UniStr(u)).Err? && !PyStr.IsAscii(PyStr.Strip(u))
    ensures var stripped := PyStr.Strip(u);
      InputsToDictAsWritten(Unicode(u), resourceName, yaml)
        == Err(UnicodeEncodeError(stripped, PyStr.FirstNonAscii(stripped)))
  {
    InlineInputsMeaning(UniStr(u));
    InvalidInputFormatKinds(UniStr(u));
  }

  /** `u'caf\xe9'` is malformed, and the codec's error is what `plain_string_to_dict` raises. */
  lemma InlineInputsUnicodeMessage()
    ensures InlineInputs(UniStr("caf\U{E9}")) == Err(UnicodeEncodeError("caf\U{E9}", 3))
  {
    var u := "caf\U{E9}";
    InlineInputsSingleWord(UniStr(u));
    InvalidInputFormatKinds(UniStr(u));
    assert PyStr.Strip(u) == u by { PyStr.StripUnchanged(u); }
    assert !PyStr.IsAscii(u) by { assert u[3] as int >= 128; }
    assert PyStr.FirstNonAscii(u) == 3 by {
      assert u[0] as int < 128 && u[1] as int < 128 && u[2] as int < 128;
      assert u[1..][1..][1..] == [u[3]];
    }
  }

  /** `inputs_to_dict` as intended: a dictionary is taken as it is; any other
      resource is parsed inline first, then as YAML. Its errors are the
      core's own, an `IOError` of a path that exists, the ASCII codec's
      error on a unicode resource, or the missing `strip` of a value that is
      neither a string nor a dictionary. */
  function InputsToDict(resource: Value, resourceName: string, yaml: YamlSource): (r: Result<Option<Value>>)
    ensures !Truthy(resource) ==> r == Ok(None)
    ensures Truthy(resource) && resource.Dict? ==> r == Ok(Some(resource))
    ensures Truthy(resource) && IsText(resource) ==>
      var inline := InlineInputs(AsText(resource));
      && (inline.Ok? ==> r == Ok(Some(InlineDict(resource, inline.value))))
      && (inline.Err? && inline.error.AriaError? ==> r == FromYaml(AsText(resource), resourceName, yaml))
      && (inline.Err? && !inline.error.AriaError? ==> r == Err(inline.error))
    ensures r.Ok? && r.value.Some? ==> r.value.value.Dict?
    ensures r.Err? ==>
      || r.error.AriaError?
      || (r.error.IOError? && IsText(resource) && yaml.fileExists(TextOf(resource)))
      || (r.error.UnicodeEncodeError? && resource.Unicode?)
      || (!IsText(resource) && !resource.Dict?)
  {
    if Truthy(resource) && resource.Dict? then Ok(Some(resource))
    else if Truthy(resource) && IsText(resource) then
      InlineInputsMeaning(AsText(resource));
      InputsToDictAsWritten(resource, resourceName, yaml)
    else InputsToDictAsWritten(resource, resourceName, yaml)
  }

  /** The inline form wins over YAML: `k1=v1;k2=v2` gives the dictionary of
      its two entries, whatever a file or a YAML parse would give. */
  lemma InputsInlineFirst(k1: string, v1: string, k2: string, v2: string, yaml: YamlSource)
    requires IsStripped(k1) && IsStripped(v1) && IsStripped(k2) && IsStripped(v2)
    requires k1 != [] && v2 != [] && k1 != k2
    requires NoDelimiter(k1) && NoDelimiter(v1) && NoDelimiter(k2) && NoDelimiter(v2)
    ensures InputsToDict(Str((k1 + "=" + v1) + ";" + (k2 + "=" + v2)), "inputs", yaml)
      == Ok(Some(Dict(map[Str(k1) := Str(v1), Str(k2) := Str(v2)])))
  {
    var s := (k1 + "=" + v1) + ";" + (k2 + "=" + v2);
    InlineInputsTwoEntries(k1, v1, k2, v2, ByteStr(s));
    assert s != [];
    InlineDictOfTwo(Str(s), k1, v1, k2, v2);
  }

  lemma InlineDictOfTwo(like: Value, k1: string, v1: string, k2: string, v2: string)
    requires like.Str? && k1 != k2
    ensures InlineDict(like, map[k1 := v1][k2 := v2]) == Dict(map[Str(k1) := Str(v1), Str(k2) := Str(v2)])
  {
    var m := map[k1 := v1][k2 := v2];
    var d := InlineDict(like, m);
    var e := map[Str(k1) := Str(v1), Str(k2) := Str(v2)];
    assert m.Keys == {k1, k2};
    forall x ensures x in d.entries <==> x in e {
      if x in d.entries {
        var k :| k in m && Str(k) == x;
      }
    }
    assert d.entries.Keys == e.Keys;
  }

  // ---------------------------------------------------------------------------
  // Unicode to UTF-8 byte strings

  /** A key as `decode_dict` leaves it: only unicode keys are encoded. */
  function EncodeKey(k: Value): Value
  {
    if k.Unicode? then Str(PyStr.Utf8(k.u)) else k
  }

  /** `w` is a result `decode_list` / `decode_dict` may produce from `v`:
      every unicode string, at any depth and dictionary keys included, becomes
      its UTF-8 bytes, lists keep their length and order, and every other
      value stays as it is. When two keys encode alike, either value may win. */
  ghost predicate DecodesTo(v: Value, w: Value)
    decreases v
  {
    match v
    case Unicode(u) => w == Str(PyStr.Utf8(u))
    case List(xs) =>
      w.List? && |w.items| == |xs| && forall i :: 0 <= i < |xs| ==> DecodesTo(xs[i], w.items[i])
    case Dict(m) =>
      && w.Dict?
      && w.entries.Keys == (set k | k in m :: EncodeKey(k))
      && forall k' :: k' in w.entries ==> exists k :: k in m && EncodeKey(k) == k' && DecodesTo(m[k], w.entries[k'])
    case _ => w == v
  }

  /** No unicode string anywhere: neither an item, nor a key, nor a value. */
  ghost predicate NoUnicode(v: Value)
  {
    match v
    case Unicode(_) => false
    case List(xs) => forall i :: 0 <= i < |xs| ==> NoUnicode(xs[i])
    case Dict(m) => forall k :: k in m ==> !k.Unicode? && NoUnicode(m[k])
    case _ => true
  }

  /** One item or dictionary value, decoded. */
  method DecodeItem(item: Value) returns (w: Value)
    ensures DecodesTo(item, w)
    decreases item, 1
  {
    match item
    case Unicode(u) =>
      w := Str(PyStr.Utf8(u));
    case List(xs) =>
      var rv := DecodeList(xs);
      w := List(rv);
    case Dict(m) =>
      var rv := DecodeDict(m);
      w := Dict(rv);
    case _ =>
      w := item;
  }

  /** `decode_list(data)` */
  method DecodeList(data: seq<Value>) returns (rv: seq<Value>)
    ensures DecodesTo(List(data), List(rv))
    decreases List(data), 0
  {
    rv := [];
    for i := 0 to |data|
      invariant |rv| == i
      invariant forall j :: 0 <= j < i ==> DecodesTo(data[j], rv[j])
    {
      var item := DecodeItem(data[i]);
      rv := rv + [item];
    }
  }

  /** `decode_dict(data)`: the keys are visited in no particular order. */
  method DecodeDict(data: map<Value, Value>) returns (rv: map<Value, Value>)
    ensures DecodesTo(Dict(data), Dict(rv))
    decreases Dict(data), 0
  {
    rv := map[];
    var todo := data.Keys;
    while todo != {}
      invariant todo <= data.Keys
      invariant rv.Keys == (set k | k in data && k !in todo :: EncodeKey(k))
      invariant forall k' :: k' in rv ==>
        exists k :: k in data && k !in todo && EncodeKey(k) == k' && DecodesTo(data[k], rv[k'])
      decreases todo
    {
      var key :| key in todo;
      var value := DecodeItem(data[key]);
      var oldRv := rv;
      rv := rv[EncodeKey(key) := value];
      todo := todo - {key};
      forall k' | k' in rv
        ensures exists k :: k in data && k !in todo && EncodeKey(k) == k' && DecodesTo(data[k], rv[k'])
      {
        if k' == EncodeKey(key) {
          assert key in data && key !in todo && DecodesTo(data[key], rv[k']);
        } else {
          var k :| k in data && k !in todo + {key} && EncodeKey(k) == k' && DecodesTo(data[k], oldRv[k']);
          assert k !in todo && rv[k'] == oldRv[k'];
        }
      }
    }
  }

  /** Decoding removes every unicode string. */
  lemma {:induction false} DecodedHasNoUnicode(v: Value, w: Value)
    requires DecodesTo(v, w)
    ensures NoUnicode(w)
    decreases v
  {
    match v
    case Unicode(_) =>
    case List(xs) =>
      forall i | 0 <= i < |xs| ensures NoUnicode(w.items[i]) {
        DecodedHasNoUnicode(xs[i], w.items[i]);
      }
    case Dict(m) =>
      forall k' | k' in w.entries ensures !k'.Unicode? && NoUnicode(w.entries[k']) {
        var k :| k in m && EncodeKey(k) == k' && DecodesTo(m[k], w.entries[k']);
        DecodedHasNoUnicode(m[k], w.entries[k']);
      }
    case _ =>
  }

  /** A value without unicode strings decodes to itself. */
  lemma {:induction false} DecodeIdentity(v: Value)
    requires NoUnicode(v)
    ensures DecodesTo(v, v)
    decreases v
  {
    match v
    case List(xs) =>
      forall i | 0 <= i < |xs| ensures DecodesTo(xs[i], xs[i]) {
        DecodeIdentity(xs[i]);
      }
    case Dict(m) =>
      assert m.Keys == (set k | k in m :: EncodeKey(k)) by {
        forall k | k in m ensures EncodeKey(k) == k {}
      }
      forall k' | k' in m ensures exists k :: k in m && EncodeKey(k) == k' && DecodesTo(m[k], m[k']) {
        DecodeIdentity(m[k']);
        assert EncodeKey(k') == k';
      }
    case _ =>
  }

  /** A value without unicode strings decodes to nothing but itself. */
  lemma {:induction false} DecodeUnique(v: Value, w: Value)
    requires NoUnicode(v) && DecodesTo(v, w)
    ensures w == v
    decreases v
  {
    match v
    case List(xs) =>
      forall i | 0 <= i < |xs| ensures w.items[i] == xs[i] {
        DecodeUnique(xs[i], w.items[i]);
      }
      assert w.items == xs;
    case Dict(m) =>
      assert w.entries.Keys == m.Keys by {
        forall k | k in m ensures EncodeKey(k) == k {}
      }
      forall k' | k' in m ensures w.entries[k'] == m[k'] {
        var k :| k in m && EncodeKey(k) == k' && DecodesTo(m[k], w.entries[k']);
        assert k == k';
        DecodeUnique(m[k], w.entries[k']);
      }
      assert w.entries == m;
    case _ =>
  }

  /** Decoding twice changes nothing more: whatever a second pass may give
      from a decoded value is that value. */
  lemma DecodeIdempotent(v: Value, w: Value, w2: Value)
    requires DecodesTo(v, w) && DecodesTo(w, w2)
    ensures w2 == w
  {
    DecodedHasNoUnicode(v, w);
    DecodeUnique(w, w2);
  }
}
