/**
 * webpack-plain: path helpers (src/utils/index.ts) and the option set-up
 * of `webpack(options)` (src/index.ts). The file system is a set of the
 * paths that exist; the compiler itself is not part of this model.
 */
module WebpackUtils {
  import opened Wrappers

  /** `filePath.replace(/\\/g, "/")` */
  function ToUnixPath(filePath: string): (r: string)
    ensures |r| == |filePath|
    ensures '\\' !in r
    ensures forall i :: 0 <= i < |r| ==> (filePath[i] == '\\' ==> r[i] == '/')
    ensures forall i :: 0 <= i < |r| ==> (filePath[i] != '\\' ==> r[i] == filePath[i])
  {
    if |filePath| == 0 then ""
    else [if filePath[0] == '\\' then '/' else filePath[0]] + ToUnixPath(filePath[1..])
  }

  /** Converting twice is converting once. */
  lemma ToUnixPathIdempotent(filePath: string)
    ensures ToUnixPath(ToUnixPath(filePath)) == ToUnixPath(filePath)
  {
  }

  /** A path without backslashes is already a unix path. */
  lemma ToUnixPathKeepsUnixPaths(filePath: string)
    requires '\\' !in filePath
    ensures ToUnixPath(filePath) == filePath
  {
  }

  /** The default of the `extensions` parameter. */
  const DefaultExtensions: seq<string> := [".js", ".jsx", ".json"]

  /** An omitted `extensions` argument takes the default list. */
  function ExtensionsOrDefault(extensions: Option<seq<string>>): seq<string>
  {
    if extensions.None? then DefaultExtensions else extensions.value
  }

  /** No extension before index `i` gives an existing path. */
  predicate FirstAt(modulePath: string, extensions: seq<string>, existing: set<string>, i: nat)
    requires i <= |extensions|
  {
    forall j :: 0 <= j < i ==> modulePath + extensions[j] !in existing
  }

  /** The first path among `modulePath + ext`, for `ext` in order, that exists. */
  function FirstWithExtension(modulePath: string, extensions: seq<string>, existing: set<string>): (r: Option<string>)
    ensures r.Some? ==> r.value in existing
    ensures r.None? <==> forall i :: 0 <= i < |extensions| ==> modulePath + extensions[i] !in existing
    ensures r.Some? ==>
      exists i :: 0 <= i < |extensions| && r.value == modulePath + extensions[i] && FirstAt(modulePath, extensions, existing, i)
  {
    if |extensions| == 0 then None
    else if modulePath + extensions[0] in existing then Some(modulePath + extensions[0])
    else
      var r := FirstWithExtension(modulePath, extensions[1..], existing);
      assert forall i :: 1 <= i < |extensions| ==> extensions[1..][i - 1] == extensions[i];
      if r.Some? then
        var i :| 0 <= i < |extensions[1..]| && r.value == modulePath + extensions[1..][i]
          && FirstAt(modulePath, extensions[1..], existing, i);
        assert r.value == modulePath + extensions[i + 1];
        r
      else r
  }

  /** The error `tryExtensions` throws when nothing exists. */
  function NotFound(originalModulePath: string, moduleContext: string): string
  {
    "Module not found: Error: Can't " + originalModulePath + " resolve in " + moduleContext
  }

  /**
   * `tryExtensions(modulePath, extensions, originalModulePath, moduleContext)`:
   * `modulePath` itself if it exists, else the first existing
   * `modulePath + ext` in list order, else a "Module not found" error.
   * `fs.existsSync` is membership in `existing`.
   */
  method TryExtensions(modulePath: string, extensions: seq<string>, originalModulePath: string,
                       moduleContext: string, existing: set<string>) returns (r: Result<string>)
    ensures modulePath in existing ==> r == Ok(modulePath)
    ensures modulePath !in existing ==>
      var found := FirstWithExtension(modulePath, extensions, existing);
      r == if found.Some? then Ok(found.value) else Throw(NotFound(originalModulePath, moduleContext))
  {
    var ans := modulePath;
    var exist := modulePath in existing;
    var index := 0;
    while !exist && index < |extensions|
      invariant 0 <= index <= |extensions|
      invariant exist ==> ans in existing
      invariant modulePath in existing ==> exist && ans == modulePath
      invariant modulePath !in existing ==>
        if exist then index > 0 && Some(ans) == FirstWithExtension(modulePath, extensions, existing)
        else forall j :: 0 <= j < index ==> modulePath + extensions[j] !in existing
      decreases |extensions| - index
    {
      ans := modulePath + extensions[index];
      index := index + 1;
      exist := ans in existing;
    }
    if exist {
      r := Ok(ans);
    } else {
      r := Throw(NotFound(originalModulePath, moduleContext));
    }
  }

  /** With the default list, an existing `m.jsx` is found when neither `m` nor `m.js` exists. */
  lemma DefaultListOrder(m: string)
    ensures FirstWithExtension(m, DefaultExtensions, {m + ".jsx", m + ".json"}) == Some(m + ".jsx")
  {
    assert m + ".js" != m + ".jsx" && m + ".js" != m + ".json" by {
      assert |m + ".js"| != |m + ".jsx"|;
      assert |m + ".js"| != |m + ".json"|;
    }
    assert DefaultExtensions[1..] == [".jsx", ".json"];
  }
}

module WebpackCli {
  import opened JsValues

  /** The pieces of `item.split("=")`. */
  function Split(s: string, sep: char): (parts: seq<string>)
    ensures |parts| >= 1
    ensures sep !in s ==> parts == [s]
    decreases |s|
  {
    if |s| == 0 then [""]
    else
      var rest := Split(s[1..], sep);
      assert [s[0]] + s[1..] == s;
      if s[0] == sep then [""] + rest else [[s[0]] + rest[0]] + rest[1..]
  }

  /** Splitting at the first `sep`: what precedes it and what follows. */
  lemma {:induction false} SplitAtFirst(a: string, sep: char, b: string)
    requires sep !in a
    ensures Split(a + [sep] + b, sep) == [a] + Split(b, sep)
    decreases |a|
  {
    if |a| == 0 {
      assert (a + [sep] + b)[1..] == b;
    } else {
      SplitAtFirst(a[1..], sep, b);
      assert (a + [sep] + b)[1..] == a[1..] + [sep] + b;
      assert [a[0]] + a[1..] == a;
    }
  }

  /** `s.slice(2)` */
  function Slice2(s: string): string
  {
    if |s| <= 2 then "" else s[2..]
  }

  /** `const [key, value] = item.split("=")`: the option name `key.slice(2)` and its value (undefined when there is no "="). */
  function ParseArg(item: string): (string, Value)
  {
    var parts := Split(item, '=');
    (Slice2(parts[0]), if |parts| > 1 then Str(parts[1]) else Undefined)
  }

  /** `--k=v` sets `k` to `v`; `--k=v=w` sets `k` to `v` only. */
  lemma ParseArgExample(k: string, v: string, w: string)
    requires '=' !in k && '=' !in v
    ensures ParseArg("--" + k + "=" + v) == (k, Str(v))
    ensures ParseArg("--" + k + "=" + v + "=" + w) == (k, Str(v))
  {
    assert '=' !in "--" + k;
    SplitAtFirst("--" + k, '=', v);
    SplitAtFirst(v, '=', w);
    SplitAtFirst("--" + k, '=', v + "=" + w);
    assert "--" + k + "=" + v == ("--" + k) + ['='] + v;
    assert "--" + k + "=" + v + "=" + w == ("--" + k) + ['='] + (v + ['='] + w);
    assert ("--" + k)[2..] == k;
  }

  /** The starting value of the reduce: the default entry and output. `distPath` is `path.join(process.cwd(), "dist")`. */
  function Defaults(distPath: Value): map<string, Value>
  {
    map["entry" := Str("./src/index.js"),
        "output" := Rec(map["filename" := Str("bundle.js"), "path" := distPath])]
  }

  /** The reduce over the arguments, as a value. */
  function FoldArgs(acc: map<string, Value>, args: seq<string>): map<string, Value>
    decreases |args|
  {
    if |args| == 0 then acc
    else
      var kv := ParseArg(args[|args| - 1]);
      FoldArgs(acc, args[..|args| - 1])[kv.0 := kv.1]
  }

  /** `process.argv.slice(2)` */
  function UserArgs(argv: seq<string>): seq<string>
  {
    if |argv| <= 2 then [] else argv[2..]
  }

  /** The reduce of `webpack(options)`: each argument writes its option into the accumulator. */
  method ParseShellConfig(argv: seq<string>, distPath: Value) returns (shellConfig: map<string, Value>)
    ensures shellConfig == FoldArgs(Defaults(distPath), UserArgs(argv))
  {
    var args := UserArgs(argv);
    shellConfig := Defaults(distPath);
    var i := 0;
    while i < |args|
      invariant 0 <= i <= |args|
      invariant shellConfig == FoldArgs(Defaults(distPath), args[..i])
      decreases |args| - i
    {
      var kv := ParseArg(args[i]);
      assert args[..i + 1][..i] == args[..i];
      shellConfig := shellConfig[kv.0 := kv.1];
      i := i + 1;
    }
    assert args[..|args|] == args;
  }

  /** An option is the value of the last argument naming it. */
  lemma {:induction false} LastArgWins(acc: map<string, Value>, args: seq<string>, k: string, i: nat)
    requires i < |args| && ParseArg(args[i]).0 == k
    requires forall j :: i < j < |args| ==> ParseArg(args[j]).0 != k
    ensures k in FoldArgs(acc, args) && FoldArgs(acc, args)[k] == ParseArg(args[i]).1
    decreases |args|
  {
    if i < |args| - 1 {
      var pre := args[..|args| - 1];
      assert forall j :: 0 <= j < |pre| ==> pre[j] == args[j];
      LastArgWins(acc, pre, k, i);
    }
  }

  /** An option no argument names keeps its starting value. */
  lemma {:induction false} UnnamedKeepsDefault(acc: map<string, Value>, args: seq<string>, k: string)
    requires forall i :: 0 <= i < |args| ==> ParseArg(args[i]).0 != k
    ensures (k in FoldArgs(acc, args) <==> k in acc) && (k in acc ==> FoldArgs(acc, args)[k] == acc[k])
    decreases |args|
  {
    if |args| > 0 {
      var pre := args[..|args| - 1];
      assert forall j :: 0 <= j < |pre| ==> pre[j] == args[j];
      UnnamedKeepsDefault(acc, pre, k);
    }
  }

  /** `Object.assign({}, options, shellConfig)`: the shell options overlay the config object. */
  function MergeOptions(options: map<string, Value>, shellConfig: map<string, Value>): (r: map<string, Value>)
    ensures r.Keys == options.Keys + shellConfig.Keys
    ensures forall k :: k in shellConfig ==> r[k] == shellConfig[k]
    ensures forall k :: k in options && k !in shellConfig ==> r[k] == options[k]
  {
    map k | k in options.Keys + shellConfig.Keys :: if k in shellConfig then shellConfig[k] else options[k]
  }

  /**
   * The defaults always override the config object: unless an argument
   * names it, `entry` is "./src/index.js" whatever `options.entry` is, and
   * likewise `output`.
   */
  lemma DefaultsOverrideConfig(options: map<string, Value>, argv: seq<string>, distPath: Value, k: string)
    requires k in {"entry", "output"}
    requires forall i :: 0 <= i < |UserArgs(argv)| ==> ParseArg(UserArgs(argv)[i]).0 != k
    ensures k in MergeOptions(options, FoldArgs(Defaults(distPath), UserArgs(argv)))
      && MergeOptions(options, FoldArgs(Defaults(distPath), UserArgs(argv)))[k] == Defaults(distPath)[k]
  {
    UnnamedKeepsDefault(Defaults(distPath), UserArgs(argv), k);
  }

  /** The plugins whose `apply(compiler)` is called, in order: those of a non-empty `plugins` array. */
  function PluginsToApply(finalOptions: map<string, Value>): seq<Value>
  {
    if "plugins" in finalOptions && finalOptions["plugins"].Arr? && |finalOptions["plugins"].items| > 0
    then finalOptions["plugins"].items else []
  }

  /**
   * The plugin loop of `webpack(options)`. Calling `plugin.apply(compiler)`
   * is recorded: `applied` lists the plugins in call order.
   */
  method ApplyPlugins(finalOptions: map<string, Value>) returns (applied: seq<Value>)
    ensures applied == PluginsToApply(finalOptions)
    ensures "plugins" !in finalOptions ==> applied == []
  {
    applied := [];
    if "plugins" in finalOptions && finalOptions["plugins"].Arr? && |finalOptions["plugins"].items| > 0 {
      var plugins := finalOptions["plugins"].items;
      for i := 0 to |plugins|
        invariant applied == plugins[..i]
      {
        applied := applied + [plugins[i]];
      }
      assert plugins[..|plugins|] == plugins;
    }
  }
}
