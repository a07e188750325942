/** From the arguments of a tool call to the argument vector of the subprocess, and the capped
    capture of its output. */
module McpRunner {
  import opened Prelude
  import opened StringOrder
  import McpSchema

  /** A decoded JSON value: `Number` carries its printed form, `Other` what `%v` prints. */
  datatype Scalar = Null | Bool(b: bool) | Text(s: string) | Number(printed: string) | Other(shown: string) | Object

  datatype Value = One(v: Scalar) | Many(items: seq<Scalar>) | ManyTexts(texts: seq<string>)

  datatype Error = DashSegment | NilValue | MapValue

  datatype Result<+T> = Ok(value: T) | Err(error: Error)

  type Args = map<string, Value>

  // ----- translateArgs

  /** The flag a schema key stands for; keys without a flag pass through. */
  function FlagOf(key: string, nameToFlag: map<string, string>): string {
    if key in nameToFlag && nameToFlag[key] != "" then nameToFlag[key] else key
  }

  /** Key `k` supplies flag `f` with value `v`. */
  ghost predicate Gives(raw: Args, nameToFlag: map<string, string>, k: string, f: string, v: Value) {
    k in raw && FlagOf(k, nameToFlag) == f && raw[k] == v
  }

  /** `out` holds exactly the flags of the keys in `raw`, each with the value of one of its keys. */
  ghost predicate Translates(raw: Args, nameToFlag: map<string, string>, out: Args) {
    && (forall k | k in raw :: FlagOf(k, nameToFlag) in out)
    && forall f | f in out :: exists k :: Gives(raw, nameToFlag, k, f, out[f])
  }

  /** The loop visits the keys in any order, as a Go map does. */
  method TranslateArgs(raw: Args, nameToFlag: map<string, string>) returns (out: Args)
    ensures Translates(raw, nameToFlag, out)
  {
    if raw == map[] || nameToFlag == map[] {
      assert forall k | k in raw :: Gives(raw, nameToFlag, k, k, raw[k]);
      return raw;
    }
    out := map[];
    var todo := raw.Keys;
    while todo != {}
      invariant todo <= raw.Keys
      invariant forall k | k in raw && k !in todo :: FlagOf(k, nameToFlag) in out
      invariant forall f | f in out :: exists k :: Gives(raw, nameToFlag, k, f, out[f])
    {
      var k :| k in todo;
      todo := todo - {k};
      out := out[FlagOf(k, nameToFlag) := raw[k]];
      assert Gives(raw, nameToFlag, k, FlagOf(k, nameToFlag), raw[k]);
    }
  }

  /** The flags that the supplied keys stand for. */
  ghost function FlagSet(raw: Args, nameToFlag: map<string, string>): set<string> {
    set k | k in raw :: FlagOf(k, nameToFlag)
  }

  /** Keys that lead to one flag carry one value. */
  ghost predicate Unambiguous(raw: Args, nameToFlag: map<string, string>) {
    forall k, k' | k in raw && k' in raw && FlagOf(k, nameToFlag) == FlagOf(k', nameToFlag) :: raw[k] == raw[k']
  }

  /** A translation always exists. */
  lemma {:induction false} SomeTranslation(raw: Args, nameToFlag: map<string, string>) returns (out: Args)
    ensures Translates(raw, nameToFlag, out)
    decreases |raw|
  {
    if raw == map[] {
      out := map[];
    } else {
      var k :| k in raw;
      var rest := raw - {k};
      assert |rest.Keys| < |raw.Keys| by {
        assert rest.Keys == raw.Keys - {k};
      }
      var part := SomeTranslation(rest, nameToFlag);
      out := part[FlagOf(k, nameToFlag) := raw[k]];
      forall f | f in out ensures exists k' :: Gives(raw, nameToFlag, k', f, out[f]) {
        if f != FlagOf(k, nameToFlag) {
          var k' :| Gives(rest, nameToFlag, k', f, part[f]);
          assert Gives(raw, nameToFlag, k', f, out[f]);
        } else {
          assert Gives(raw, nameToFlag, k, f, out[f]);
        }
      }
    }
  }

  /** The result is independent of the order the map is walked in exactly when no two supplied keys
      give one flag different values. */
  lemma TranslationIsUniqueExactly(raw: Args, nameToFlag: map<string, string>)
    ensures Unambiguous(raw, nameToFlag) <==>
      forall a: Args, b: Args :: Translates(raw, nameToFlag, a) && Translates(raw, nameToFlag, b) ==> a == b
  {
    if Unambiguous(raw, nameToFlag) {
      forall a: Args, b: Args | Translates(raw, nameToFlag, a) && Translates(raw, nameToFlag, b) ensures a == b {
        SameTranslation(raw, nameToFlag, a, b);
      }
    } else {
      var k, k' :| k in raw && k' in raw && FlagOf(k, nameToFlag) == FlagOf(k', nameToFlag) && raw[k] != raw[k'];
      var a, b := TwoTranslations(raw, nameToFlag, k, k');
    }
  }

  lemma TwoTranslations(raw: Args, nameToFlag: map<string, string>, k: string, k': string) returns (a: Args, b: Args)
    requires k in raw && k' in raw && FlagOf(k, nameToFlag) == FlagOf(k', nameToFlag) && raw[k] != raw[k']
    ensures Translates(raw, nameToFlag, a) && Translates(raw, nameToFlag, b) && a != b
  {
    var base := SomeTranslation(raw, nameToFlag);
    var f := FlagOf(k, nameToFlag);
    a, b := base[f := raw[k]], base[f := raw[k']];
    RetargetTranslation(raw, nameToFlag, base, k);
    RetargetTranslation(raw, nameToFlag, base, k');
    assert a[f] != b[f];
  }

  lemma SameTranslation(raw: Args, nameToFlag: map<string, string>, a: Args, b: Args)
    requires Unambiguous(raw, nameToFlag) && Translates(raw, nameToFlag, a) && Translates(raw, nameToFlag, b)
    ensures a == b
  {
    FlagsCovered(raw, nameToFlag, a, b);
    FlagsCovered(raw, nameToFlag, b, a);
    assert a.Keys == b.Keys;
  }

  lemma FlagsCovered(raw: Args, nameToFlag: map<string, string>, a: Args, b: Args)
    requires Unambiguous(raw, nameToFlag) && Translates(raw, nameToFlag, a) && Translates(raw, nameToFlag, b)
    ensures forall f | f in a :: f in b && a[f] == b[f]
  {
    forall f | f in a ensures f in b && a[f] == b[f] {
      var k :| Gives(raw, nameToFlag, k, f, a[f]);
      var k' :| Gives(raw, nameToFlag, k', f, b[f]);
    }
  }

  lemma RetargetTranslation(raw: Args, nameToFlag: map<string, string>, base: Args, k: string)
    requires Translates(raw, nameToFlag, base) && k in raw
    ensures Translates(raw, nameToFlag, base[FlagOf(k, nameToFlag) := raw[k]])
  {
    var out := base[FlagOf(k, nameToFlag) := raw[k]];
    forall f | f in out ensures exists k' :: Gives(raw, nameToFlag, k', f, out[f]) {
      if f == FlagOf(k, nameToFlag) {
        assert Gives(raw, nameToFlag, k, f, out[f]);
      } else {
        var k' :| Gives(raw, nameToFlag, k', f, base[f]);
        assert Gives(raw, nameToFlag, k', f, out[f]);
      }
    }
  }

  // ----- From the schema to the command line

  /** The key is translated to this flag: what the map says, or itself where the map is silent. */
  ghost predicate Leads(key: string, nameToFlag: map<string, string>, flag: string) {
    if key in nameToFlag then nameToFlag[key] == flag || (nameToFlag[key] == "" && key == flag) else key == flag
  }

  /** The translation in terms of the map alone: a flag is there exactly when a supplied key leads to it,
      and it has the value of such a key. */
  lemma {:induction false} TranslatesByMap(raw: Args, nameToFlag: map<string, string>, out: Args, flag: string)
    requires Translates(raw, nameToFlag, out)
    requires forall k | k in nameToFlag :: nameToFlag[k] != ""
    ensures flag in out <==> exists k :: k in raw && Leads(k, nameToFlag, flag)
    ensures flag in out ==> exists k :: k in raw && Leads(k, nameToFlag, flag) && out[flag] == raw[k]
  {
    if flag in out {
      var k :| Gives(raw, nameToFlag, k, flag, out[flag]);
      assert k in raw && Leads(k, nameToFlag, flag) && out[flag] == raw[k];
    }
  }

  /** No other supplied key leads to the flag. */
  ghost predicate OnlyKeyFor(raw: Args, nameToFlag: map<string, string>, key: string, flag: string) {
    key in raw && forall k | k in raw && k != key :: !Leads(k, nameToFlag, flag)
  }

  /** Schema and translation fit together: a value that is supplied under the key of a kept parameter
      arrives under the name of that parameter, unless another supplied key leads there too; and a key
      that the schema does not know keeps its own name. */
  lemma {:induction false} SchemaTranslates(params: seq<McpSchema.Param>, nameToFlag: map<string, string>, raw: Args,
                                            out: Args)
    requires McpSchema.MapsBack(params, nameToFlag) && Translates(raw, nameToFlag, out)
    ensures forall i | 0 <= i < |params| && McpSchema.Keys(params)[i].Some? ::
      var key, flag := McpSchema.Keys(params)[i].value, McpSchema.ParamName(params[i]);
      OnlyKeyFor(raw, nameToFlag, key, flag) ==> flag in out && out[flag] == raw[key]
    ensures forall key | key !in nameToFlag && OnlyKeyFor(raw, nameToFlag, key, key) ::
      key in out && out[key] == raw[key]
  {
    NoEmptyFlags(params, nameToFlag);
    forall i | 0 <= i < |params| && McpSchema.Keys(params)[i].Some?
      ensures
        var key, flag := McpSchema.Keys(params)[i].value, McpSchema.ParamName(params[i]);
        OnlyKeyFor(raw, nameToFlag, key, flag) ==> flag in out && out[flag] == raw[key]
    {
      TranslatesByMap(raw, nameToFlag, out, McpSchema.ParamName(params[i]));
    }
    forall key | key !in nameToFlag && OnlyKeyFor(raw, nameToFlag, key, key)
      ensures key in out && out[key] == raw[key]
    {
      TranslatesByMap(raw, nameToFlag, out, key);
    }
  }

  lemma {:induction false} NoEmptyFlags(params: seq<McpSchema.Param>, nameToFlag: map<string, string>)
    requires McpSchema.MapsBack(params, nameToFlag)
    ensures forall k | k in nameToFlag :: nameToFlag[k] != ""
  {
    forall k | k in nameToFlag ensures nameToFlag[k] != "" {
      var i :| 0 <= i < |params| && McpSchema.Keys(params)[i] == Option.Some(k);
      McpSchema.KeptAreNamed(params, i);
    }
  }

  // ----- BuildArgv

  predicate IsPathSeparator(c: char) { c == '/' || c == ' ' || c == '\t' }

  /** `strings.FieldsFunc`: the maximal runs without a separator. */
  function Fields(s: string): (fields: seq<string>)
    ensures forall f | f in fields :: f != ""
  {
    if s == "" then []
    else if IsPathSeparator(s[0]) then Fields(s[1..])
    else if |s| == 1 || IsPathSeparator(s[1]) then [[s[0]]] + Fields(s[1..])
    else
      var rest := Fields(s[1..]);
      if rest == [] then [[s[0]]]
      else
        var fields := [[s[0]] + rest[0]] + rest[1..];
        assert forall f | f in rest[1..] :: f in rest;
        fields
  }

  function SplitPath(path: string): (segments: seq<string>)
    ensures forall f | f in segments :: f != ""
  {
    Fields(McpSchema.TrimSpace(path))
  }

  /** A name that neither the splitting nor the trimming of a path touches. */
  ghost predicate CleanName(name: string) {
    name != "" && forall i | 0 <= i < |name| :: name[i] != '/' && !McpSchema.IsSpace(name[i])
  }

  ghost predicate CleanNames(names: seq<string>) { forall i | 0 <= i < |names| :: CleanName(names[i]) }

  lemma {:induction false} FieldsOfFirst(name: string, rest: string)
    requires CleanName(name) && (rest == "" || IsPathSeparator(rest[0]))
    ensures Fields(name + rest) == [name] + Fields(rest)
  {
    var s := name + rest;
    assert s[0] == name[0] && s[1..] == name[1..] + rest;
    if |name| == 1 {
      assert s[1..] == rest && name == [s[0]];
    } else {
      assert s[1] == name[1];
      FieldsOfFirst(name[1..], rest);
      assert ([name[1..]] + Fields(rest))[1..] == Fields(rest);
      assert [s[0]] + name[1..] == name;
    }
  }

  lemma {:induction false} FieldsOfJoin(names: seq<string>)
    requires CleanNames(names)
    ensures Fields(Join(names, '/')) == names
  {
    if |names| == 1 {
      FieldsOfFirst(names[0], "");
      assert names[0] + "" == names[0];
    } else if names != [] {
      var tail := Join(names[1..], '/');
      FieldsOfJoin(names[1..]);
      assert names[0] + ['/'] + tail == names[0] + (['/'] + tail);
      FieldsOfFirst(names[0], ['/'] + tail);
      assert (['/'] + tail)[1..] == tail;
      assert [names[0]] + names[1..] == names;
    }
  }

  lemma {:induction false} JoinIsTrimmed(names: seq<string>)
    requires CleanNames(names) && names != []
    ensures
      var s := Join(names, '/');
      s != "" && !McpSchema.IsSpace(s[0]) && !McpSchema.IsSpace(s[|s| - 1])
  {
    if |names| > 1 {
      JoinIsTrimmed(names[1..]);
    }
  }

  lemma {:induction false} FieldsAreApart(s: string)
    ensures forall f, i | f in Fields(s) && 0 <= i < |f| :: f[i] != '/' && f[i] != ' ' && f[i] != '\t'
  {
    if s != "" {
      FieldsAreApart(s[1..]);
      var rest := Fields(s[1..]);
      assert rest != [] ==> rest[0] in rest && forall f | f in rest[1..] :: f in rest;
    }
  }

  /** No segment of a path holds a slash, a blank or a tab. */
  lemma SegmentsAreApart(path: string)
    ensures forall f, i | f in SplitPath(path) && 0 <= i < |f| :: f[i] != '/' && f[i] != ' ' && f[i] != '\t'
  {
    FieldsAreApart(McpSchema.TrimSpace(path));
  }

  /** A path printed from clean names is split into exactly those names. */
  lemma PathRoundTrip(names: seq<string>)
    requires CleanNames(names)
    ensures SplitPath(Join(names, '/')) == names
  {
    FieldsOfJoin(names);
    if names != [] {
      JoinIsTrimmed(names);
    }
  }

  function FormatScalar(v: Scalar): Result<string> {
    match v
    case Null => Err(NilValue)
    case Bool(b) => Ok(if b then "true" else "false")
    case Text(s) => Ok(s)
    case Number(printed) => Ok(printed)
    case Other(shown) => Ok(shown)
    case Object => Err(MapValue)
  }

  function WithValue(flag: string, value: string): string { flag + "=" + value }

  function ItemArgs(flag: string, items: seq<Scalar>): Result<seq<string>> {
    if items == [] then Ok([])
    else
      match ItemArgs(flag, items[..|items| - 1])
      case Err(e) => Err(e)
      case Ok(init) =>
        match FormatScalar(items[|items| - 1])
        case Err(e) => Err(e)
        case Ok(s) => Ok(init + [WithValue(flag, s)])
  }

  /** The arguments that one entry contributes. */
  function FlagArgs(key: string, v: Value): Result<seq<string>> {
    var flag := "--" + key;
    match v
    case One(Null) => Ok([])
    case One(Bool(b)) => Ok(if b then [flag] else [])
    case One(scalar) =>
      (match FormatScalar(scalar)
       case Err(e) => Err(e)
       case Ok(s) => Ok([WithValue(flag, s)]))
    case Many(items) => ItemArgs(flag, items)
    case ManyTexts(texts) => Ok(seq(|texts|, i requires 0 <= i < |texts| => WithValue(flag, texts[i])))
  }

  /** The text of a value inside a list, where it has one. */
  function Shown(v: Scalar): Option<string> {
    match v
    case Bool(true) => Option.Some("true")
    case Bool(false) => Option.Some("false")
    case Text(s) => Option.Some(s)
    case Number(printed) => Option.Some(printed)
    case Other(shown) => Option.Some(shown)
    case _ => Option.None
  }

  /** What each kind of single value contributes: nothing for null and false, the bare flag for true, an
      error for an object, and otherwise the flag with the value's text. */
  lemma SingleValueExact(key: string, v: Scalar)
    ensures FlagArgs(key, One(v)) ==
      match v
      case Null => Ok([])
      case Object => Err(MapValue)
      case Bool(true) => Ok(["--" + key])
      case Bool(false) => Ok([])
      case Text(s) => Ok(["--" + key + "=" + s])
      case Number(printed) => Ok(["--" + key + "=" + printed])
      case Other(shown) => Ok(["--" + key + "=" + shown])
  {
  }

  /** What a list of values with a text contributes: one flag with a value per item, in order. */
  lemma {:induction false} ListValueExact(key: string, items: seq<Scalar>)
    requires forall i | 0 <= i < |items| :: Shown(items[i]).Some?
    ensures
      var r := FlagArgs(key, Many(items));
      && r.Ok? && |r.value| == |items|
      && forall i | 0 <= i < |items| :: r.value[i] == "--" + key + "=" + Shown(items[i]).value
  {
    if items != [] {
      var init, last := items[..|items| - 1], items[|items| - 1];
      ListValueExact(key, init);
      assert FlagArgs(key, Many(items)) == Ok(FlagArgs(key, Many(init)).value + ["--" + key + "=" + Shown(last).value]);
    }
  }

  /** A list with other values contributes the error of the first of them. */
  lemma {:induction false} ListErrorExact(key: string, items: seq<Scalar>, n: nat)
    requires n < |items| && Shown(items[n]).None? && forall i | 0 <= i < n :: Shown(items[i]).Some?
    ensures FlagArgs(key, Many(items)) == Err(if items[n].Null? then NilValue else MapValue)
  {
    var init := items[..|items| - 1];
    if n < |init| {
      ListErrorExact(key, init, n);
    } else {
      ListValueExact(key, init);
    }
  }

  lemma TextListExact(key: string, texts: seq<string>)
    ensures
      var r := FlagArgs(key, ManyTexts(texts));
      r.Ok? && |r.value| == |texts| && forall i | 0 <= i < |texts| :: r.value[i] == "--" + key + "=" + texts[i]
  {
  }

  /** Every key contributes its arguments in one block, after those of the keys before it and before those
      of the keys after it. */
  lemma {:induction false} ArgsComeInBlocks(args: Args, keys: seq<string>, i: nat) returns (rest: seq<string>)
    requires (forall k | k in keys :: k in args) && i < |keys| && AllArgs(args, keys).Ok?
    ensures AllArgs(args, keys[..i]).Ok? && FlagArgs(keys[i], args[keys[i]]).Ok?
    ensures AllArgs(args, keys).value
         == AllArgs(args, keys[..i]).value + FlagArgs(keys[i], args[keys[i]]).value + rest
  {
    var init := keys[..|keys| - 1];
    if i < |init| {
      rest := ArgsComeInBlocks(args, init, i);
      assert init[..i] == keys[..i];
      rest := rest + FlagArgs(keys[|keys| - 1], args[keys[|keys| - 1]]).value;
    } else {
      rest := [];
    }
  }

  /** The arguments of the keys in the given order; the first failing key decides the error. */
  function AllArgs(args: Args, keys: seq<string>): Result<seq<string>>
    requires forall k | k in keys :: k in args
  {
    if keys == [] then Ok([])
    else
      var last := keys[|keys| - 1];
      match AllArgs(args, keys[..|keys| - 1])
      case Err(e) => Err(e)
      case Ok(init) =>
        match FlagArgs(last, args[last])
        case Err(e) => Err(e)
        case Ok(more) => Ok(init + more)
  }

  predicate StartsWithDash(s: string) { HasPrefix(s, "-") }

  /** The whole answer, given an ascending listing of the flags (there is only one). */
  ghost predicate ArgvAnswer(path: string, args: Args, positional: seq<string>, keys: seq<string>,
                             answer: Result<seq<string>>)
  {
    && Lists(keys, args.Keys)
    && (ListedKeysIn(keys, args.Keys);
        var segments := SplitPath(path);
        if exists s | s in segments :: StartsWithDash(s) then answer == Err(DashSegment)
        else
          match AllArgs(args, keys)
          case Err(e) => answer == Err(e)
          case Ok(flags) => answer == Ok(segments + flags + positional))
  }

  lemma ListedKeysIn(keys: seq<string>, xs: set<string>)
    requires Lists(keys, xs)
    ensures forall k | k in keys :: k in xs
  {
    forall k | k in keys ensures k in xs {
      assert k in Elements(keys);
    }
  }

  method BuildArgv(path: string, args: Args, positional: seq<string>) returns (argv: Result<seq<string>>)
    ensures exists keys :: ArgvAnswer(path, args, positional, keys, argv)
    ensures (exists s :: s in SplitPath(path) && s[0] == '-') ==> argv == Err(DashSegment)
    ensures argv.Ok? ==>
      && (forall s | s in SplitPath(path) :: s[0] != '-')
      && SplitPath(path) <= argv.value
      && |positional| <= |argv.value| && argv.value[|argv.value| - |positional|..] == positional
  {
    var segments := SplitPath(path);
    var unsorted := CollectKeys(args);
    var order := SortStrings(unsorted);
    ListedKeysIn(order, args.Keys);
    assert forall k | 0 <= k < |segments| :: segments[k] in segments;
    for i := 0 to |segments|
      invariant forall k | 0 <= k < i :: !StartsWithDash(segments[k])
    {
      if segments[i] == "" {
        // Splitting never leaves an empty segment.
        assert false;
      }
      if StartsWithDash(segments[i]) {
        assert segments[i] in segments;
        argv := Err(DashSegment);
        assert ArgvAnswer(path, args, positional, order, argv);
        return;
      }
    }

    var flags := CollectFlags(args, order);
    if flags.Err? {
      argv := Err(flags.error);
    } else {
      argv := Ok(segments + flags.value + positional);
    }
    assert ArgvAnswer(path, args, positional, order, argv);
  }

  method CollectFlags(args: Args, order: seq<string>) returns (flags: Result<seq<string>>)
    requires forall k | k in order :: k in args
    ensures flags == AllArgs(args, order)
  {
    var out: seq<string> := [];
    for i := 0 to |order|
      invariant AllArgs(args, order[..i]) == Ok(out)
    {
      assert order[..i + 1][..i] == order[..i];
      var more := FlagArgs(order[i], args[order[i]]);
      if more.Err? {
        FirstErrorWins(args, order, i + 1);
        return Err(more.error);
      }
      out := out + more.value;
    }
    assert order[..|order|] == order;
    return Ok(out);
  }

  /** The keys of a map, in whatever order it is walked. */
  method CollectKeys(args: Args) returns (keys: seq<string>)
    ensures Distinct(keys) && Elements(keys) == args.Keys
  {
    keys := [];
    var todo := args.Keys;
    while todo != {}
      invariant todo <= args.Keys
      invariant Distinct(keys) && Elements(keys) == args.Keys - todo
    {
      var k :| k in todo;
      todo := todo - {k};
      assert k !in Elements(keys);
      assert Elements(keys + [k]) == Elements(keys) + {k};
      keys := keys + [k];
    }
  }

  lemma {:induction false} FirstErrorWins(args: Args, keys: seq<string>, n: nat)
    requires n <= |keys| && forall k | k in keys :: k in args
    requires AllArgs(args, keys[..n]).Err?
    ensures AllArgs(args, keys) == AllArgs(args, keys[..n])
    decreases |keys| - n
  {
    if n == |keys| {
      assert keys[..n] == keys;
    } else {
      assert keys[..n + 1][..n] == keys[..n];
      FirstErrorWins(args, keys, n + 1);
    }
  }

  // ----- The argument round trip

  ghost predicate AllTexts(args: Args) { forall k | k in args :: args[k].One? && args[k].v.Text? }

  /** One `--flag=value` per key. */
  ghost function Rendered(args: Args, keys: seq<string>): (flags: seq<string>)
    requires AllTexts(args) && forall k | k in keys :: k in args
    ensures |flags| == |keys|
  {
    seq(|keys|, i requires 0 <= i < |keys| => "--" + keys[i] + "=" + args[keys[i]].v.s)
  }

  lemma {:induction false} TextsRender(args: Args, keys: seq<string>)
    requires AllTexts(args) && forall k | k in keys :: k in args
    ensures AllArgs(args, keys) == Ok(Rendered(args, keys))
  {
    if keys != [] {
      var init, last := keys[..|keys| - 1], keys[|keys| - 1];
      assert keys == init + [last];
      assert last in keys;
      TextsRender(args, init);
      RenderedLonger(args, init, last);
    }
  }

  /** Reads `--flag=value` back, splitting at the first `=`. */
  function ReadFlag(arg: string): Option<(string, string)> {
    if !HasPrefix(arg, "--") then None
    else
      var body := arg[2..];
      if '=' !in body then None
      else
        var name := Split(body, '=')[0];
        if |name| + 1 <= |body| then Some((name, body[|name| + 1..])) else None
  }

  /** The map that a list of `--flag=value` arguments spells out. */
  function ReadFlags(flags: seq<string>): map<string, string> {
    if flags == [] then map[]
    else
      var init := ReadFlags(flags[..|flags| - 1]);
      match ReadFlag(flags[|flags| - 1])
      case None => init
      case Some((name, value)) => init[name := value]
  }

  lemma ReadFlagOfRendered(flag: string, value: string)
    requires '=' !in flag
    ensures ReadFlag("--" + flag + "=" + value) == Some((flag, value))
  {
    var arg := "--" + flag + "=" + value;
    assert arg[2..] == flag + ['='] + value;
    assert '=' in arg[2..] by {
      assert arg[2..][|flag|] == '=';
    }
    SplitAtFirst(flag, '=', value);
  }

  lemma RenderedLonger(args: Args, init: seq<string>, last: string)
    requires AllTexts(args) && last in args && forall k | k in init :: k in args
    ensures Rendered(args, init + [last]) == Rendered(args, init) + ["--" + last + "=" + args[last].v.s]
  {
  }

  lemma {:induction false} ReadRendered(args: Args, keys: seq<string>)
    requires AllTexts(args) && (forall k | k in keys :: k in args && '=' !in k)
    ensures ReadFlags(Rendered(args, keys)).Keys == Elements(keys)
    ensures forall k | k in keys :: ReadFlags(Rendered(args, keys))[k] == args[k].v.s
  {
    if keys != [] {
      var init, last := keys[..|keys| - 1], keys[|keys| - 1];
      assert keys == init + [last];
      assert last in keys;
      ReadRendered(args, init);
      RenderedLonger(args, init, last);
      ReadFlagOfRendered(last, args[last].v.s);
      var flags := Rendered(args, keys);
      assert flags[..|flags| - 1] == Rendered(args, init);
      assert ReadFlags(flags) == ReadFlags(Rendered(args, init))[last := args[last].v.s];
      assert Elements(keys) == Elements(init) + {last};
    }
  }

  ghost predicate DistinctFlags(raw: Args, nameToFlag: map<string, string>) {
    forall k, k' | k in raw && k' in raw && k != k' :: FlagOf(k, nameToFlag) != FlagOf(k', nameToFlag)
  }

  /** No flag name would blur where a `--flag=value` splits. */
  ghost predicate SplittableFlags(raw: Args, nameToFlag: map<string, string>) {
    forall k | k in raw :: '=' !in FlagOf(k, nameToFlag)
  }

  /** Reading the flags part of a command line back gives the supplied arguments. */
  ghost predicate SpellsOut(flags: seq<string>, raw: Args, nameToFlag: map<string, string>)
    requires AllTexts(raw)
  {
    && ReadFlags(flags).Keys == FlagSet(raw, nameToFlag)
    && forall k | k in raw :: ReadFlags(flags)[FlagOf(k, nameToFlag)] == raw[k].v.s
  }

  /** The argument round trip: string values under keys with pairwise distinct flags reach the
      command line as the path segments followed by exactly one `--flag=value` per key, in ascending
      flag order, whatever order the maps were walked in; and reading the flags back gives every key
      the value it was supplied with. */
  lemma ArgumentRoundTrip(path: string, raw: Args, nameToFlag: map<string, string>, out: Args,
                          keys: seq<string>, argv: Result<seq<string>>)
    requires AllTexts(raw) && DistinctFlags(raw, nameToFlag)
    requires forall s | s in SplitPath(path) :: !StartsWithDash(s)
    requires Translates(raw, nameToFlag, out)
    requires ArgvAnswer(path, out, [], keys, argv)
    ensures AllTexts(out) && forall k | k in keys :: k in out
    ensures argv == Ok(SplitPath(path) + Rendered(out, keys))
    ensures Lists(keys, FlagSet(raw, nameToFlag)) && |keys| == |raw|
    ensures forall k | k in raw :: FlagOf(k, nameToFlag) in out && out[FlagOf(k, nameToFlag)] == raw[k]
    ensures SplittableFlags(raw, nameToFlag) ==> SpellsOut(Rendered(out, keys), raw, nameToFlag)
  {
    TranslationKeepsValues(raw, nameToFlag, out);
    ListedKeysIn(keys, out.Keys);
    TextsRender(out, keys);
    var segments, flags := SplitPath(path), Rendered(out, keys);
    assert segments + flags + [] == segments + flags;
    FlagsAreCounted(raw, nameToFlag);
    ListingLength(keys, out.Keys);
    if SplittableFlags(raw, nameToFlag) {
      ReadBack(raw, nameToFlag, out, keys);
    }
  }

  /** The whole way: a text supplied under the key of a kept parameter reaches the command line as the flag
      of that parameter with that text. */
  lemma {:induction false} SchemaReachesArgv(
      path: string, params: seq<McpSchema.Param>, nameToFlag: map<string, string>, raw: Args, out: Args,
      keys: seq<string>, argv: Result<seq<string>>, i: nat)
    requires McpSchema.MapsBack(params, nameToFlag) && Translates(raw, nameToFlag, out)
    requires AllTexts(raw) && forall s | s in SplitPath(path) :: !StartsWithDash(s)
    requires forall k, flag | k in raw && Leads(k, nameToFlag, flag) :: OnlyKeyFor(raw, nameToFlag, k, flag)
    requires ArgvAnswer(path, out, [], keys, argv)
    requires i < |params| && McpSchema.Keys(params)[i].Some? && McpSchema.Keys(params)[i].value in raw
    ensures argv.Ok?
    ensures "--" + McpSchema.ParamName(params[i]) + "=" + raw[McpSchema.Keys(params)[i].value].v.s in argv.value
  {
    NoEmptyFlags(params, nameToFlag);
    LeadsApart(raw, nameToFlag);
    SchemaTranslates(params, nameToFlag, raw, out);
    var key, flag := McpSchema.Keys(params)[i].value, McpSchema.ParamName(params[i]);
    assert Leads(key, nameToFlag, flag) && OnlyKeyFor(raw, nameToFlag, key, flag);
    TextReachesArgv(path, raw, nameToFlag, out, keys, argv, flag);
  }

  lemma {:induction false} LeadsApart(raw: Args, nameToFlag: map<string, string>)
    requires forall k | k in nameToFlag :: nameToFlag[k] != ""
    requires forall k, flag | k in raw && Leads(k, nameToFlag, flag) :: OnlyKeyFor(raw, nameToFlag, k, flag)
    ensures DistinctFlags(raw, nameToFlag)
  {
    assert forall k | k in raw :: Leads(k, nameToFlag, FlagOf(k, nameToFlag));
  }

  lemma {:induction false} TextReachesArgv(path: string, raw: Args, nameToFlag: map<string, string>, out: Args,
                                           keys: seq<string>, argv: Result<seq<string>>, flag: string)
    requires AllTexts(raw) && DistinctFlags(raw, nameToFlag) && forall s | s in SplitPath(path) :: !StartsWithDash(s)
    requires Translates(raw, nameToFlag, out) && ArgvAnswer(path, out, [], keys, argv)
    requires flag in out && out[flag].One? && out[flag].v.Text?
    ensures argv.Ok? && "--" + flag + "=" + out[flag].v.s in argv.value
  {
    ArgumentRoundTrip(path, raw, nameToFlag, out, keys, argv);
    assert flag in Elements(keys);
    var n :| 0 <= n < |keys| && keys[n] == flag;
    assert Rendered(out, keys)[n] in Rendered(out, keys);
  }

  lemma ReadBack(raw: Args, nameToFlag: map<string, string>, out: Args, keys: seq<string>)
    requires AllTexts(raw) && AllTexts(out) && SplittableFlags(raw, nameToFlag)
    requires out.Keys == FlagSet(raw, nameToFlag)
    requires forall k | k in raw :: out[FlagOf(k, nameToFlag)] == raw[k]
    requires Lists(keys, out.Keys) && forall k | k in keys :: k in out
    ensures SpellsOut(Rendered(out, keys), raw, nameToFlag)
  {
    forall f | f in keys ensures '=' !in f {
      assert f in out.Keys;
    }
    ReadRendered(out, keys);
    forall k | k in raw ensures FlagOf(k, nameToFlag) in keys {
      assert FlagOf(k, nameToFlag) in Elements(keys);
    }
  }

  lemma TranslationKeepsValues(raw: Args, nameToFlag: map<string, string>, out: Args)
    requires DistinctFlags(raw, nameToFlag) && Translates(raw, nameToFlag, out)
    ensures out.Keys == FlagSet(raw, nameToFlag)
    ensures forall k | k in raw :: out[FlagOf(k, nameToFlag)] == raw[k]
    ensures AllTexts(raw) ==> AllTexts(out)
  {
    forall k | k in raw ensures out[FlagOf(k, nameToFlag)] == raw[k] {
      var f := FlagOf(k, nameToFlag);
      var k' :| Gives(raw, nameToFlag, k', f, out[f]);
    }
    forall f | f in out ensures f in FlagSet(raw, nameToFlag) {
      var k :| Gives(raw, nameToFlag, k, f, out[f]);
    }
  }

  lemma FlagSetWithout(raw: Args, nameToFlag: map<string, string>, k: string)
    requires DistinctFlags(raw, nameToFlag) && k in raw
    ensures DistinctFlags(raw - {k}, nameToFlag)
    ensures FlagOf(k, nameToFlag) !in FlagSet(raw - {k}, nameToFlag)
    ensures FlagSet(raw, nameToFlag) == FlagSet(raw - {k}, nameToFlag) + {FlagOf(k, nameToFlag)}
  {
    forall f | f in FlagSet(raw, nameToFlag) && f != FlagOf(k, nameToFlag) ensures f in FlagSet(raw - {k}, nameToFlag) {
      var k' :| k' in raw && FlagOf(k', nameToFlag) == f;
      assert k' in raw - {k};
    }
  }

  lemma {:induction false} FlagsAreCounted(raw: Args, nameToFlag: map<string, string>)
    requires DistinctFlags(raw, nameToFlag)
    ensures |FlagSet(raw, nameToFlag)| == |raw|
    decreases |raw|
  {
    if raw == map[] {
      assert FlagSet(raw, nameToFlag) == {};
    } else {
      var k :| k in raw;
      assert |raw - {k}| == |raw| - 1 by {
        assert raw.Keys == (raw - {k}).Keys + {k};
      }
      FlagSetWithout(raw, nameToFlag, k);
      FlagsAreCounted(raw - {k}, nameToFlag);
    }
  }

  lemma {:induction false} ListingLength(keys: seq<string>, xs: set<string>)
    requires Distinct(keys) && Elements(keys) == xs
    ensures |keys| == |xs|
  {
    if keys != [] {
      var init, last := keys[..|keys| - 1], keys[|keys| - 1];
      assert last !in init;
      ListingLength(init, xs - {last}) by {
        assert keys == init + [last];
        assert Elements(keys) == Elements(init) + {last};
      }
      assert last in Elements(keys);
    } else {
      assert Elements(keys) == {};
    }
  }

  // ----- The capped output buffer

  function Concat(writes: seq<string>): string {
    if writes == [] then "" else Concat(writes[..|writes| - 1]) + writes[|writes| - 1]
  }

  /** What a buffer with this cap holds after these writes. */
  function Capped(writes: seq<string>, max: int): string {
    var all := Concat(writes);
    if max <= 0 || |all| <= max then all else all[..max]
  }

  /** Whether it reports truncation: output was lost, or a write of nothing met a full buffer. */
  ghost predicate ReportsTruncation(writes: seq<string>, max: int) {
    max > 0 && (|Concat(writes)| > max || exists i | 0 <= i < |writes| :: |Concat(writes[..i])| >= max)
  }

  class LimitedBuffer {
    var buf: string
    const max: int
    var truncated: bool
    ghost var writes: seq<string>

    ghost predicate Valid()
      reads this
    {
      buf == Capped(writes, max) && (truncated <==> ReportsTruncation(writes, max))
    }

    constructor (max: int)
      ensures Valid() && this.max == max && writes == []
    {
      this.max := max;
      buf, truncated, writes := "", false, [];
    }

    method Write(p: string) returns (n: nat)
      requires Valid()
      modifies this
      ensures Valid() && writes == old(writes) + [p]
      ensures n == |p|
    {
      writes := writes + [p];
      WriteExtends(old(writes), p, max);
      if max <= 0 {
        buf := buf + p;
        return |p|;
      }
      var remaining := max - |buf|;
      if remaining <= 0 {
        truncated := true;
        return |p|;
      }
      if |p| <= remaining {
        buf := buf + p;
        return |p|;
      }
      buf := buf + p[..remaining];
      truncated := true;
      return |p|;
    }

    /** What the caller is shown: the capture, and a marker when it is not all there was. */
    method String() returns (s: string)
      requires Valid()
      ensures s == Capped(writes, max) + (if ReportsTruncation(writes, max) then "\n... output truncated" else "")
    {
      s := buf;
      if truncated {
        s := s + "\n... output truncated";
      }
    }
  }

  lemma WriteExtends(writes: seq<string>, p: string, max: int)
    ensures Concat(writes + [p]) == Concat(writes) + p
    ensures max > 0 ==>
      (ReportsTruncation(writes + [p], max) <==>
       ReportsTruncation(writes, max) || |Concat(writes)| + |p| > max || |Concat(writes)| >= max)
  {
    var longer := writes + [p];
    assert longer[..|writes|] == writes;
    forall i | 0 <= i < |writes| ensures longer[..i] == writes[..i] {
    }
    if max > 0 {
      if ReportsTruncation(writes, max) && |Concat(writes)| <= max {
        var i :| 0 <= i < |writes| && |Concat(writes[..i])| >= max;
        assert |Concat(longer[..i])| >= max;
      }
      if |Concat(writes)| >= max {
        assert |Concat(longer[..|writes|])| >= max;
      }
      if ReportsTruncation(longer, max) && |Concat(longer)| <= max {
        var i :| 0 <= i < |longer| && |Concat(longer[..i])| >= max;
        if i < |writes| {
          assert |Concat(writes[..i])| >= max;
        }
      }
    }
  }

  lemma {:induction false} PrefixIsShorter(writes: seq<string>, i: nat)
    requires i <= |writes|
    ensures |Concat(writes[..i])| <= |Concat(writes)|
  {
    if i < |writes| {
      var init := writes[..|writes| - 1];
      PrefixIsShorter(init, i);
      assert init[..i] == writes[..i];
    } else {
      assert writes[..i] == writes;
    }
  }

  /** What is kept is the beginning of the output, as much of it as fits. */
  lemma CappedIsPrefix(writes: seq<string>, max: int)
    ensures Capped(writes, max) <= Concat(writes)
    ensures |Capped(writes, max)| == if 0 < max < |Concat(writes)| then max else |Concat(writes)|
  {
  }

  /** Output was dropped. */
  predicate OutputLost(writes: seq<string>, max: int) { max > 0 && |Concat(writes)| > max }

  /** The last write was empty and met a buffer that was exactly full. */
  predicate EndsEmptyWhenFull(writes: seq<string>, max: int) {
    max > 0 && writes != [] && writes[|writes| - 1] == "" && |Concat(writes)| == max
  }

  /** When the report can be trusted: it says that output was dropped, and exactly that, unless the last
      write was empty and the output fills the buffer to the byte. */
  lemma TruncationExact(writes: seq<string>, max: int)
    ensures (ReportsTruncation(writes, max) <==> OutputLost(writes, max)) <==> !EndsEmptyWhenFull(writes, max)
  {
    if writes != [] && max > 0 {
      var init, last := writes[..|writes| - 1], writes[|writes| - 1];
      assert Concat(writes) == Concat(init) + last;
      if ReportsTruncation(writes, max) && !OutputLost(writes, max) {
        var i :| 0 <= i < |writes| && |Concat(writes[..i])| >= max;
        PrefixIsShorter(init, i);
        assert init[..i] == writes[..i];
      }
    }
  }

  /** The exception occurs: nothing is dropped here. */
  lemma EmptyWriteIsReported()
    ensures ReportsTruncation(["a", ""], 1) && |Concat(["a", ""])| == 1 && !OutputLost(["a", ""], 1)
  {
    var writes := ["a", ""];
    assert writes[..1] == ["a"] && ["a"][..0] == [];
    assert Concat(["a"]) == "a";
    assert Concat(writes[..1]) == "a";
  }

  /** Without empty writes the report is exact: it says that bytes were dropped. */
  lemma TruncationIsLoss(writes: seq<string>, max: int)
    requires max > 0 && forall w | w in writes :: w != ""
    ensures ReportsTruncation(writes, max) <==> |Concat(writes)| > max
  {
    TruncationExact(writes, max);
    if writes != [] {
      assert writes[|writes| - 1] in writes;
    }
  }
}
