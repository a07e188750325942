/** From CLI parameters to the properties of a tool's JSON schema: every parameter gets a key of its
    own, and every key leads back to its flag. */
module McpSchema {
  import opened Prelude
  import opened StringOrder

  /** A CLI parameter. `property` stands for the JSON schema that describes its value. */
  datatype Param = Param(name: string, short: string, long: string, group: string, namespace: string,
                         required: bool, isPositional: bool, property: string)

  datatype Schema = Schema(properties: map<string, string>, required: seq<string>)

  // ----- Names and keys

  predicate IsSpace(c: char) { c in " \t\n\r" || c == 11 as char || c == 12 as char }

  function TrimLeft(s: string): string { if s != "" && IsSpace(s[0]) then TrimLeft(s[1..]) else s }

  function TrimRight(s: string): string {
    if s != "" && IsSpace(s[|s| - 1]) then TrimRight(s[..|s| - 1]) else s
  }

  function TrimSpace(s: string): string { TrimRight(TrimLeft(s)) }

  /** The JSON name of a parameter. */
  function ParamName(p: Param): string {
    if p.isPositional then TrimSpace(p.name)
    else if p.long != "" then p.long
    else if p.name != "" then p.name
    else p.short
  }

  /** Trimming takes white space off both ends and nothing else. */
  lemma TrimSpaceExact(s: string) returns (left: string, right: string)
    ensures s == left + TrimSpace(s) + right
    ensures (forall i | 0 <= i < |left| :: IsSpace(left[i])) && forall i | 0 <= i < |right| :: IsSpace(right[i])
    ensures
      var t := TrimSpace(s);
      t != "" ==> !IsSpace(t[0]) && !IsSpace(t[|t| - 1])
  {
    left := TrimLeftExact(s);
    right := TrimRightExact(TrimLeft(s));
  }

  lemma {:induction false} TrimLeftExact(s: string) returns (left: string)
    ensures s == left + TrimLeft(s) && forall i | 0 <= i < |left| :: IsSpace(left[i])
    ensures TrimLeft(s) != "" ==> !IsSpace(TrimLeft(s)[0])
  {
    if s != "" && IsSpace(s[0]) {
      left := TrimLeftExact(s[1..]);
      left := [s[0]] + left;
    } else {
      left := "";
    }
  }

  lemma {:induction false} TrimRightExact(s: string) returns (right: string)
    ensures s == TrimRight(s) + right && forall i | 0 <= i < |right| :: IsSpace(right[i])
    ensures TrimRight(s) != "" ==> !IsSpace(TrimRight(s)[|TrimRight(s)| - 1])
  {
    if s != "" && IsSpace(s[|s| - 1]) {
      right := TrimRightExact(s[..|s| - 1]);
      right := right + [s[|s| - 1]];
    } else {
      right := "";
    }
  }

  /** Which of its names a parameter goes by: the trimmed name of a positional, and otherwise the long
      flag before the name before the short flag. */
  lemma ParamNameExact(p: Param)
    ensures !p.isPositional && p.long != "" ==> ParamName(p) == p.long
    ensures !p.isPositional && p.long == "" && p.name != "" ==> ParamName(p) == p.name
    ensures !p.isPositional && p.long == "" && p.name == "" ==> ParamName(p) == p.short
    ensures p.isPositional ==> ParamName(p) == TrimSpace(p.name)
  {
  }

  predicate IsKeyChar(c: char) { 'a' <= c <= 'z' || '0' <= c <= '9' }

  /** The text built from the characters read so far: letters lowered, runs of anything else folded
      into one underscore, none at the front. */
  function Folded(s: string): string {
    if s == "" then ""
    else
      var init, c := Folded(s[..|s| - 1]), s[|s| - 1];
      if 'A' <= c <= 'Z' then init + [c - 'A' + 'a']
      else if IsKeyChar(c) then init + [c]
      else if init != "" && init[|init| - 1] != '_' then init + "_"
      else init
  }

  function TrimUnderscores(s: string): string {
    if s != "" && s[|s| - 1] == '_' then TrimUnderscores(s[..|s| - 1]) else s
  }

  function Sanitised(s: string): string { TrimUnderscores(Folded(TrimSpace(s))) }

  /** Lower-case letters and digits in groups joined by single underscores. */
  ghost predicate CleanKey(k: string) {
    && (forall i | 0 <= i < |k| :: IsKeyChar(k[i]) || k[i] == '_')
    && (forall i | 0 <= i < |k| - 1 :: !(k[i] == '_' && k[i + 1] == '_'))
    && (k != "" ==> k[0] != '_' && k[|k| - 1] != '_')
  }

  ghost predicate AlmostClean(k: string) {
    && (forall i | 0 <= i < |k| :: IsKeyChar(k[i]) || k[i] == '_')
    && (forall i | 0 <= i < |k| - 1 :: !(k[i] == '_' && k[i + 1] == '_'))
    && (k != "" ==> k[0] != '_')
  }

  lemma {:induction false} FoldedIsAlmostClean(s: string)
    ensures AlmostClean(Folded(s))
  {
    if s != "" {
      FoldedIsAlmostClean(s[..|s| - 1]);
    }
  }

  lemma {:induction false} TrimmedIsClean(k: string)
    requires AlmostClean(k)
    ensures CleanKey(TrimUnderscores(k))
  {
    if k != "" && k[|k| - 1] == '_' {
      TrimmedIsClean(k[..|k| - 1]);
    }
  }

  function Lowered(c: char): char { if 'A' <= c <= 'Z' then c - 'A' + 'a' else c }

  /** The letters and digits of a text, lowered, in order. */
  function Letters(s: string): string {
    if s == "" then ""
    else
      var init, c := Letters(s[..|s| - 1]), Lowered(s[|s| - 1]);
      if IsKeyChar(c) then init + [c] else init
  }

  lemma {:induction false} LettersOfConcat(a: string, b: string)
    ensures Letters(a + b) == Letters(a) + Letters(b)
  {
    if b == "" {
      assert a + b == a;
    } else {
      assert (a + b)[..|a + b| - 1] == a + b[..|b| - 1];
      LettersOfConcat(a, b[..|b| - 1]);
    }
  }

  lemma {:induction false} NoLetters(s: string)
    requires forall i | 0 <= i < |s| :: !IsKeyChar(Lowered(s[i]))
    ensures Letters(s) == ""
  {
    if s != "" {
      NoLetters(s[..|s| - 1]);
    }
  }

  lemma {:induction false} FoldedKeepsLetters(s: string)
    ensures Letters(Folded(s)) == Letters(s)
  {
    if s != "" {
      FoldedKeepsLetters(s[..|s| - 1]);
    }
  }

  lemma {:induction false} TrimKeepsLetters(k: string)
    ensures Letters(TrimUnderscores(k)) == Letters(k)
  {
    if k != "" && k[|k| - 1] == '_' {
      TrimKeepsLetters(k[..|k| - 1]);
    }
  }

  /** Sanitising keeps every letter and digit, lowered, in order. */
  lemma SanitisedKeepsLetters(s: string)
    ensures Letters(Sanitised(s)) == Letters(s)
  {
    var t := TrimSpace(s);
    var left, right := TrimSpaceExact(s);
    NoLetters(left);
    NoLetters(right);
    LettersOfConcat(left, t);
    LettersOfConcat(left + t, right);
    FoldedKeepsLetters(t);
    TrimKeepsLetters(Folded(t));
  }

  lemma {:induction false} FoldedOfAlmostClean(k: string)
    requires AlmostClean(k)
    ensures Folded(k) == k
  {
    if k != "" {
      var init, c := k[..|k| - 1], k[|k| - 1];
      assert AlmostClean(init);
      FoldedOfAlmostClean(init);
      LastPair(k);
      assert IsKeyChar(c) || c == '_';
      assert k == init + [c];
    }
  }

  lemma LastPair(k: string)
    requires AlmostClean(k) && k != ""
    ensures k[|k| - 1] == '_' ==> |k| > 1 && k[|k| - 2] != '_'
  {
    if |k| > 1 {
      var i := |k| - 2;
      assert k[i + 1] == k[|k| - 1];
    }
  }

  /** A key that is clean already stays as it is. */
  lemma CleanIsUnchanged(k: string)
    requires CleanKey(k)
    ensures Sanitised(k) == k
  {
    FoldedOfAlmostClean(k);
  }

  ghost predicate StartsWithLetter(s: string) { s != "" && IsKeyChar(Lowered(s[0])) }
  ghost predicate EndsWithLetter(s: string) { s != "" && IsKeyChar(Lowered(s[|s| - 1])) }

  lemma {:induction false} FoldedOfRun(a: string, x: string)
    requires EndsWithLetter(a) && forall i | 0 <= i < |x| :: !IsKeyChar(Lowered(x[i]))
    ensures Folded(a + x) == Folded(a) + (if x == "" then "" else "_")
  {
    if x == "" {
      assert a + x == a;
    } else {
      assert (a + x)[..|a + x| - 1] == a + x[..|x| - 1];
      FoldedOfRun(a, x[..|x| - 1]);
    }
  }

  /** One more character of the text. */
  function Step(f: string, c: char): string {
    if IsKeyChar(Lowered(c)) then f + [Lowered(c)] else if f != "" && f[|f| - 1] != '_' then f + "_" else f
  }

  lemma {:induction false} FoldedOneMore(s: string, c: char)
    ensures Folded(s + [c]) == Step(Folded(s), c)
  {
    assert (s + [c])[..|s + [c]| - 1] == s;
  }

  lemma StepAfter(front: string, f: string, c: char)
    requires f != ""
    ensures Step(front + f, c) == front + Step(f, c)
  {
    assert (front + f)[|front + f| - 1] == f[|f| - 1];
    assert front + f + [Lowered(c)] == front + (f + [Lowered(c)]) && front + f + "_" == front + (f + "_");
  }

  lemma {:induction false} FoldedOfParts(a: string, x: string, b: string)
    requires EndsWithLetter(a) && x != "" && (forall i | 0 <= i < |x| :: !IsKeyChar(Lowered(x[i])))
    requires StartsWithLetter(b)
    ensures Folded(a + x + b) == Folded(a) + "_" + Folded(b)
    decreases |b|
  {
    if |b| == 1 {
      FoldedOfRun(a, x);
      FoldedOneMore(a + x, b[0]);
      assert a + x + b == a + x + [b[0]];
      FoldedOneMore("", b[0]);
      assert "" + b == b && b == [b[0]];
    } else {
      var init, c := b[..|b| - 1], b[|b| - 1];
      FoldedOfParts(a, x, init);
      FoldedStartsWithLetter(init);
      FoldedOneMore(a + x + init, c);
      FoldedOneMore(init, c);
      StepAfter(Folded(a) + "_", Folded(init), c);
      assert b == init + [c] && a + x + b == a + x + init + [c];
    }
  }

  lemma {:induction false} FoldedStartsWithLetter(s: string)
    requires StartsWithLetter(s)
    ensures Folded(s) != ""
  {
    if |s| > 1 {
      FoldedStartsWithLetter(s[..|s| - 1]);
    }
  }

  lemma {:induction false} SanitisedIsFolded(s: string)
    requires StartsWithLetter(s) && EndsWithLetter(s)
    ensures Sanitised(s) == Folded(s)
  {
    assert TrimSpace(s) == s;
    assert Folded(s) != "" && Folded(s)[|Folded(s)| - 1] != '_';
  }

  /** Words stay apart: whatever stands between two letters or digits becomes one underscore. */
  lemma {:induction false} SanitisedSeparates(a: string, x: string, b: string)
    requires StartsWithLetter(a) && EndsWithLetter(a) && StartsWithLetter(b) && EndsWithLetter(b)
    requires x != "" && forall i | 0 <= i < |x| :: !IsKeyChar(Lowered(x[i]))
    ensures Sanitised(a + x + b) == Sanitised(a) + "_" + Sanitised(b)
  {
    FoldedOfParts(a, x, b);
    SanitisedIsFolded(a);
    SanitisedIsFolded(b);
    var s := a + x + b;
    assert s[0] == a[0] && s[|s| - 1] == b[|b| - 1];
    SanitisedIsFolded(s);
  }

  method SanitiseKey(s: string) returns (key: string)
    ensures key == Sanitised(s)
    ensures CleanKey(key)
  {
    var t := TrimSpace(s);
    if t == "" {
      return "";
    }
    key := "";
    var lastUnderscore := false;
    for i := 0 to |t|
      invariant key == Folded(t[..i])
      invariant lastUnderscore <==> key != "" && key[|key| - 1] == '_'
    {
      assert t[..i + 1][..i] == t[..i];
      var c := t[i];
      if 'A' <= c <= 'Z' {
        key := key + [c - 'A' + 'a'];
        lastUnderscore := false;
      } else if IsKeyChar(c) {
        key := key + [c];
        lastUnderscore := false;
      } else if !lastUnderscore && |key| > 0 {
        key := key + "_";
        lastUnderscore := true;
      }
    }
    assert t[..|t|] == t;
    FoldedIsAlmostClean(t);
    TrimmedIsClean(key);
    key := TrimUnderscores(key);
  }

  /** A number in decimal, as `%d` prints it. */
  function Decimal(n: nat): string {
    if n < 10 then [n as char + '0'] else Decimal(n / 10) + [(n % 10) as char + '0']
  }

  function Numbered(name: string, i: nat): string { name + "__" + Decimal(i) }

  /** The first free numbered key from `i` up to 99. */
  function FirstFree(name: string, i: nat, taken: set<string>): Option<string>
    requires i <= 100
    decreases 100 - i
  {
    if i == 100 then None
    else if Numbered(name, i) !in taken then Some(Numbered(name, i))
    else FirstFree(name, i + 1, taken)
  }

  function CollisionKeyOf(name: string, p: Param, taken: set<string>): Option<string> {
    var byNamespace := Sanitised(p.namespace) + "__" + name;
    var byGroup := Sanitised(p.group) + "__" + name;
    if byNamespace !in taken then Some(byNamespace)
    else if byGroup !in taken then Some(byGroup)
    else FirstFree(name, 2, taken)
  }

  /** Which key a colliding parameter gets: the one with its namespace if that is free, then the one with
      its group, then the least free number from 2 to 99, and otherwise none. */
  lemma CollisionKeyExact(name: string, p: Param, taken: set<string>)
    ensures
      var byNamespace, byGroup := Sanitised(p.namespace) + "__" + name, Sanitised(p.group) + "__" + name;
      var key := CollisionKeyOf(name, p, taken);
      if byNamespace !in taken then key == Some(byNamespace)
      else if byGroup !in taken then key == Some(byGroup)
      else
        match key
        case None => forall n: nat | 2 <= n <= 99 :: Numbered(name, n) in taken
        case Some(k) => exists n: nat :: IsLeastFree(name, n, taken, k)
  {
    var byNamespace, byGroup := Sanitised(p.namespace) + "__" + name, Sanitised(p.group) + "__" + name;
    if byNamespace in taken && byGroup in taken {
      FirstFreeIsFree(name, 2, taken);
      FirstFreeIsLeast(name, 2, taken);
    }
  }

  ghost predicate IsLeastFree(name: string, n: nat, taken: set<string>, key: string) {
    && 2 <= n <= 99 && key == Numbered(name, n) && key !in taken
    && forall j: nat | 2 <= j < n :: Numbered(name, j) in taken
  }

  lemma {:induction false} FirstFreeIsLeast(name: string, i: nat, taken: set<string>)
    requires 2 <= i <= 100 && forall j: nat | 2 <= j < i :: Numbered(name, j) in taken
    ensures FirstFree(name, i, taken).Some? ==>
      exists n: nat :: IsLeastFree(name, n, taken, FirstFree(name, i, taken).value)
    decreases 100 - i
  {
    if i < 100 {
      if Numbered(name, i) !in taken {
        assert IsLeastFree(name, i, taken, Numbered(name, i));
      } else {
        FirstFreeIsLeast(name, i + 1, taken);
      }
    }
  }

  /** The number that a text of digits denotes. */
  function Denoted(s: string): int {
    if s == "" then 0 else 10 * Denoted(s[..|s| - 1]) + (s[|s| - 1] as int - '0' as int)
  }

  /** A printed number denotes itself, and has no leading zero. */
  lemma {:induction false} DecimalDenotes(n: nat)
    ensures Denoted(Decimal(n)) == n
    ensures Decimal(n) != "" && (n > 0 ==> Decimal(n)[0] != '0')
    ensures forall i | 0 <= i < |Decimal(n)| :: '0' <= Decimal(n)[i] <= '9'
  {
    if n >= 10 {
      DecimalDenotes(n / 10);
      var init := Decimal(n / 10);
      assert Decimal(n)[..|Decimal(n)| - 1] == init;
    }
  }

  method CollisionKey(name: string, p: Param, properties: map<string, string>) returns (key: Option<string>)
    ensures key == CollisionKeyOf(name, p, properties.Keys)
  {
    var namespace := SanitiseKey(p.namespace);
    if namespace + "__" + name !in properties {
      return Some(namespace + "__" + name);
    }
    var group := SanitiseKey(p.group);
    if group + "__" + name !in properties {
      return Some(group + "__" + name);
    }
    for i := 2 to 100
      invariant FirstFree(name, 2, properties.Keys) == FirstFree(name, i, properties.Keys)
    {
      if name + "__" + Decimal(i) !in properties {
        return Some(name + "__" + Decimal(i));
      }
    }
    return None;
  }

  /** The key a parameter gets when `taken` are already given away; None when it is dropped. */
  function KeyFor(p: Param, taken: set<string>): Option<string> {
    var name := ParamName(p);
    if name == "" then None
    else if name !in taken then Some(name)
    else CollisionKeyOf(name, p, taken)
  }

  /** The key of every parameter, in order. */
  ghost function Keys(params: seq<Param>): (keys: seq<Option<string>>)
    ensures |keys| == |params|
  {
    if params == [] then []
    else
      var init := Keys(params[..|params| - 1]);
      init + [KeyFor(params[|params| - 1], Taken(init))]
  }

  ghost function Taken(keys: seq<Option<string>>): set<string> {
    set k | k in keys && k.Some? :: k.value
  }

  // ----- Building the schema

  /** A kept parameter is described under its key, and the key leads back to its flag. */
  ghost predicate ExposedAs(p: Param, key: Option<string>, properties: map<string, string>,
                            nameToFlag: map<string, string>) {
    key.Some? ==>
      && key.value in properties && properties[key.value] == p.property
      && key.value in nameToFlag && nameToFlag[key.value] == ParamName(p)
  }

  ghost predicate Describes(params: seq<Param>, keys: seq<Option<string>>, properties: map<string, string>,
                            nameToFlag: map<string, string>)
    requires |keys| == |params|
  {
    && nameToFlag.Keys == properties.Keys == Taken(keys)
    && forall i | 0 <= i < |params| :: ExposedAs(params[i], keys[i], properties, nameToFlag)
  }

  /** The keys of the parameters that must be given. */
  ghost function RequiredKeys(params: seq<Param>, keys: seq<Option<string>>): set<string>
    requires |keys| == |params|
  {
    set i | 0 <= i < |params| && keys[i].Some? && params[i].required :: keys[i].value
  }

  /** The second result of the schema: every key that was given away leads back to the flag of its
      parameter. */
  ghost predicate MapsBack(params: seq<Param>, nameToFlag: map<string, string>) {
    && nameToFlag.Keys == Taken(Keys(params))
    && forall i | 0 <= i < |params| && Keys(params)[i].Some? ::
         Keys(params)[i].value in nameToFlag && nameToFlag[Keys(params)[i].value] == ParamName(params[i])
  }

  method BuildInputSchema(params: seq<Param>, extras: map<string, string>)
    returns (schema: Schema, nameToFlag: map<string, string>)
    ensures MapsBack(params, nameToFlag)
    ensures schema.properties.Keys == Taken(Keys(params)) + extras.Keys
    ensures forall i | 0 <= i < |params| :: ExposedAs(params[i], Keys(params)[i], schema.properties, nameToFlag)
    ensures forall k | k in extras.Keys - Taken(Keys(params)) :: schema.properties[k] == extras[k]
    ensures Lists(schema.required, RequiredKeys(params, Keys(params)))
  {
    var properties: map<string, string>;
    var required: seq<string>;
    properties, nameToFlag, required := AddParams(params);
    ghost var own := properties;
    properties := AddExtras(properties, extras);
    forall i | 0 <= i < |params| ensures ExposedAs(params[i], Keys(params)[i], properties, nameToFlag) {
      assert ExposedAs(params[i], Keys(params)[i], own, nameToFlag);
    }
    var sorted := SortStrings(required);
    schema := Schema(properties, sorted);
  }

  /** The extra properties are merged in after the parameters; a parameter always wins. */
  method AddExtras(own: map<string, string>, extras: map<string, string>) returns (properties: map<string, string>)
    ensures properties.Keys == own.Keys + extras.Keys
    ensures forall k | k in own :: properties[k] == own[k]
    ensures forall k | k in extras && k !in own :: properties[k] == extras[k]
  {
    properties := own;
    var todo := extras.Keys;
    while todo != {}
      invariant todo <= extras.Keys
      invariant properties.Keys == own.Keys + (extras.Keys - todo)
      invariant forall k | k in own :: properties[k] == own[k]
      invariant forall k | k in extras && k !in todo && k !in own :: properties[k] == extras[k]
    {
      var k :| k in todo;
      todo := todo - {k};
      if k !in properties {
        properties := properties[k := extras[k]];
      }
    }
  }

  /** What the loop has built from the parameters seen so far. */
  ghost predicate Built(params: seq<Param>, properties: map<string, string>, nameToFlag: map<string, string>,
                        required: seq<string>) {
    && Describes(params, Keys(params), properties, nameToFlag)
    && Distinct(required) && Elements(required) == RequiredKeys(params, Keys(params))
  }

  method AddParams(params: seq<Param>)
    returns (properties: map<string, string>, nameToFlag: map<string, string>, required: seq<string>)
    ensures Built(params, properties, nameToFlag, required)
  {
    properties, nameToFlag, required := map[], map[], [];
    BuiltOfNothing(params);
    for n := 0 to |params|
      invariant Built(params[..n], properties, nameToFlag, required)
    {
      BuiltNext(params, n, properties, nameToFlag, required);
      properties, nameToFlag, required := AddParam(params[n], properties, nameToFlag, required);
    }
    assert params[..|params|] == params;
  }

  lemma {:induction false} BuiltOfNothing(params: seq<Param>)
    ensures Built(params[..0], map[], map[], [])
  {
    assert params[..0] == [] && Keys([]) == [];
  }

  lemma {:induction false} BuiltNext(params: seq<Param>, n: nat, properties: map<string, string>,
                                     nameToFlag: map<string, string>, required: seq<string>)
    requires n < |params| && Built(params[..n], properties, nameToFlag, required)
    ensures
      var p := params[n];
      match KeyFor(p, properties.Keys)
      case None => Built(params[..n + 1], properties, nameToFlag, required)
      case Some(key) =>
        Built(params[..n + 1], properties[key := p.property], nameToFlag[key := ParamName(p)],
              if p.required then required + [key] else required)
  {
    BuiltLonger(params[..n], params[n], properties, nameToFlag, required);
    assert params[..n + 1] == params[..n] + [params[n]];
  }

  lemma {:induction false} BuiltLonger(init: seq<Param>, p: Param, properties: map<string, string>,
                                       nameToFlag: map<string, string>, required: seq<string>)
    requires Built(init, properties, nameToFlag, required)
    ensures
      match KeyFor(p, properties.Keys)
      case None => Built(init + [p], properties, nameToFlag, required)
      case Some(key) =>
        Built(init + [p], properties[key := p.property], nameToFlag[key := ParamName(p)],
              if p.required then required + [key] else required)
  {
    KeysOfLonger(init, p);
    DescribesLonger(init, p, properties, nameToFlag);
    RequiredOfLonger(init, p, required);
  }

  method AddParam(p: Param, properties: map<string, string>, nameToFlag: map<string, string>, required: seq<string>)
    returns (properties': map<string, string>, nameToFlag': map<string, string>, required': seq<string>)
    ensures
      match KeyFor(p, properties.Keys)
      case None => properties' == properties && nameToFlag' == nameToFlag && required' == required
      case Some(key) =>
        && properties' == properties[key := p.property]
        && nameToFlag' == nameToFlag[key := ParamName(p)]
        && required' == (if p.required then required + [key] else required)
  {
    properties', nameToFlag', required' := properties, nameToFlag, required;
    var name := ParamName(p);
    if name == "" {
      return;
    }
    var key := Some(name);
    if name in properties {
      key := CollisionKey(name, p, properties);
      if key.None? {
        return;
      }
    }
    properties' := properties[key.value := p.property];
    nameToFlag' := nameToFlag[key.value := name];
    if p.required {
      required' := required + [key.value];
    }
  }

  lemma KeysOfLonger(init: seq<Param>, p: Param)
    ensures Keys(init + [p]) == Keys(init) + [KeyFor(p, Taken(Keys(init)))]
  {
    assert (init + [p])[..|init|] == init;
  }

  lemma TakenOfLonger(keys: seq<Option<string>>, key: Option<string>)
    ensures Taken(keys + [key]) == Taken(keys) + (if key.Some? then {key.value} else {})
  {
    var longer := keys + [key];
    forall k | k in Taken(keys) + (if key.Some? then {key.value} else {}) ensures k in Taken(longer) {
      assert Some(k) in longer;
    }
    forall k | k in Taken(longer) ensures k in Taken(keys) + (if key.Some? then {key.value} else {}) {
      assert Some(k) in longer;
      assert Some(k) in keys || Some(k) == key;
    }
  }

  lemma DescribesLonger(init: seq<Param>, p: Param, properties: map<string, string>, nameToFlag: map<string, string>)
    requires Describes(init, Keys(init), properties, nameToFlag)
    ensures
      var keys := Keys(init) + [KeyFor(p, Taken(Keys(init)))];
      match KeyFor(p, properties.Keys)
      case None => Describes(init + [p], keys, properties, nameToFlag)
      case Some(key) => Describes(init + [p], keys, properties[key := p.property], nameToFlag[key := ParamName(p)])
  {
    var taken := Taken(Keys(init));
    KeyIsFresh(p, taken);
    TakenOfLonger(Keys(init), KeyFor(p, taken));
    forall i | 0 <= i < |init| && Keys(init)[i].Some? ensures Keys(init)[i].value in taken {
      assert Keys(init)[i] in Keys(init);
    }
  }

  lemma RequiredOfLonger(init: seq<Param>, p: Param, due: seq<string>)
    requires Distinct(due) && Elements(due) == RequiredKeys(init, Keys(init))
    ensures
      var key := KeyFor(p, Taken(Keys(init)));
      var due' := if key.Some? && p.required then due + [key.value] else due;
      Distinct(due') && Elements(due') == RequiredKeys(init + [p], Keys(init) + [key])
  {
    var keys, key := Keys(init), KeyFor(p, Taken(Keys(init)));
    var longer := keys + [key];
    KeyIsFresh(p, Taken(keys));
    forall k | k in RequiredKeys(init, keys) ensures k in Taken(keys) && k in RequiredKeys(init + [p], longer) {
      var i :| 0 <= i < |init| && keys[i].Some? && init[i].required && keys[i].value == k;
      assert keys[i] in keys;
      assert longer[i] == keys[i] && (init + [p])[i] == init[i];
    }
    forall k | k in RequiredKeys(init + [p], longer)
      ensures k in RequiredKeys(init, keys) || (key == Some(k) && p.required)
    {
      var i :| 0 <= i < |init + [p]| && longer[i].Some? && (init + [p])[i].required && longer[i].value == k;
      if i < |init| {
        assert keys[i].value == k && init[i].required;
      }
    }
    if key.Some? && p.required {
      assert longer[|init|] == key && (init + [p])[|init|] == p;
      assert key.value in RequiredKeys(init + [p], longer);
      assert key.value !in Elements(due);
      assert Elements(due + [key.value]) == Elements(due) + {key.value};
    }
  }

  // ----- Every parameter its own key

  lemma {:induction false} FirstFreeIsFree(name: string, i: nat, taken: set<string>)
    requires i <= 100
    ensures FirstFree(name, i, taken).Some? ==> FirstFree(name, i, taken).value !in taken
    ensures FirstFree(name, i, taken).None? ==> forall j | i <= j < 100 :: Numbered(name, j) in taken
    decreases 100 - i
  {
    if i < 100 {
      FirstFreeIsFree(name, i + 1, taken);
    }
  }

  lemma {:induction false} KeptAreNamed(params: seq<Param>, i: nat)
    requires i < |params| && Keys(params)[i].Some?
    ensures ParamName(params[i]) != ""
  {
    var init := params[..|params| - 1];
    if i < |init| {
      KeptAreNamed(init, i);
    }
  }

  lemma KeyIsFresh(p: Param, taken: set<string>)
    ensures KeyFor(p, taken).Some? ==> KeyFor(p, taken).value !in taken
  {
    FirstFreeIsFree(ParamName(p), 2, taken);
  }

  /** No two kept parameters share a key, and every key leads back to its own flag. */
  lemma {:induction false} KeysAreInjective(params: seq<Param>, i: nat, j: nat)
    requires i < j < |params|
    ensures Keys(params)[i].Some? ==> Keys(params)[i] != Keys(params)[j]
    decreases |params|
  {
    var n := |params| - 1;
    assert params == params[..n] + [params[n]];
    KeysOfLonger(params[..n], params[n]);
    var init := Keys(params[..n]);
    if j < n {
      KeysAreInjective(params[..n], i, j);
    } else {
      KeyIsFresh(params[n], Taken(init));
      assert init[i] in init;
    }
  }

  // ----- How many parameters are always kept

  lemma {:induction false} DecimalIsInjective(i: nat, j: nat)
    requires Decimal(i) == Decimal(j)
    ensures i == j
  {
    var a, b := Decimal(i), Decimal(j);
    if i >= 10 && j >= 10 {
      assert a[..|a| - 1] == Decimal(i / 10) && b[..|b| - 1] == Decimal(j / 10);
      DecimalIsInjective(i / 10, j / 10);
      DigitIsInjective(i % 10, j % 10);
    } else {
      DecimalLength(i);
      DecimalLength(j);
      DigitIsInjective(i % 10, j % 10);
    }
  }

  lemma DecimalLength(n: nat)
    ensures |Decimal(n)| >= 1 && (|Decimal(n)| == 1 <==> n < 10)
    ensures Decimal(n)[|Decimal(n)| - 1] == (n % 10) as char + '0'
  {
    if n >= 10 {
      DecimalLength(n / 10);
    }
  }

  lemma DigitIsInjective(a: nat, b: nat)
    requires a < 10 && b < 10 && a as char + '0' == b as char + '0'
    ensures a == b
  {
  }

  lemma NumberedIsInjective(name: string, i: nat, j: nat)
    requires Numbered(name, i) == Numbered(name, j)
    ensures i == j
  {
    var prefix := name + "__";
    assert Numbered(name, i)[|prefix|..] == Decimal(i) && Numbered(name, j)[|prefix|..] == Decimal(j);
    DecimalIsInjective(i, j);
  }

  /** `n` numbered keys, from 2 on. */
  ghost function NumberedKeys(name: string, n: nat): set<string> {
    if n == 0 then {} else NumberedKeys(name, n - 1) + {Numbered(name, n + 1)}
  }

  lemma {:induction false} NumberedKeysAre(name: string, n: nat, k: string)
    ensures k in NumberedKeys(name, n) <==> exists j: nat :: 2 <= j < n + 2 && k == Numbered(name, j)
  {
    if n > 0 {
      NumberedKeysAre(name, n - 1, k);
    }
  }

  lemma NotYetNumbered(name: string, m: nat)
    requires m >= 2
    ensures Numbered(name, m) != name
    ensures Numbered(name, m) !in NumberedKeys(name, m - 2)
  {
    NumberedKeysAre(name, m - 2, Numbered(name, m));
    assert |Numbered(name, m)| > |name|;
    if Numbered(name, m) in NumberedKeys(name, m - 2) {
      var j: nat :| 2 <= j < m && Numbered(name, m) == Numbered(name, j);
      NumberedIsInjective(name, m, j);
      assert false;
    }
  }

  lemma {:induction false} CountNumberedKeys(name: string, n: nat)
    ensures |NumberedKeys(name, n) + {name}| == n + 1
    ensures name !in NumberedKeys(name, n)
  {
    if n > 0 {
      CountNumberedKeys(name, n - 1);
      NotYetNumbered(name, n + 1);
      assert NumberedKeys(name, n) + {name} == NumberedKeys(name, n - 1) + {name} + {Numbered(name, n + 1)};
    }
  }

  lemma {:induction false} AtMostOneKeyEach(params: seq<Param>)
    ensures |Taken(Keys(params))| <= |params|
  {
    if params != [] {
      var init, p := params[..|params| - 1], params[|params| - 1];
      AtMostOneKeyEach(init);
      TakenOfLonger(Keys(init), KeyFor(p, Taken(Keys(init))));
    }
  }

  /** Pigeonhole: refusing a parameter takes its own name and all 98 numbered keys. */
  lemma RefusalNeeds99(p: Param, taken: set<string>)
    requires ParamName(p) != "" && KeyFor(p, taken).None?
    ensures |taken| >= 99
  {
    var name := ParamName(p);
    FirstFreeIsFree(name, 2, taken);
    var used := NumberedKeys(name, 98) + {name};
    forall k | k in used ensures k in taken {
      NumberedKeysAre(name, 98, k);
    }
    CountNumberedKeys(name, 98);
    SubsetIsNoLarger(used, taken);
  }

  lemma {:induction false} SubsetIsNoLarger(a: set<string>, b: set<string>)
    requires a <= b
    ensures |a| <= |b|
  {
    if a != {} {
      var x :| x in a;
      SubsetIsNoLarger(a - {x}, b - {x});
    }
  }

  lemma {:induction false} NamedAreKept(params: seq<Param>, i: nat)
    requires i < |params| <= 99 && ParamName(params[i]) != ""
    ensures Keys(params)[i].Some?
    decreases |params|
  {
    var init, p := params[..|params| - 1], params[|params| - 1];
    if i < |init| {
      NamedAreKept(init, i);
    } else {
      AtMostOneKeyEach(init);
      if KeyFor(p, Taken(Keys(init))).None? {
        RefusalNeeds99(p, Taken(Keys(init)));
      }
    }
  }

  /** A parameter whose namespace and group give the same key as its first numbered one. */
  ghost predicate Awkward(p: Param) {
    && ParamName(p) != ""
    && Sanitised(p.namespace) + "__" + ParamName(p) == Numbered(ParamName(p), 2)
    && Sanitised(p.group) + "__" + ParamName(p) == Numbered(ParamName(p), 2)
  }

  ghost function Copies(p: Param, n: nat): seq<Param> { seq(n, _ => p) }

  lemma {:induction false} FirstFreeAt(name: string, i: nat, m: nat, taken: set<string>)
    requires i <= m <= 100
    requires forall j: nat | i <= j < m :: Numbered(name, j) in taken
    requires m < 100 ==> Numbered(name, m) !in taken
    ensures FirstFree(name, i, taken) == if m == 100 then None else Some(Numbered(name, m))
    decreases m - i
  {
    if i < m {
      FirstFreeAt(name, i + 1, m, taken);
    }
  }

  /** After `n` copies, the next one gets the next numbered key, and after 99 it gets none. */
  lemma NextCopy(p: Param, n: nat)
    requires Awkward(p) && 1 <= n <= 99
    ensures KeyFor(p, {ParamName(p)} + NumberedKeys(ParamName(p), n - 1))
            == if n == 99 then None else Some(Numbered(ParamName(p), n + 1))
  {
    var name := ParamName(p);
    forall j: nat | 2 <= j < n + 1 ensures Numbered(name, j) in NumberedKeys(name, n - 1) {
      NumberedKeysAre(name, n - 1, Numbered(name, j));
    }
    NotYetNumbered(name, n + 1);
    FirstFreeAt(name, 2, n + 1, {name} + NumberedKeys(name, n - 1));
  }

  lemma {:induction false} CopiesExhaustKeys(p: Param, n: nat)
    requires Awkward(p) && 1 <= n <= 99
    ensures Taken(Keys(Copies(p, n))) == {ParamName(p)} + NumberedKeys(ParamName(p), n - 1)
  {
    var init := Copies(p, n - 1);
    assert Copies(p, n) == init + [p];
    KeysOfLonger(init, p);
    TakenOfLonger(Keys(init), KeyFor(p, Taken(Keys(init))));
    if n == 1 {
      assert Keys(init) == [];
    } else {
      CopiesExhaustKeys(p, n - 1);
      NextCopy(p, n - 1);
    }
  }

  const AWKWARD := Param("", "", "2", "2", "2", false, false, "")

  lemma AwkwardExists()
    ensures Awkward(AWKWARD) && ParamName(AWKWARD) == "2"
  {
    assert TrimSpace("2") == "2";
    assert Folded("2") == "2";
    assert Decimal(2) == "2";
  }

  /** Every list of at most `n` parameters keeps all its named ones. */
  ghost predicate KeepsAllNamed(n: nat) {
    forall params: seq<Param>, i: nat ::
      i < |params| <= n && ParamName(params[i]) != "" ==> Keys(params)[i].Some?
  }

  /** Ninety-nine is the exact number of parameters up to which nothing named is ever dropped. */
  lemma {:induction false} NothingDroppedExactlyUpTo99(n: nat)
    ensures KeepsAllNamed(n) <==> n <= 99
  {
    if n <= 99 {
      forall params: seq<Param>, i: nat | i < |params| <= n && ParamName(params[i]) != ""
        ensures Keys(params)[i].Some?
      {
        NamedAreKept(params, i);
      }
    } else {
      AwkwardExists();
      var params := Copies(AWKWARD, 99) + [AWKWARD];
      CopiesExhaustKeys(AWKWARD, 99);
      NextCopy(AWKWARD, 99);
      KeysOfLonger(Copies(AWKWARD, 99), AWKWARD);
      assert Keys(params)[99].None? && ParamName(params[99]) != "";
    }
  }
}
