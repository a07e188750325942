/** How the monitor picks a larger instance type, and why a chain of such picks ends. */
module InstanceLadder {
  import opened Prelude
  import opened MonitorSizing
  import PebbleSizing

  datatype InstanceType = InstanceType(name: string, memoryGiB: real)

  datatype SizeError = FamilyNotFound | FamilyCannotBeSized | FamilyNotListed | SizingExhausted

  /** The prefix shared by the types of a family: `r7a.` on AWS, `n2-standard-` on GCP. */
  function Family(currentType: string, backend: PebbleSizing.Backend): Option<string> {
    if backend.Aws? then
      if '.' !in currentType then None else Some(Split(currentType, '.')[0] + ".")
    else
      var parts := Split(currentType, '-');
      if |parts| != 3 then None else Some(parts[0] + "-" + parts[1] + "-")
  }

  /** The types a resize may choose from. */
  predicate Candidate(t: InstanceType, family: string, maxRamGB: int) {
    t.memoryGiB <= maxRamGB as real && HasPrefix(t.name, family)
  }

  ghost predicate SortedByRam(s: seq<InstanceType>) {
    forall i, j | 0 <= i < j < |s| :: s[i].memoryGiB <= s[j].memoryGiB
  }

  lemma InsertKeepsOrder(s: seq<InstanceType>, j: nat, x: InstanceType)
    requires SortedByRam(s) && j <= |s|
    requires j > 0 ==> s[j - 1].memoryGiB <= x.memoryGiB
    requires forall k | j <= k < |s| :: x.memoryGiB < s[k].memoryGiB
    ensures SortedByRam(s[..j] + [x] + s[j..])
  {
    var r := s[..j] + [x] + s[j..];
    forall a, b | 0 <= a < b < |r| ensures r[a].memoryGiB <= r[b].memoryGiB {
      var a', b' := if a > j then a - 1 else a, if b > j then b - 1 else b;
      assert a != j ==> r[a] == s[a'];
      assert b != j ==> r[b] == s[b'];
    }
  }

  method InsertByRam(sorted: seq<InstanceType>, x: InstanceType) returns (longer: seq<InstanceType>)
    requires SortedByRam(sorted)
    ensures SortedByRam(longer)
    ensures multiset(longer) == multiset(sorted) + multiset{x}
  {
    var j := |sorted|;
    while j > 0 && sorted[j - 1].memoryGiB > x.memoryGiB
      invariant 0 <= j <= |sorted|
      invariant forall k | j <= k < |sorted| :: x.memoryGiB < sorted[k].memoryGiB
    {
      j := j - 1;
    }
    InsertKeepsOrder(sorted, j, x);
    assert sorted == sorted[..j] + sorted[j..];
    longer := sorted[..j] + [x] + sorted[j..];
  }

  /** `sort.Slice` by RAM. It is not stable, so callers learn nothing about the order of ties. */
  method SortByRam(types: seq<InstanceType>) returns (sorted: seq<InstanceType>)
    ensures SortedByRam(sorted)
    ensures multiset(sorted) == multiset(types)
  {
    sorted := [];
    for i := 0 to |types|
      invariant SortedByRam(sorted)
      invariant multiset(sorted) == multiset(types[..i])
    {
      assert types[..i + 1] == types[..i] + [types[i]];
      sorted := InsertByRam(sorted, types[i]);
    }
    assert types[..|types|] == types;
  }

  /** A candidate that satisfies the demand with the least RAM possible. */
  ghost predicate LeastType(types: seq<InstanceType>, family: string, maxRamGB: int, required: int, t: InstanceType) {
    && t in types && Candidate(t, family, maxRamGB) && t.memoryGiB >= required as real
    && forall u | u in types :: Candidate(u, family, maxRamGB) && u.memoryGiB >= required as real ==>
         t.memoryGiB <= u.memoryGiB
  }

  /** A candidate that no candidate exceeds. */
  ghost predicate GreatestType(types: seq<InstanceType>, family: string, maxRamGB: int, t: InstanceType) {
    && t in types && Candidate(t, family, maxRamGB)
    && forall u | u in types :: Candidate(u, family, maxRamGB) ==> u.memoryGiB <= t.memoryGiB
  }

  ghost predicate IsLeast(types: seq<InstanceType>, family: string, maxRamGB: int, required: int, name: string) {
    exists t :: LeastType(types, family, maxRamGB, required, t) && t.name == name
  }

  ghost predicate IsGreatest(types: seq<InstanceType>, family: string, maxRamGB: int, name: string) {
    exists t :: GreatestType(types, family, maxRamGB, t) && t.name == name
  }

  ghost predicate Satisfiable(types: seq<InstanceType>, family: string, maxRamGB: int, required: int) {
    exists t :: t in types && Candidate(t, family, maxRamGB) && t.memoryGiB >= required as real
  }

  ghost predicate HasCandidate(types: seq<InstanceType>, family: string, maxRamGB: int) {
    exists t :: t in types && Candidate(t, family, maxRamGB)
  }

  /** What a call of `sizeInstanceType` may answer, stated over the set of types alone. */
  ghost predicate SizeAnswer(types: seq<InstanceType>, currentType: string, required: int, maxRamGB: int,
                             backend: PebbleSizing.Backend, name: string, err: Option<SizeError>) {
    match Family(currentType, backend)
    case None =>
      name == currentType && err == Some(if backend.Aws? then FamilyNotFound else FamilyCannotBeSized)
    case Some(family) =>
      if !HasCandidate(types, family, maxRamGB) then name == currentType && err == Some(FamilyNotListed)
      else if Satisfiable(types, family, maxRamGB, required) then
        err == None && IsLeast(types, family, maxRamGB, required, name)
      else err == Some(SizingExhausted) && IsGreatest(types, family, maxRamGB, name)
  }

  // ----- The same without the prefix

  ghost predicate IsGcpName(name: string, p: string, q: string, r: string) {
    '-' !in p && '-' !in q && '-' !in r && name == p + "-" + q + "-" + r
  }

  /** The monitor can size this type: on AWS its name has a dot, on GCP exactly three parts. */
  ghost predicate Sizable(name: string, backend: PebbleSizing.Backend) {
    if backend.Aws? then '.' in name else exists p, q, r :: IsGcpName(name, p, q, r)
  }

  ghost predicate SharesAwsHead(name: string, other: string, head: string) {
    '.' !in head && head + "." <= name && head + "." <= other
  }

  ghost predicate SharesGcpHead(name: string, other: string, p: string, q: string, r: string) {
    IsGcpName(name, p, q, r) && p + "-" + q + "-" <= other
  }

  /** `other` is of the family of `name`: the same text before the first dot on AWS, the same first two
      parts on GCP. */
  ghost predicate Sibling(name: string, other: string, backend: PebbleSizing.Backend) {
    if backend.Aws? then exists head :: SharesAwsHead(name, other, head)
    else exists p, q, r :: SharesGcpHead(name, other, p, q, r)
  }

  /** The types a resize of `name` may choose from: the siblings within the cap. */
  ghost predicate Choice(types: seq<InstanceType>, name: string, maxRamGB: int, backend: PebbleSizing.Backend,
                         t: InstanceType) {
    t in types && t.memoryGiB <= maxRamGB as real && Sibling(name, t.name, backend)
  }

  /** The answer over exactly those: least RAM among the large enough, or greatest RAM with an error. */
  ghost predicate SiblingAnswer(types: seq<InstanceType>, currentType: string, required: int, maxRamGB: int,
                                backend: PebbleSizing.Backend, name: string, err: Option<SizeError>) {
    if !Sizable(currentType, backend) then
      name == currentType && err == Some(if backend.Aws? then FamilyNotFound else FamilyCannotBeSized)
    else if !exists t :: Choice(types, currentType, maxRamGB, backend, t) then
      name == currentType && err == Some(FamilyNotListed)
    else if exists t :: Choice(types, currentType, maxRamGB, backend, t) && t.memoryGiB >= required as real then
      && err == None
      && exists t ::
           && Choice(types, currentType, maxRamGB, backend, t) && t.name == name && t.memoryGiB >= required as real
           && forall u | Choice(types, currentType, maxRamGB, backend, u) && u.memoryGiB >= required as real ::
                t.memoryGiB <= u.memoryGiB
    else
      && err == Some(SizingExhausted)
      && exists t ::
           && Choice(types, currentType, maxRamGB, backend, t) && t.name == name
           && forall u | Choice(types, currentType, maxRamGB, backend, u) :: u.memoryGiB <= t.memoryGiB
  }

  lemma AwsFamilyIsHead(name: string, head: string, rest: string)
    requires '.' !in head && name == head + "." + rest
    ensures Family(name, PebbleSizing.Aws) == Some(head + ".")
  {
    assert name[|head|] == '.';
    assert name == head + ['.'] + rest;
    SplitAtFirst(head, '.', rest);
  }

  lemma GcpFamilyIsHead(name: string, p: string, q: string, r: string)
    requires IsGcpName(name, p, q, r)
    ensures Family(name, PebbleSizing.Gcp) == Some(p + "-" + q + "-")
    ensures Family(name, PebbleSizing.Docker) == Some(p + "-" + q + "-")
  {
    assert name == p + ['-'] + (q + ['-'] + r);
    SplitAtFirst(p, '-', q + ['-'] + r);
    SplitAtFirst(q, '-', r);
    SplitWithoutSeparator(r, '-');
  }

  /** A type can be sized exactly when it has a family. */
  lemma SizableExactly(name: string, backend: PebbleSizing.Backend)
    ensures Sizable(name, backend) <==> Family(name, backend).Some?
  {
    if !backend.Aws? {
      if Sizable(name, backend) {
        var p, q, r :| IsGcpName(name, p, q, r);
        GcpFamilyIsHead(name, p, q, r);
      }
      if Family(name, backend).Some? {
        GcpParts(name);
      }
    }
  }

  lemma GcpParts(name: string)
    requires |Split(name, '-')| == 3
    ensures
      var parts := Split(name, '-');
      IsGcpName(name, parts[0], parts[1], parts[2])
  {
    var parts := Split(name, '-');
    JoinOfSplit(name, '-');
    assert parts[0] in parts && parts[1] in parts && parts[2] in parts;
    var tail := parts[1..];
    assert tail[1..] == [parts[2]];
    assert Join(tail, '-') == parts[1] + ['-'] + parts[2];
    assert name == parts[0] + ['-'] + (parts[1] + ['-'] + parts[2]);
    assert name == parts[0] + "-" + parts[1] + "-" + parts[2];
  }

  /** The prefix picks exactly the siblings. */
  lemma SiblingExactly(name: string, other: string, backend: PebbleSizing.Backend)
    requires Family(name, backend).Some?
    ensures HasPrefix(other, Family(name, backend).value) <==> Sibling(name, other, backend)
  {
    var family := Family(name, backend).value;
    FamilyIsPrefix(name, backend);
    if backend.Aws? {
      var head := Split(name, '.')[0];
      assert head in Split(name, '.');
      if HasPrefix(other, family) {
        assert SharesAwsHead(name, other, head);
      }
      if Sibling(name, other, backend) {
        var head' :| SharesAwsHead(name, other, head');
        AwsFamilyIsHead(name, head', name[|head'| + 1..]);
      }
    } else {
      var parts := Split(name, '-');
      GcpParts(name);
      if HasPrefix(other, family) {
        assert SharesGcpHead(name, other, parts[0], parts[1], parts[2]);
      }
      if Sibling(name, other, backend) {
        var p, q, r :| SharesGcpHead(name, other, p, q, r);
        GcpFamilyIsHead(name, p, q, r);
      }
    }
  }

  lemma CandidatesAreChoices(types: seq<InstanceType>, currentType: string, maxRamGB: int,
                             backend: PebbleSizing.Backend)
    requires Family(currentType, backend).Some?
    ensures forall t :: Choice(types, currentType, maxRamGB, backend, t)
                   <==> t in types && Candidate(t, Family(currentType, backend).value, maxRamGB)
  {
    forall t
      ensures Choice(types, currentType, maxRamGB, backend, t)
         <==> t in types && Candidate(t, Family(currentType, backend).value, maxRamGB)
    {
      SiblingExactly(currentType, t.name, backend);
    }
  }

  /** The two statements of the answer agree. */
  lemma AnswerAmongSiblings(types: seq<InstanceType>, currentType: string, required: int, maxRamGB: int,
                            backend: PebbleSizing.Backend, name: string, err: Option<SizeError>)
    requires SizeAnswer(types, currentType, required, maxRamGB, backend, name, err)
    ensures SiblingAnswer(types, currentType, required, maxRamGB, backend, name, err)
  {
    SizableExactly(currentType, backend);
    if Family(currentType, backend).Some? {
      var family := Family(currentType, backend).value;
      CandidatesAreChoices(types, currentType, maxRamGB, backend);
      if HasCandidate(types, family, maxRamGB) && Satisfiable(types, family, maxRamGB, required) {
        var t :| LeastType(types, family, maxRamGB, required, t) && t.name == name;
        assert Choice(types, currentType, maxRamGB, backend, t);
      } else if HasCandidate(types, family, maxRamGB) {
        var t :| GreatestType(types, family, maxRamGB, t) && t.name == name;
        assert Choice(types, currentType, maxRamGB, backend, t);
      }
    }
  }

  method SizeInstanceType(types: seq<InstanceType>, currentType: string, required: int, maxRamGB: int,
                          backend: PebbleSizing.Backend)
    returns (name: string, err: Option<SizeError>)
    ensures SizeAnswer(types, currentType, required, maxRamGB, backend, name, err)
  {
    var family := "";
    if backend.Aws? {
      if '.' !in currentType {
        return currentType, Some(FamilyNotFound);
      }
      family := Split(currentType, '.')[0] + ".";
    } else {
      var parts := Split(currentType, '-');
      if |parts| != 3 {
        return currentType, Some(FamilyCannotBeSized);
      }
      family := parts[0] + "-" + parts[1] + "-";
    }

    var candidates := FilterCandidates(types, family, maxRamGB);
    if |candidates| == 0 {
      return currentType, Some(FamilyNotListed);
    }
    assert candidates[0] in types && Candidate(candidates[0], family, maxRamGB);
    var sorted := SortByRam(candidates);
    SameElements(sorted, candidates);

    name := "";
    for i := 0 to |sorted|
      invariant forall k | 0 <= k < i :: sorted[k].memoryGiB < required as real
      invariant i > 0 ==> name == sorted[i - 1].name
    {
      if sorted[i].memoryGiB >= required as real {
        assert LeastType(types, family, maxRamGB, required, sorted[i]);
        return sorted[i].name, None;
      }
      name := sorted[i].name;
    }
    assert GreatestType(types, family, maxRamGB, sorted[|sorted| - 1]);
    return name, Some(SizingExhausted);
  }

  method FilterCandidates(types: seq<InstanceType>, family: string, maxRamGB: int)
    returns (candidates: seq<InstanceType>)
    ensures forall t :: t in candidates <==> t in types && Candidate(t, family, maxRamGB)
  {
    candidates := [];
    for i := 0 to |types|
      invariant forall t :: t in candidates <==> t in types[..i] && Candidate(t, family, maxRamGB)
    {
      if types[i].memoryGiB > maxRamGB as real {
        continue;
      }
      if HasPrefix(types[i].name, family) {
        candidates := candidates + [types[i]];
      }
    }
    assert types[..|types|] == types;
  }

  lemma SameElements(a: seq<InstanceType>, b: seq<InstanceType>)
    requires multiset(a) == multiset(b)
    ensures |a| == |b|
    ensures forall t :: t in a <==> t in b
  {
    assert |multiset(a)| == |multiset(b)|;
    forall t ensures t in a <==> t in b {
      assert t in a <==> t in multiset(a);
      assert t in b <==> t in multiset(b);
    }
  }

  // ----- One rotation

  /** Instance types are looked up by name; the first one of that name answers. */
  function Lookup(types: seq<InstanceType>, name: string): (r: Option<InstanceType>)
    ensures r.Some? ==> r.value in types && r.value.name == name
    ensures r.None? ==> forall t | t in types :: t.name != name
  {
    if types == [] then None
    else if types[0].name == name then Some(types[0])
    else Lookup(types[1..], name)
  }

  ghost predicate UniqueNames(types: seq<InstanceType>) {
    forall t, u | t in types && u in types && t.name == u.name :: t == u
  }

  datatype Event =
    | ServiceDown(pluginRunning: bool)
    | PreProcessComplete(logSizeBytes: int)
    | ResourceReport(memoryFreeBytes: nat, memoryTotalBytes: nat)

  /** The live-memory test of the default branch: true when nothing needs to be done. */
  predicate HasHeadroom(k: Knobs, ramThresUsedPct: int, free: nat, total: nat) {
    var used := if total > 0 && free > 0 then 1.0 - free as real / total as real else 0.0;
    && free as real / PebbleSizing.GIB as real >= k.ramThresMinFreeGB as real
    && used <= ramThresUsedPct as real / 100.0
  }

  /** A resize without a sizing error: the least candidate of the family above the current RAM
      (for some demand above it). */
  ghost predicate Rotation(types: seq<InstanceType>, maxRamGB: int, backend: PebbleSizing.Backend,
                           from: string, to: string) {
    exists required: int :: RotationFor(types, maxRamGB, backend, required, from, to)
  }

  ghost predicate RotationFor(types: seq<InstanceType>, maxRamGB: int, backend: PebbleSizing.Backend,
                              required: int, from: string, to: string) {
    && Lookup(types, from).Some? && Family(from, backend).Some?
    && required as real > Lookup(types, from).value.memoryGiB
    && IsLeast(types, Family(from, backend).value, maxRamGB, required, to)
  }

  /** The branch that resizes although no candidate is large enough. */
  ghost predicate Exhausted(types: seq<InstanceType>, maxRamGB: int, backend: PebbleSizing.Backend,
                            required: int, from: string, to: string) {
    && Lookup(types, from).Some? && Family(from, backend).Some?
    && required as real > Lookup(types, from).value.memoryGiB
    && !Satisfiable(types, Family(from, backend).value, maxRamGB, required)
    && IsGreatest(types, Family(from, backend).value, maxRamGB, to) && to != from
  }

  /** Whether the event asks for more RAM than a host of `ram` GiB has. */
  ghost predicate WantsResize(k: Knobs, ramThresUsedPct: int, event: Event, ram: real) {
    match event
    case ServiceDown(pluginRunning) => !pluginRunning
    case PreProcessComplete(logSizeBytes) => ram < RequiredRamGB(k, logSizeBytes) as real
    case ResourceReport(free, total) => !HasHeadroom(k, ramThresUsedPct, free, total)
  }

  /** The RAM the event asks for; always more than the host has. */
  ghost function Demand(k: Knobs, event: Event, ram: real): int {
    if event.PreProcessComplete? then RequiredRamGB(k, event.logSizeBytes) else Trunc(ram + 1.0)
  }

  /** The answer to one event. `err` is the error of the sizing call, or None when there was none or no
      call was made. */
  datatype Answer = Answer(resize: bool, newType: string, err: Option<SizeError>)

  /** The live-memory test in whole numbers: enough is free, and no more than the given percentage is used;
      a report without a total or without free memory counts as nothing used. */
  lemma HeadroomExact(k: Knobs, ramThresUsedPct: int, free: nat, total: nat)
    ensures HasHeadroom(k, ramThresUsedPct, free, total) <==>
      && free >= k.ramThresMinFreeGB * 1073741824
      && (if total == 0 || free == 0 then ramThresUsedPct >= 0
          else 100 * (total - free) <= ramThresUsedPct * total)
  {
    assert free as real / 1073741824.0 >= k.ramThresMinFreeGB as real
      <==> free as real >= k.ramThresMinFreeGB as real * 1073741824.0;
    if total > 0 && free > 0 {
      var f, t, p := free as real, total as real, ramThresUsedPct as real;
      UsedShare(f, t, p);
      assert 100.0 * (t - f) == (100 * (total - free)) as real;
      assert p * t == (ramThresUsedPct * total) as real;
    }
  }

  lemma UsedShare(f: real, t: real, p: real)
    requires t > 0.0
    ensures 1.0 - f / t <= p / 100.0 <==> 100.0 * (t - f) <= p * t
  {
    var used := 1.0 - f / t;
    assert used * t == t - f;
    if used <= p / 100.0 {
      assert used * t <= p / 100.0 * t;
    } else {
      assert used * t > p / 100.0 * t;
    }
  }

  /** Without a prediction the monitor asks for the next whole GiB above what the host has. */
  lemma DemandIsNext(k: Knobs, event: Event, ram: real)
    requires !event.PreProcessComplete? && ram >= 0.0
    ensures (Demand(k, event, ram) - 1) as real <= ram < Demand(k, event, ram) as real
  {
  }

  /** Exactly when an event resizes a host, and to what. */
  ghost predicate CheckAnswer(k: Knobs, ramThresUsedPct: int, maxRamGB: int, backend: PebbleSizing.Backend,
                              types: seq<InstanceType>, event: Event, currentType: string, a: Answer) {
    match Lookup(types, currentType)
    case None => !a.resize
    case Some(itype) =>
      if !WantsResize(k, ramThresUsedPct, event, itype.memoryGiB) then !a.resize
      else
        && SizeAnswer(types, currentType, Demand(k, event, itype.memoryGiB), maxRamGB, backend, a.newType, a.err)
        && (a.resize <==> a.err.None? || (event.PreProcessComplete? && a.newType != currentType))
  }

  method CheckRamSizing(k: Knobs, ramThresUsedPct: int, maxRamGB: int, backend: PebbleSizing.Backend,
                        types: seq<InstanceType>, event: Event, currentType: string)
    returns (resize: bool, newType: string, err: Option<SizeError>)
    ensures CheckAnswer(k, ramThresUsedPct, maxRamGB, backend, types, event, currentType, Answer(resize, newType, err))
  {
    newType, err := "", None;
    var itype := Lookup(types, currentType);
    match event {
      case ServiceDown(pluginRunning) =>
        if pluginRunning || itype.None? {
          return false, newType, err;
        }
        newType, err := SizeInstanceType(types, currentType, Trunc(itype.value.memoryGiB + 1.0), maxRamGB, backend);
        if err.Some? {
          return false, newType, err;
        }

      case PreProcessComplete(logSizeBytes) =>
        var required := RequiredRamGB(k, logSizeBytes);
        if itype.None? || itype.value.memoryGiB >= required as real {
          return false, newType, err;
        }
        newType, err := SizeInstanceType(types, currentType, required, maxRamGB, backend);
        if err.Some? && newType == currentType {
          return false, newType, err;
        }

      case ResourceReport(free, total) =>
        if HasHeadroom(k, ramThresUsedPct, free, total) || itype.None? {
          return false, newType, err;
        }
        newType, err := SizeInstanceType(types, currentType, Trunc(itype.value.memoryGiB + 1.0), maxRamGB, backend);
        if err.Some? {
          return false, newType, err;
        }
    }
    resize := true;
  }

  /** When a host is resized, event by event: a plugin that is down, a prediction above what the host has,
      or a report that is short of free memory or over the used share, and a sizing that found a type. */
  lemma ResizeExactly(k: Knobs, ramThresUsedPct: int, maxRamGB: int, backend: PebbleSizing.Backend,
                      types: seq<InstanceType>, event: Event, currentType: string, a: Answer)
    requires CheckAnswer(k, ramThresUsedPct, maxRamGB, backend, types, event, currentType, a)
    requires Lookup(types, currentType).Some?
    ensures
      var ram := Lookup(types, currentType).value.memoryGiB;
      match event
      case ServiceDown(pluginRunning) => a.resize <==> !pluginRunning && a.err.None?
      case PreProcessComplete(bytes) =>
        a.resize <==> ram < RequiredRamGB(k, bytes) as real && (a.err.None? || a.newType != currentType)
      case ResourceReport(free, total) =>
        a.resize <==>
          && (|| free < k.ramThresMinFreeGB * 1073741824
              || (if total == 0 || free == 0 then ramThresUsedPct < 0
                  else 100 * (total - free) > ramThresUsedPct * total))
          && a.err.None?
  {
    if event.ResourceReport? {
      HeadroomExact(k, ramThresUsedPct, event.memoryFreeBytes, event.memoryTotalBytes);
    }
  }

  /** Every resize that the check orders is a rotation upwards, or the exhausted branch. */
  lemma ResizeIsRotationOrExhausted(k: Knobs, ramThresUsedPct: int, maxRamGB: int, backend: PebbleSizing.Backend,
                                    types: seq<InstanceType>, event: Event, currentType: string,
                                    newType: string, err: Option<SizeError>)
    requires Lookup(types, currentType).Some? && Lookup(types, currentType).value.memoryGiB >= 0.0
    requires WantsResize(k, ramThresUsedPct, event, Lookup(types, currentType).value.memoryGiB)
    requires SizeAnswer(types, currentType, Demand(k, event, Lookup(types, currentType).value.memoryGiB),
                        maxRamGB, backend, newType, err)
    ensures err.None? ==> Rotation(types, maxRamGB, backend, currentType, newType)
    ensures err.Some? && newType != currentType ==>
      Exhausted(types, maxRamGB, backend, Demand(k, event, Lookup(types, currentType).value.memoryGiB),
                currentType, newType)
  {
    var demand := Demand(k, event, Lookup(types, currentType).value.memoryGiB);
    assert demand as real > Lookup(types, currentType).value.memoryGiB;
    if err.None? {
      assert RotationFor(types, maxRamGB, backend, demand, currentType, newType);
    }
  }

  // ----- The whole ladder

  lemma {:induction false} FamilyIsPrefix(name: string, backend: PebbleSizing.Backend)
    requires Family(name, backend).Some?
    ensures HasPrefix(name, Family(name, backend).value)
  {
    var sep := if backend.Aws? then '.' else '-';
    var parts := Split(name, sep);
    JoinOfSplit(name, sep);
    if backend.Aws? {
      // A name with a dot splits into at least two parts.
      assert parts[0] in parts && |parts| > 1;
    } else {
      var tail := parts[1..];
      assert tail[1..] == [parts[2]];
      assert Join(tail, '-') == parts[1] + ['-'] + parts[2];
      assert name == parts[0] + ['-'] + (parts[1] + ['-'] + parts[2]);
      assert name == (parts[0] + "-" + parts[1] + "-") + parts[2];
    }
  }

  /** A type reached inside a family can only be sized inside that same family. */
  lemma FamilyIsKept(name: string, next: string, backend: PebbleSizing.Backend)
    requires Family(name, backend).Some? && Family(next, backend).Some?
    requires HasPrefix(next, Family(name, backend).value)
    ensures Family(next, backend) == Family(name, backend)
  {
    var family := Family(name, backend).value;
    var rest := next[|family|..];
    assert next == family + rest;
    if backend.Aws? {
      var parts := Split(name, '.');
      assert parts[0] in parts;
      assert next == parts[0] + ['.'] + rest;
      SplitAtFirst(parts[0], '.', rest);
    } else {
      var parts := Split(name, '-');
      assert parts[0] in parts && parts[1] in parts;
      assert next == parts[0] + ['-'] + (parts[1] + ['-'] + rest);
      SplitAtFirst(parts[0], '-', parts[1] + ['-'] + rest);
      SplitAtFirst(parts[1], '-', rest);
    }
  }

  ghost function Candidates(types: seq<InstanceType>, family: string, maxRamGB: int): set<InstanceType> {
    set t | t in types && Candidate(t, family, maxRamGB)
  }

  /** The candidates a rotation could still move up to. */
  ghost function Above(types: seq<InstanceType>, family: string, maxRamGB: int, ram: real): set<InstanceType> {
    set t | t in types && Candidate(t, family, maxRamGB) && t.memoryGiB > ram
  }

  lemma RotationClimbs(types: seq<InstanceType>, maxRamGB: int, backend: PebbleSizing.Backend, from: string, to: string)
    requires UniqueNames(types) && Rotation(types, maxRamGB, backend, from, to)
    ensures Family(from, backend).Some? && Lookup(types, from).Some? && Lookup(types, to).Some?
    ensures Rises(types, Family(from, backend).value, maxRamGB, from, to)
    ensures Above(types, Family(from, backend).value, maxRamGB, Lookup(types, to).value.memoryGiB)
            < Above(types, Family(from, backend).value, maxRamGB, Lookup(types, from).value.memoryGiB)
  {
    var family := Family(from, backend).value;
    var required: int :| RotationFor(types, maxRamGB, backend, required, from, to);
    var t :| LeastType(types, family, maxRamGB, required, t) && t.name == to;
    assert Lookup(types, to).value == t;
    assert t in Above(types, family, maxRamGB, Lookup(types, from).value.memoryGiB);
    assert t !in Above(types, family, maxRamGB, t.memoryGiB);
  }

  /** `to` is a type of the family with strictly more RAM than `from`, within the cap. */
  ghost predicate Rises(types: seq<InstanceType>, family: string, maxRamGB: int, from: string, to: string) {
    && Lookup(types, from).Some? && Lookup(types, to).Some?
    && Lookup(types, from).value.memoryGiB < Lookup(types, to).value.memoryGiB <= maxRamGB as real
    && HasPrefix(to, family)
  }

  /** A history of host types in which every change was a resize without a sizing error. */
  ghost predicate Climb(types: seq<InstanceType>, maxRamGB: int, backend: PebbleSizing.Backend, hosts: seq<string>) {
    |hosts| >= 1 &&
    forall i | 0 <= i < |hosts| - 1 :: Rotation(types, maxRamGB, backend, hosts[i], hosts[i + 1])
  }

  lemma {:induction false} ClimbIsBounded(types: seq<InstanceType>, maxRamGB: int, backend: PebbleSizing.Backend,
                                           hosts: seq<string>)
    requires UniqueNames(types) && Climb(types, maxRamGB, backend, hosts) && |hosts| > 1
    ensures Family(hosts[0], backend).Some? && Lookup(types, hosts[0]).Some?
    ensures |hosts| - 1 <=
            |Above(types, Family(hosts[0], backend).value, maxRamGB, Lookup(types, hosts[0]).value.memoryGiB)|
    ensures forall i | 0 <= i < |hosts| - 1 ::
      Rises(types, Family(hosts[0], backend).value, maxRamGB, hosts[i], hosts[i + 1])
    decreases |hosts|
  {
    assert Rotation(types, maxRamGB, backend, hosts[0], hosts[0 + 1]);
    RotationClimbs(types, maxRamGB, backend, hosts[0], hosts[1]);
    var family := Family(hosts[0], backend).value;
    var here := Above(types, family, maxRamGB, Lookup(types, hosts[0]).value.memoryGiB);
    var there := Above(types, family, maxRamGB, Lookup(types, hosts[1]).value.memoryGiB);
    SubsetIsSmaller(there, here);
    if |hosts| > 2 {
      var rest := hosts[1..];
      forall i | 0 <= i < |rest| - 1 ensures Rotation(types, maxRamGB, backend, rest[i], rest[i + 1]) {
        assert Rotation(types, maxRamGB, backend, hosts[i + 1], hosts[i + 1 + 1]);
      }
      ClimbIsBounded(types, maxRamGB, backend, rest);
      FamilyIsKept(hosts[0], hosts[1], backend);
      forall i | 0 < i < |hosts| - 1
        ensures Rises(types, family, maxRamGB, hosts[i], hosts[i + 1])
      {
        assert Rises(types, family, maxRamGB, rest[i - 1], rest[i - 1 + 1]);
      }
    }
  }

  /** The branch that need not climb. When no candidate is large enough the monitor still moves to the
      greatest one, and that loses RAM exactly when the host is already above the cap. */
  lemma ExhaustedShrinksExactlyAboveCap(types: seq<InstanceType>, maxRamGB: int, backend: PebbleSizing.Backend,
                                        required: int, from: string, to: string)
    requires UniqueNames(types) && Exhausted(types, maxRamGB, backend, required, from, to)
    ensures Lookup(types, to).Some?
    ensures Lookup(types, to).value.memoryGiB < Lookup(types, from).value.memoryGiB
            <==> Lookup(types, from).value.memoryGiB > maxRamGB as real
  {
    var family := Family(from, backend).value;
    var t :| GreatestType(types, family, maxRamGB, t) && t.name == to;
    assert Lookup(types, to).value == t;
    FamilyIsPrefix(from, backend);
  }

  lemma {:induction false} SubsetIsSmaller<T>(a: set<T>, b: set<T>)
    requires a <= b
    ensures |a| <= |b| && (a < b ==> |a| < |b|)
  {
    if a != {} {
      var x :| x in a;
      SubsetIsSmaller(a - {x}, b - {x});
      if a < b {
        assert a - {x} < b - {x};
      }
    } else if a < b {
      var y :| y in b;
    }
  }

  // ----- Any sequence of events

  /** A monitor with its settings, and the catalogue it picks from. */
  datatype Monitor = Monitor(knobs: Knobs, usedPct: int, maxRamGB: int, backend: PebbleSizing.Backend,
                             types: seq<InstanceType>)
  {
    ghost predicate Valid() { UniqueNames(types) && forall t | t in types :: t.memoryGiB >= 0.0 }

    ghost predicate Answers(event: Event, host: string, a: Answer) {
      CheckAnswer(knobs, usedPct, maxRamGB, backend, types, event, host, a)
    }

    /** The types of the host's family, within the cap, that have more RAM than the host. */
    ghost function Room(host: string): set<InstanceType> {
      if Family(host, backend).Some? && Lookup(types, host).Some? then
        Above(types, Family(host, backend).value, maxRamGB, Lookup(types, host).value.memoryGiB)
      else {}
    }
  }

  function Resized(host: string, a: Answer): string { if a.resize then a.newType else host }

  predicate Rotates(a: Answer) { a.resize && a.err.None? }

  function Rotations(answers: seq<Answer>): nat {
    if answers == [] then 0 else (if Rotates(answers[0]) then 1 else 0) + Rotations(answers[1..])
  }

  /** The host after the first `n` answers. */
  function HostAt(host: string, answers: seq<Answer>, n: nat): string
    requires n <= |answers|
    decreases n
  {
    if n == 0 then host else HostAt(Resized(host, answers[0]), answers[1..], n - 1)
  }

  /** What the monitor may answer to the events in turn, each resize changing the host. */
  ghost predicate Answered(m: Monitor, host: string, events: seq<Event>, answers: seq<Answer>)
    decreases |events|
  {
    && |events| == |answers|
    && (events == [] ||
          (m.Answers(events[0], host, answers[0]) && Answered(m, Resized(host, answers[0]), events[1..], answers[1..])))
  }

  lemma ResizeKeepsFamily(m: Monitor, event: Event, host: string, a: Answer)
    requires m.Valid() && m.Answers(event, host, a) && a.resize
    ensures Family(host, m.backend).Some? && Lookup(m.types, host).Some?
    ensures HasPrefix(a.newType, Family(host, m.backend).value)
    ensures Family(a.newType, m.backend).Some? ==> Family(a.newType, m.backend) == Family(host, m.backend)
  {
    if Family(a.newType, m.backend).Some? {
      FamilyIsKept(host, a.newType, m.backend);
    }
  }

  /** A rotation uses up room. */
  lemma RotationUsesRoom(m: Monitor, event: Event, host: string, a: Answer)
    requires m.Valid() && m.Answers(event, host, a) && Rotates(a)
    ensures Family(host, m.backend).Some?
    ensures m.Room(a.newType) < m.Room(host)
    ensures Rises(m.types, Family(host, m.backend).value, m.maxRamGB, host, a.newType)
  {
    ResizeKeepsFamily(m, event, host, a);
    ResizeIsRotationOrExhausted(m.knobs, m.usedPct, m.maxRamGB, m.backend, m.types, event, host, a.newType, a.err);
    RotationClimbs(m.types, m.maxRamGB, m.backend, host, a.newType);
  }

  /** After the exhausted branch there is no room left. */
  lemma ExhaustedLeavesNoRoom(m: Monitor, event: Event, host: string, a: Answer)
    requires m.Valid() && m.Answers(event, host, a) && a.resize && a.err.Some?
    ensures m.Room(a.newType) == {}
  {
    ResizeKeepsFamily(m, event, host, a);
    var family := Family(host, m.backend).value;
    var t :| GreatestType(m.types, family, m.maxRamGB, t) && t.name == a.newType;
    assert Lookup(m.types, a.newType).value == t;
  }

  lemma AnswerKeepsRoom(m: Monitor, event: Event, host: string, a: Answer)
    requires m.Valid() && m.Answers(event, host, a)
    ensures (if Rotates(a) then 1 else 0) + |m.Room(Resized(host, a))| <= |m.Room(host)|
  {
    if Rotates(a) {
      RotationUsesRoom(m, event, host, a);
      SubsetIsSmaller(m.Room(a.newType), m.Room(host));
    } else if a.resize {
      ExhaustedLeavesNoRoom(m, event, host, a);
    }
  }

  lemma RoomIsInFamily(m: Monitor, host: string)
    requires Family(host, m.backend).Some?
    ensures |m.Room(host)| <= |Candidates(m.types, Family(host, m.backend).value, m.maxRamGB)|
  {
    SubsetIsSmaller(m.Room(host), Candidates(m.types, Family(host, m.backend).value, m.maxRamGB));
  }

  lemma {:induction false} RotationsFitRoom(m: Monitor, host: string, events: seq<Event>, answers: seq<Answer>)
    requires m.Valid() && Answered(m, host, events, answers)
    ensures Rotations(answers) <= |m.Room(host)|
    decreases |events|
  {
    if events != [] {
      AnswerKeepsRoom(m, events[0], host, answers[0]);
      RotationsFitRoom(m, Resized(host, answers[0]), events[1..], answers[1..]);
    }
  }

  /** Whatever events arrive, and whatever exhausted resizes come in between, the resizes without an
      error end: there are at most as many as the first host's family has larger types within the cap,
      so at most as many as it has types within the cap. */
  lemma LadderTerminates(m: Monitor, host: string, events: seq<Event>, answers: seq<Answer>)
    requires m.Valid() && Answered(m, host, events, answers)
    ensures Rotations(answers) <= |m.Room(host)|
    ensures match Family(host, m.backend)
            case None => Rotations(answers) == 0
            case Some(family) => Rotations(answers) <= |Candidates(m.types, family, m.maxRamGB)|
  {
    RotationsFitRoom(m, host, events, answers);
    if Family(host, m.backend).Some? {
      RoomIsInFamily(m, host);
    }
  }

  /** And each of them raises RAM, within the cap and the first host's family. */
  lemma {:induction false} EveryRotationRises(m: Monitor, host: string, events: seq<Event>, answers: seq<Answer>,
                                               i: nat)
    requires m.Valid() && Answered(m, host, events, answers)
    requires i < |answers| && Rotates(answers[i])
    ensures Family(host, m.backend).Some?
    ensures Rises(m.types, Family(host, m.backend).value, m.maxRamGB, HostAt(host, answers, i), answers[i].newType)
    ensures Sibling(host, answers[i].newType, m.backend)
    decreases i
  {
    if i == 0 {
      RotationUsesRoom(m, events[0], host, answers[0]);
      SiblingExactly(host, answers[0].newType, m.backend);
    } else {
      EveryRotationRises(m, Resized(host, answers[0]), events[1..], answers[1..], i - 1);
      if answers[0].resize {
        ResizeKeepsFamily(m, events[0], host, answers[0]);
      }
      SiblingExactly(host, answers[i].newType, m.backend);
    }
  }
}
