/** The settings of an instance travel from one instance to the next in the tags of its shared volume
    (`cli/cmd/v1/cmdAgiCreate.go`, `cli/cmd/v1/cmdAgiStart.go`). A create over an existing volume writes
    the tags twice: a first set before the instance exists, and the full set afterwards. Either write may
    be missed, because the creation stops between them or because a failed tag call is only logged. Tags
    that a write does not name keep their old value. */
module Reattach {
  import opened Prelude

  /** The tag names, one constructor each: `agiinstance`, `aginodim`, `termonpow` and so on. */
  datatype Key =
    AgiInstance | AgiNoDim | TermOnPow | IsSpot | AgiFips | AgiSubnet | AgiSecGroup | AgiEbs | AgiDisablePubIp
  | AgiSpotFallback | AgiEfsPath | AgiLabel | AgiSslDisable | AgiMonitorUrl | AgiMonitorCertIgnore | AgiZoneId
  | AgiDomain | AgiDisks

  type Tags = map<Key, string>

  /** The settings both tag writes name. */
  datatype Core = Core(
    instance: string, noDim: bool, powerOff: bool, spot: bool, fips: bool, subnet: string, secGroup: string)

  /** The settings only the full write names. */
  datatype Extras = Extras(
    ebs: string, noPublicIp: bool, spotFallback: bool, efsPath: string, display: string, sslOff: bool,
    monitorUrl: string, monitorCertIgnore: bool)

  /** The settings only the full write names, and only when they have a value. */
  datatype Route53 = Route53(zoneId: string, domain: string) {
    predicate Half() { (zoneId == "") != (domain == "") }
  }

  datatype Settings = Settings(core: Core, extras: Extras, route: Route53)

  /** The options with which the monitor, or an operator, changes settings on the way. */
  datatype Override = Override(instance: string, noDim: Option<bool>, spot: Option<bool>)

  datatype Plan = Create(settings: Settings) | NoInstanceType | HalfRoute53

  /** The volume's own facts: the name of the instance it belongs to and the zone it lies in. */
  datatype Site = Site(name: string, zone: string)

  function Tag(tags: Tags, key: Key): string { if key in tags then tags[key] else "" }

  function OfBool(b: bool): string { if b then "true" else "false" }

  /** The tags written before the instance is created. */
  function CoreTags(c: Core): Tags {
    map[AgiInstance := c.instance, AgiNoDim := OfBool(c.noDim), TermOnPow := OfBool(c.powerOff),
        IsSpot := OfBool(c.spot), AgiFips := OfBool(c.fips), AgiSubnet := c.subnet, AgiSecGroup := c.secGroup]
  }

  function ExtraTags(e: Extras): Tags {
    map[AgiEbs := e.ebs, AgiDisablePubIp := OfBool(e.noPublicIp), AgiSpotFallback := OfBool(e.spotFallback),
        AgiEfsPath := e.efsPath, AgiLabel := e.display, AgiSslDisable := OfBool(e.sslOff),
        AgiMonitorUrl := e.monitorUrl, AgiMonitorCertIgnore := OfBool(e.monitorCertIgnore)]
  }

  /** The two Route53 tags, each only when it has a value. */
  function RouteTags(r: Route53): Tags {
    (if r.zoneId != "" then map[AgiZoneId := r.zoneId] else map[])
    + (if r.domain != "" then map[AgiDomain := r.domain] else map[])
  }

  /** The tags written once the instance runs. */
  function ResolvedTags(s: Settings): Tags { CoreTags(s.core) + ExtraTags(s.extras) + RouteTags(s.route) }

  function CarriedCore(tags: Tags): Core {
    Core(Tag(tags, AgiInstance), Tag(tags, AgiNoDim) == "true", Tag(tags, TermOnPow) == "true",
         Tag(tags, IsSpot) == "true", Tag(tags, AgiFips) == "true", Tag(tags, AgiSubnet), Tag(tags, AgiSecGroup))
  }

  function CarriedExtras(tags: Tags): Extras {
    Extras(Tag(tags, AgiEbs), Tag(tags, AgiDisablePubIp) == "true", Tag(tags, AgiSpotFallback) == "true",
           Tag(tags, AgiEfsPath), Tag(tags, AgiLabel), Tag(tags, AgiSslDisable) == "true", Tag(tags, AgiMonitorUrl),
           Tag(tags, AgiMonitorCertIgnore) == "true")
  }

  function CarriedRoute(tags: Tags): Route53 { Route53(Tag(tags, AgiZoneId), Tag(tags, AgiDomain)) }

  /** What the tags say, before any default. */
  function Carried(tags: Tags): Settings {
    Settings(CarriedCore(tags), CarriedExtras(tags), CarriedRoute(tags))
  }

  function Overridden(c: Core, o: Override): Core {
    c.(instance := if o.instance != "" then o.instance else c.instance,
       noDim := if o.noDim.Some? then o.noDim.value else c.noDim,
       spot := if o.spot.Some? then o.spot.value else c.spot)
  }

  function Or(s: string, fallback: string): string { if s == "" then fallback else s }

  function Filled(s: Settings, site: Site): Settings {
    var e := s.extras;
    Settings(
      s.core.(subnet := Or(s.core.subnet, site.zone)),
      e.(ebs := Or(e.ebs, "40"), efsPath := Or(e.efsPath, "/"), display := Or(e.display, site.name)),
      s.route)
  }

  /** The defaults, setting by setting: what has a value keeps it, and nothing else is touched. */
  lemma FilledExact(s: Settings, site: Site)
    ensures
      var f := Filled(s, site);
      && f.core.subnet == (if s.core.subnet == "" then site.zone else s.core.subnet)
      && f.extras.ebs == (if s.extras.ebs == "" then "40" else s.extras.ebs)
      && f.extras.efsPath == (if s.extras.efsPath == "" then "/" else s.extras.efsPath)
      && f.extras.display == (if s.extras.display == "" then site.name else s.extras.display)
      && f.core.(subnet := s.core.subnet) == s.core && f.route == s.route
      && f.extras.(ebs := s.extras.ebs, efsPath := s.extras.efsPath, display := s.extras.display) == s.extras
  {
  }

  /** What a reattach asks to be created. */
  function PlanOf(tags: Tags, site: Site, o: Override): Plan {
    var s := Carried(tags);
    var core := Overridden(s.core, o);
    if core.instance == "" then NoInstanceType
    else if s.route.Half() then HalfRoute53
    else Create(Filled(s.(core := core), site))
  }

  function WithType(s: Settings, fallback: string): Settings {
    s.(core := s.core.(instance := Or(s.core.instance, fallback)))
  }

  /** The writes of one creation over a volume with these tags; `fallback` is the region's default type. */
  function Written(tags: Tags, s: Settings, fallback: string, early: bool, resolved: bool): Tags {
    var first := if early then tags + CoreTags(s.core) else tags;
    if resolved then first + ResolvedTags(WithType(s, fallback)) else first
  }

  /** One reattach: its override, and which of the two tag writes took effect. */
  datatype Attempt = Attempt(o: Override, fallback: string, early: bool, resolved: bool)

  function After(tags: Tags, site: Site, a: Attempt): Tags {
    match PlanOf(tags, site, a.o)
    case Create(s) => Written(tags, s, a.fallback, a.early, a.resolved)
    case _ => tags
  }

  function AfterAll(tags: Tags, site: Site, run: seq<Attempt>): Tags {
    if run == [] then tags else After(AfterAll(tags, site, run[..|run| - 1]), site, run[|run| - 1])
  }

  class Volume {
    var tags: Tags
    const site: Site

    constructor (site: Site)
      ensures tags == map[] && this.site == site
    {
      tags := map[];
      this.site := site;
    }

    method ApplyOverrides(core: Core, o: Override) returns (c: Core)
      ensures c == Overridden(core, o)
    {
      c := core;
      if o.instance != "" {
        c := c.(instance := o.instance);
      }
      if o.noDim.Some? {
        c := c.(noDim := o.noDim.value);
      }
      if o.spot.Some? {
        c := c.(spot := o.spot.value);
      }
    }

    method ApplyDefaults(read: Settings) returns (s: Settings)
      ensures s == Filled(read, site)
    {
      var subnet, ebs, efsPath, display := read.core.subnet, read.extras.ebs, read.extras.efsPath, read.extras.display;
      if subnet == "" && site.zone != "" {
        subnet := site.zone;
      }
      if ebs == "" {
        ebs := "40";
      }
      if efsPath == "" {
        efsPath := "/";
      }
      if display == "" {
        display := site.name;
      }
      s := Settings(read.core.(subnet := subnet),
                    read.extras.(ebs := ebs, efsPath := efsPath, display := display),
                    read.route);
    }

    /** The tags are read into locals, which overrides and defaults then replace one by one. */
    method ReadSettings(o: Override) returns (plan: Plan)
      ensures plan == PlanOf(tags, site, o)
    {
      var s := Carried(tags);
      var core := ApplyOverrides(s.core, o);
      if core.instance == "" {
        return NoInstanceType;
      }
      s := ApplyDefaults(s.(core := core));
      if s.route.Half() {
        return HalfRoute53;
      }
      plan := Create(s);
    }

    method CreateInstance(s: Settings, fallback: string, early: bool, resolved: bool)
      modifies this`tags
      ensures tags == Written(old(tags), s, fallback, early, resolved)
    {
      if early {
        tags := tags + CoreTags(s.core);
      }
      var instance := s.core.instance;
      if instance == "" {
        instance := fallback;
      }
      if resolved {
        tags := tags + (CoreTags(s.core.(instance := instance)) + ExtraTags(s.extras) + RouteTags(s.route));
      }
    }

    method ReattachFromEFS(a: Attempt) returns (plan: Plan)
      modifies this`tags
      ensures plan == PlanOf(old(tags), site, a.o)
      ensures tags == After(old(tags), site, a)
    {
      plan := ReadSettings(a.o);
      if plan.Create? {
        CreateInstance(plan.settings, a.fallback, a.early, a.resolved);
      }
    }
  }

  /** The overrides of the attempts that wrote anything, applied in order. */
  function Latest(c: Core, run: seq<Attempt>): Core {
    if run == [] then c
    else
      var before := Latest(c, run[..|run| - 1]);
      var a := run[|run| - 1];
      if Wrote(a) then Overridden(before, a.o) else before
  }

  // Each group of tags is read back from the write that names it.

  const CORE_KEYS := {AgiInstance, AgiNoDim, TermOnPow, IsSpot, AgiFips, AgiSubnet, AgiSecGroup}
  const EXTRA_KEYS := {AgiEbs, AgiDisablePubIp, AgiSpotFallback, AgiEfsPath, AgiLabel, AgiSslDisable, AgiMonitorUrl,
                      AgiMonitorCertIgnore}
  const ROUTE_KEYS := {AgiZoneId, AgiDomain}

  lemma CoreIsReadBack(tags: Tags, c: Core)
    ensures CarriedCore(tags + CoreTags(c)) == c
    ensures CoreTags(c).Keys == CORE_KEYS
  {
  }

  lemma ExtrasAreReadBack(tags: Tags, e: Extras)
    ensures CarriedExtras(tags + ExtraTags(e)) == e
    ensures ExtraTags(e).Keys == EXTRA_KEYS
  {
  }

  lemma RouteIsReadBack(tags: Tags, r: Route53)
    ensures CarriedRoute(tags + RouteTags(r))
         == Route53(Or(r.zoneId, Tag(tags, AgiZoneId)), Or(r.domain, Tag(tags, AgiDomain)))
    ensures RouteTags(r).Keys <= ROUTE_KEYS
  {
  }

  lemma SameTagsReadTheSame(t: Tags, u: Tags)
    ensures (forall k | k in CORE_KEYS :: Tag(t, k) == Tag(u, k)) ==> CarriedCore(t) == CarriedCore(u)
    ensures (forall k | k in EXTRA_KEYS :: Tag(t, k) == Tag(u, k)) ==> CarriedExtras(t) == CarriedExtras(u)
    ensures (forall k | k in ROUTE_KEYS :: Tag(t, k) == Tag(u, k)) ==> CarriedRoute(t) == CarriedRoute(u)
  {
  }

  lemma GroupsDecide(tags: Tags, a: Tags, b: Tags, c: Tags, ka: set<Key>, kb: set<Key>, kc: set<Key>)
    requires a.Keys <= ka && b.Keys <= kb && c.Keys <= kc
    requires ka !! kb && ka !! kc && kb !! kc
    ensures forall k | k in ka :: Tag(tags + (a + b + c), k) == Tag(tags + a, k)
    ensures forall k | k in kb :: Tag(tags + (a + b + c), k) == Tag(tags + b, k)
    ensures forall k | k in kc :: Tag(tags + (a + b + c), k) == Tag(tags + c, k)
  {
  }

  /** A write of all three groups is read as three writes of one group each. */
  lemma GroupsAreKept(tags: Tags, core: Tags, extras: Tags, route: Tags)
    requires core.Keys <= CORE_KEYS && extras.Keys <= EXTRA_KEYS && route.Keys <= ROUTE_KEYS
    ensures CarriedCore(tags + (core + extras + route)) == CarriedCore(tags + core)
    ensures CarriedExtras(tags + (core + extras + route)) == CarriedExtras(tags + extras)
    ensures CarriedRoute(tags + (core + extras + route)) == CarriedRoute(tags + route)
  {
    assert CORE_KEYS !! EXTRA_KEYS && CORE_KEYS !! ROUTE_KEYS && EXTRA_KEYS !! ROUTE_KEYS;
    GroupsDecide(tags, core, extras, route, CORE_KEYS, EXTRA_KEYS, ROUTE_KEYS);
    var t := tags + (core + extras + route);
    SameTagsReadTheSame(t, tags + core);
    SameTagsReadTheSame(t, tags + extras);
    SameTagsReadTheSame(t, tags + route);
  }

  /** The first write replaces the settings it names and leaves the others. */
  lemma EarlyIsReadBack(tags: Tags, c: Core)
    ensures Carried(tags + CoreTags(c)) == Carried(tags).(core := c)
  {
    CoreIsReadBack(tags, c);
    GroupsAreKept(tags, CoreTags(c), map[], map[]);
    assert CoreTags(c) + map[] + map[] == CoreTags(c) && tags + map[] == tags;
  }

  /** Under which names the settings are stored; other programs read them there. */
  lemma CoreTagNames(c: Core)
    ensures
      var t := CoreTags(c);
      && t[AgiInstance] == c.instance && t[AgiSubnet] == c.subnet && t[AgiSecGroup] == c.secGroup
      && (t[AgiNoDim] == if c.noDim then "true" else "false")
      && (t[TermOnPow] == if c.powerOff then "true" else "false")
      && (t[IsSpot] == if c.spot then "true" else "false")
      && (t[AgiFips] == if c.fips then "true" else "false")
  {
  }

  lemma ExtraTagNames(e: Extras)
    ensures
      var t := ExtraTags(e);
      && t[AgiEbs] == e.ebs && t[AgiEfsPath] == e.efsPath
      && t[AgiLabel] == e.display && t[AgiMonitorUrl] == e.monitorUrl
      && (t[AgiDisablePubIp] == if e.noPublicIp then "true" else "false")
      && (t[AgiSpotFallback] == if e.spotFallback then "true" else "false")
      && (t[AgiSslDisable] == if e.sslOff then "true" else "false")
      && (t[AgiMonitorCertIgnore] == if e.monitorCertIgnore then "true" else "false")
  {
  }

  /** What a full write stores is what the next read finds, apart from Route53 tags left by an earlier owner. */
  lemma ResolvedIsReadBack(tags: Tags, s: Settings)
    ensures Carried(tags + ResolvedTags(s))
         == s.(route := Route53(Or(s.route.zoneId, Tag(tags, AgiZoneId)), Or(s.route.domain, Tag(tags, AgiDomain))))
  {
    CoreIsReadBack(tags, s.core);
    ExtrasAreReadBack(tags, s.extras);
    RouteIsReadBack(tags, s.route);
    GroupsAreKept(tags, CoreTags(s.core), ExtraTags(s.extras), RouteTags(s.route));
  }

  /** A create over an existing volume is carried to the next reattach exactly when it does not mean to
      clear Route53. */
  lemma ForcedCreateIsCarriedExactly(tags: Tags, s: Settings, fallback: string, early: bool)
    ensures Carried(Written(tags, s, fallback, early, true)) == WithType(s, fallback)
       <==> && (s.route.zoneId == "" ==> Tag(tags, AgiZoneId) == "")
            && (s.route.domain == "" ==> Tag(tags, AgiDomain) == "")
  {
    var first := if early then tags + CoreTags(s.core) else tags;
    assert Tag(first, AgiZoneId) == Tag(tags, AgiZoneId) && Tag(first, AgiDomain) == Tag(tags, AgiDomain);
    ResolvedIsReadBack(first, WithType(s, fallback));
  }

  /** A forced create that stops before the instance runs strands the volume exactly when it left the
      type to default. */
  lemma StoppedCreateStrandsExactly(tags: Tags, s: Settings, fallback: string, site: Site, o: Override)
    ensures PlanOf(Written(tags, s, fallback, true, false), site, o) == NoInstanceType
       <==> s.core.instance == "" && o.instance == ""
  {
    EarlyIsReadBack(tags, s.core);
  }

  /** The volume stores some settings: filled in, they are `s`. */
  ghost predicate Stores(tags: Tags, site: Site, s: Settings) {
    && Filled(Carried(tags), site) == s
    && s.core.instance != ""
    && !s.route.Half()
  }

  /** A volume that stores `s` is reattached with `s` and the override, whatever was filled in before. */
  lemma PlanFromStored(tags: Tags, site: Site, s: Settings, o: Override)
    requires Stores(tags, site, s)
    ensures PlanOf(tags, site, o) == Create(s.(core := Overridden(s.core, o)))
  {
  }

  /** One reattach, complete or stopped anywhere. */
  lemma AttemptIsCarried(tags: Tags, site: Site, s: Settings, a: Attempt)
    requires Stores(tags, site, s)
    ensures Stores(After(tags, site, a), site, s.(core := Latest(s.core, [a])))
  {
    PlanFromStored(tags, site, s, a.o);
    var t := s.(core := Overridden(s.core, a.o));
    var first := if a.early then tags + CoreTags(t.core) else tags;
    assert Latest(s.core, [a]) == if Wrote(a) then t.core else s.core;
    assert Filled(s, site) == s && Filled(t, site) == t && WithType(t, a.fallback) == t;
    EarlyIsReadBack(tags, t.core);
    ResolvedIsReadBack(first, t);
  }

  /** Over any number of reattaches, each stopped anywhere, what the next reattach creates is the first
      instance's settings with the defaults filled in once and the latest overrides applied. */
  lemma {:induction false} ReattachChain(tags: Tags, site: Site, s: Settings, fallback: string, early: bool,
                                          run: seq<Attempt>, o: Override)
    requires WithType(s, fallback).core.instance != ""
    requires !s.route.Half()
    requires s.route.zoneId == "" ==> Tag(tags, AgiZoneId) == "" && Tag(tags, AgiDomain) == ""
    ensures var first := Filled(WithType(s, fallback), site);
            var now := AfterAll(Written(tags, s, fallback, early, true), site, run);
            && Stores(now, site, first.(core := Latest(first.core, run)))
            && PlanOf(now, site, o) == Create(first.(core := Overridden(Latest(first.core, run), o)))
  {
    var first := Filled(WithType(s, fallback), site);
    var created := Written(tags, s, fallback, early, true);
    if run == [] {
      ForcedCreateIsCarriedExactly(tags, s, fallback, early);
    } else {
      var before, a := run[..|run| - 1], run[|run| - 1];
      ReattachChain(tags, site, s, fallback, early, before, o);
      var stored := first.(core := Latest(first.core, before));
      AttemptIsCarried(AfterAll(created, site, before), site, stored, a);
      assert Latest(stored.core, [a]) == Latest(first.core, run);
    }
    PlanFromStored(AfterAll(created, site, run), site, first.(core := Latest(first.core, run)), o);
  }

  predicate Wrote(a: Attempt) { a.early || a.resolved }
  predicate SetsInstance(a: Attempt) { Wrote(a) && a.o.instance != "" }
  predicate SetsNoDim(a: Attempt) { Wrote(a) && a.o.noDim.Some? }
  predicate SetsSpot(a: Attempt) { Wrote(a) && a.o.spot.Some? }

  /** A setting without an override never changes, and one whose override is never given does not either. */
  lemma {:induction false} OnlyOverridesChange(c: Core, run: seq<Attempt>)
    ensures Latest(c, run).(instance := c.instance, noDim := c.noDim, spot := c.spot) == c
    ensures (forall a | a in run :: !SetsInstance(a)) ==> Latest(c, run).instance == c.instance
    ensures (forall a | a in run :: !SetsNoDim(a)) ==> Latest(c, run).noDim == c.noDim
    ensures (forall a | a in run :: !SetsSpot(a)) ==> Latest(c, run).spot == c.spot
  {
    if run != [] {
      OnlyOverridesChange(c, run[..|run| - 1]);
      assert run[|run| - 1] in run;
    }
  }

  /** A setting with an override holds the last one given. */
  lemma {:induction false} LatestIsLastGiven(c: Core, run: seq<Attempt>, k: nat)
    requires k < |run|
    ensures SetsInstance(run[k]) && (forall i | k < i < |run| :: !SetsInstance(run[i])) ==>
              Latest(c, run).instance == run[k].o.instance
    ensures SetsNoDim(run[k]) && (forall i | k < i < |run| :: !SetsNoDim(run[i])) ==>
              Latest(c, run).noDim == run[k].o.noDim.value
    ensures SetsSpot(run[k]) && (forall i | k < i < |run| :: !SetsSpot(run[i])) ==>
              Latest(c, run).spot == run[k].o.spot.value
  {
    if k < |run| - 1 {
      var before, a := run[..|run| - 1], run[|run| - 1];
      LatestIsLastGiven(c, before, k);
      assert forall i | 0 <= i < |before| :: before[i] == run[i];
      assert Latest(c, run) == if Wrote(a) then Overridden(Latest(c, before), a.o) else Latest(c, before);
    }
  }

  // The disk list of a GCP volume, kept in one tag.

  function WriteDisks(tags: Tags, disks: seq<string>): Tags {
    if |disks| > 0 then tags[AgiDisks := Join(disks, ';')] else tags
  }

  const DEFAULT_DISKS: seq<string> := ["type=pd-ssd,size=40"]

  function ReadDisks(tags: Tags): seq<string> {
    var text := Tag(tags, AgiDisks);
    if text == "" then DEFAULT_DISKS else Split(text, ';')
  }

  lemma {:induction false} SplitOfJoin(parts: seq<string>, sep: char)
    requires |parts| >= 1
    requires forall p | p in parts :: Free(p, sep)
    ensures Split(Join(parts, sep), sep) == parts
  {
    if |parts| == 1 {
      SplitWithoutSeparator(parts[0], sep);
    } else {
      SplitOfJoin(parts[1..], sep);
      SplitAtFirst(parts[0], sep, Join(parts[1..], sep));
      assert [parts[0]] + parts[1..] == parts;
    }
  }

  /** A disk list survives the tag exactly when it is neither empty nor one empty entry, and no entry
      holds the separator. */
  lemma DisksSurviveExactly(tags: Tags, disks: seq<string>)
    ensures ReadDisks(WriteDisks(tags, disks)) == disks
       <==> disks != [] && disks != [""] && forall d | d in disks :: Free(d, ';')
  {
    if disks != [] {
      var text := Join(disks, ';');
      assert Tag(WriteDisks(tags, disks), AgiDisks) == text;
      if disks == [""] {
        assert DEFAULT_DISKS[0] != "";
      } else if text == "" {
        assert false;
      } else if forall d | d in disks :: Free(d, ';') {
        SplitOfJoin(disks, ';');
      }
    }
  }
}
