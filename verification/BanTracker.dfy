/** The monitor's tracker of failed authentications: pruned maps with sliding windows, and the full
    history of calls they have to agree with. Times are nanoseconds. */
module BanTracker {

  const WINDOW := 5 * 60 * 1_000_000_000
  const BAN_TIME := 60 * 60 * 1_000_000_000
  const MAX_FAILURES := 5

  // ----- The state and what each call does to it

  datatype Tracker = Tracker(failures: map<string, seq<int>>, bans: map<string, int>)

  const EMPTY := Tracker(map[], map[])

  /** Go reads a missing key as an empty list. */
  function FailuresOf(t: Tracker, ip: string): seq<int> {
    if ip in t.failures then t.failures[ip] else []
  }

  /** The times strictly after the cut-off, in order. */
  function Recent(times: seq<int>, cutoff: int): (kept: seq<int>)
    ensures |kept| <= |times|
  {
    if times == [] then []
    else (if times[0] > cutoff then [times[0]] else []) + Recent(times[1..], cutoff)
  }

  datatype Call = IsBanned(ip: string) | RecordFailure(ip: string) | Ban(ip: string) | Cleanup

  function Answer(t: Tracker, call: Call, now: int): bool {
    match call
    case IsBanned(ip) => ip in t.bans && now < t.bans[ip]
    case RecordFailure(ip) => |Recent(FailuresOf(t, ip), now - WINDOW)| + 1 >= MAX_FAILURES
    case _ => false
  }

  function Next(t: Tracker, call: Call, now: int): Tracker {
    match call
    case IsBanned(ip) =>
      if ip !in t.bans then t
      else if now < t.bans[ip] then t.(bans := t.bans[ip := now + BAN_TIME])
      else t.(bans := t.bans - {ip})
    case RecordFailure(ip) =>
      t.(failures := t.failures[ip := Recent(FailuresOf(t, ip), now - WINDOW) + [now]])
    case Ban(ip) =>
      Tracker(t.failures - {ip}, t.bans[ip := now + BAN_TIME])
    case Cleanup =>
      Tracker(PrunedFailures(t.failures, now - WINDOW), LiveBans(t.bans, now))
  }

  function PrunedFailures(failures: map<string, seq<int>>, cutoff: int): map<string, seq<int>> {
    map ip | ip in failures && Recent(failures[ip], cutoff) != [] :: Recent(failures[ip], cutoff)
  }

  function LiveBans(bans: map<string, int>, now: int): map<string, int> {
    map ip | ip in bans && !(now > bans[ip]) :: bans[ip]
  }

  lemma {:induction false} RecentOfLonger(times: seq<int>, x: int, cutoff: int)
    ensures Recent(times + [x], cutoff) == Recent(times, cutoff) + (if x > cutoff then [x] else [])
  {
    if times == [] {
      assert times + [x] == [x];
    } else {
      assert (times + [x])[1..] == times[1..] + [x];
      RecentOfLonger(times[1..], x, cutoff);
      var first := if times[0] > cutoff then [times[0]] else [];
      var added := if x > cutoff then [x] else [];
      assert first + (Recent(times[1..], cutoff) + added) == (first + Recent(times[1..], cutoff)) + added;
    }
  }

  /** Pruning early loses nothing that a later cut-off would have kept. */
  lemma {:induction false} RecentOfRecent(times: seq<int>, early: int, late: int)
    requires early <= late
    ensures Recent(Recent(times, early), late) == Recent(times, late)
  {
    if times != [] {
      RecentOfRecent(times[1..], early, late);
      var rest := Recent(times[1..], early);
      assert ([times[0]] + rest)[1..] == rest;
      assert [] + rest == rest;
      assert [] + Recent(times[1..], late) == Recent(times[1..], late);
    }
  }

  // ----- The tracker object

  class IpBanTracker {
    var failures: map<string, seq<int>>
    var bans: map<string, int>

    function State(): Tracker
      reads this
    {
      Tracker(failures, bans)
    }

    constructor ()
      ensures State() == EMPTY
    {
      failures, bans := map[], map[];
    }

    method IsBanned(ip: string, now: int) returns (banned: bool)
      modifies this
      ensures banned == Answer(old(State()), Call.IsBanned(ip), now)
      ensures State() == Next(old(State()), Call.IsBanned(ip), now)
    {
      if ip in bans {
        if now < bans[ip] {
          bans := bans[ip := now + BAN_TIME];
          return true;
        }
        bans := bans - {ip};
      }
      return false;
    }

    method RecordFailure(ip: string, now: int) returns (shouldBan: bool)
      modifies this
      ensures shouldBan == Answer(old(State()), Call.RecordFailure(ip), now)
      ensures State() == Next(old(State()), Call.RecordFailure(ip), now)
    {
      var recent := KeepRecent(FailuresOf(State(), ip), now - WINDOW);
      recent := recent + [now];
      failures := failures[ip := recent];
      return |recent| >= MAX_FAILURES;
    }

    method Ban(ip: string, now: int)
      modifies this
      ensures State() == Next(old(State()), Call.Ban(ip), now)
    {
      bans := bans[ip := now + BAN_TIME];
      failures := failures - {ip};
    }

    method Cleanup(now: int)
      modifies this
      ensures State() == Next(old(State()), Call.Cleanup, now)
    {
      DropExpiredBans(now);
      DropOldFailures(now - WINDOW);
    }

    method DropExpiredBans(now: int)
      modifies this`bans
      ensures bans == LiveBans(old(bans), now)
    {
      var todo := bans.Keys;
      while todo != {}
        invariant todo <= bans.Keys <= old(bans).Keys
        invariant forall ip | ip in old(bans) :: ip in bans <==> ip in todo || !(now > old(bans)[ip])
        invariant forall ip | ip in bans :: bans[ip] == old(bans)[ip]
      {
        var ip :| ip in todo;
        todo := todo - {ip};
        if now > bans[ip] {
          bans := bans - {ip};
        }
      }
    }

    method DropOldFailures(cutoff: int)
      modifies this`failures
      ensures failures == PrunedFailures(old(failures), cutoff)
    {
      var todo := failures.Keys;
      while todo != {}
        invariant todo <= failures.Keys <= old(failures).Keys
        invariant forall ip | ip in todo :: failures[ip] == old(failures)[ip]
        invariant forall ip | ip in old(failures) && ip !in todo :: PrunedAt(old(failures), failures, ip, cutoff)
      {
        var ip :| ip in todo;
        todo := todo - {ip};
        var recent := KeepRecent(failures[ip], cutoff);
        if |recent| == 0 {
          failures := failures - {ip};
        } else {
          failures := failures[ip := recent];
        }
      }
    }

    /** One request as the handler serves it: refused while banned; a missing or unreadable
        authentication header is counted as a failure and may ban. */
    method Handle(ip: string, headerOk: bool, now: int) returns (refused: bool)
      requires AtMostFour(State())
      modifies this
      ensures refused == Answer(old(State()), Call.IsBanned(ip), now)
      ensures State() == (if refused || headerOk then Next(old(State()), Call.IsBanned(ip), now)
                          else Counted(Next(old(State()), Call.IsBanned(ip), now), ip, now))
      ensures AtMostFour(State())
    {
      refused := IsBanned(ip, now);
      if !refused && !headerOk {
        CountFailure(ip, now);
      }
    }

    /** A failed authentication, or a failed TLS handshake seen in the server's error log. */
    method CountFailure(ip: string, now: int)
      requires AtMostFour(State())
      modifies this
      ensures State() == Counted(old(State()), ip, now)
      ensures AtMostFour(State())
    {
      var shouldBan := RecordFailure(ip, now);
      if shouldBan {
        Ban(ip, now);
      }
    }
  }

  ghost predicate PrunedAt(before: map<string, seq<int>>, after: map<string, seq<int>>, ip: string, cutoff: int)
    requires ip in before
  {
    var kept := Recent(before[ip], cutoff);
    if kept == [] then ip !in after else ip in after && after[ip] == kept
  }

  method KeepRecent(times: seq<int>, cutoff: int) returns (recent: seq<int>)
    ensures recent == Recent(times, cutoff)
  {
    recent := [];
    for i := 0 to |times|
      invariant recent == Recent(times[..i], cutoff)
    {
      assert times[..i + 1] == times[..i] + [times[i]];
      RecentOfLonger(times[..i], times[i], cutoff);
      if times[i] > cutoff {
        recent := recent + [times[i]];
      }
    }
    assert times[..|times|] == times;
  }

  /** Between requests no failure list is long enough to ban. */
  ghost predicate AtMostFour(t: Tracker) { forall ip | ip in t.failures :: |t.failures[ip]| < MAX_FAILURES }

  /** Recording a failure and banning when that says so. */
  ghost function Counted(t: Tracker, ip: string, now: int): Tracker {
    var t' := Next(t, RecordFailure(ip), now);
    if Answer(t, RecordFailure(ip), now) then Next(t', Ban(ip), now) else t'
  }

  /** Serial handling keeps every failure list at four entries or fewer between requests, whichever
      request or clean-up comes next. */
  lemma AtMostFourIsKept(t: Tracker, ip: string, now: int)
    requires AtMostFour(t)
    ensures AtMostFour(Counted(t, ip, now))
    ensures AtMostFour(Next(t, IsBanned(ip), now))
    ensures AtMostFour(Next(t, Cleanup, now))
    ensures forall ip' | ip' in Counted(t, ip, now).failures :: |Counted(t, ip, now).failures[ip']| <= 4
  {
    var kept := Recent(FailuresOf(t, ip), now - WINDOW);
    assert |FailuresOf(t, ip)| < MAX_FAILURES;
    assert Answer(t, RecordFailure(ip), now) <==> |kept + [now]| >= MAX_FAILURES;
  }

  // ----- The full history

  datatype Timed = Timed(call: Call, at: int)

  /** The tracker after a history of calls. */
  ghost function Run(h: seq<Timed>): Tracker {
    if h == [] then EMPTY
    else
      var last := h[|h| - 1];
      Next(Run(h[..|h| - 1]), last.call, last.at)
  }

  ghost predicate InOrder(h: seq<Timed>) { forall i, j | 0 <= i < j < |h| :: h[i].at <= h[j].at }

  ghost predicate NotBefore(now: int, h: seq<Timed>) { forall i | 0 <= i < |h| :: h[i].at <= now }

  /** The positions of the failures of `ip` that lie in the window before `now` and after the last
      ban of `ip`. Nothing is forgotten here, and clean-ups do not matter. */
  ghost function FailuresInWindow(h: seq<Timed>, ip: string, now: int): set<int> {
    set i | 0 <= i < |h| && CountsAt(h, i, ip, now)
  }

  ghost predicate CountsAt(h: seq<Timed>, i: int, ip: string, now: int)
    requires 0 <= i < |h|
  {
    && h[i].call == RecordFailure(ip) && h[i].at > now - 300_000_000_000  // five minutes
    && forall j | i < j < |h| :: h[j].call != Ban(ip)
  }

  /** The failure times of `ip` since its last ban, never pruned. */
  ghost function Since(h: seq<Timed>, ip: string): seq<int> {
    if h == [] then []
    else
      var last := h[|h| - 1];
      if last.call == Ban(ip) then []
      else Since(h[..|h| - 1], ip) + (if last.call == RecordFailure(ip) then [last.at] else [])
  }

  /** The times at which `ip` made contact from position `from` on: its bans and its checks. */
  ghost function Contacts(h: seq<Timed>, from: nat, ip: string): seq<int>
    requires from <= |h|
    decreases |h|
  {
    if from == |h| then []
    else
      var last := h[|h| - 1];
      Contacts(h[..|h| - 1], from, ip) + (if last.call == Ban(ip) || last.call == IsBanned(ip) then [last.at] else [])
  }

  ghost predicate GapsUnderBanTime(times: seq<int>) {
    forall k | 0 <= k < |times| - 1 :: times[k + 1] < times[k] + 3_600_000_000_000  // one hour
  }

  /** `ip` was banned at position `from`, and since then it never stayed away for a full ban time. */
  ghost predicate SlidesFrom(h: seq<Timed>, from: nat, ip: string, now: int) {
    && from < |h| && h[from].call == Ban(ip)
    && GapsUnderBanTime(Contacts(h, from, ip) + [now])
  }

  ghost predicate BanStands(h: seq<Timed>, ip: string, now: int) {
    exists from: nat :: SlidesFrom(h, from, ip, now)
  }

  // ----- The tracker agrees with the history

  /** The list of `ip` after one call. */
  lemma FailuresAfter(t: Tracker, call: Call, at: int, ip: string)
    ensures FailuresOf(Next(t, call, at), ip)
            == if call == Ban(ip) then []
               else if call == RecordFailure(ip) then Recent(FailuresOf(t, ip), at - WINDOW) + [at]
               else if call.Cleanup? then Recent(FailuresOf(t, ip), at - WINDOW)
               else FailuresOf(t, ip)
  {
  }

  /** One call keeps a pruned list and its unpruned one equal under any later cut-off. */
  lemma PruningStep(kept: seq<int>, times: seq<int>, at: int, early: int, late: int)
    requires early <= late
    requires Recent(kept, early) == Recent(times, early) && Recent(kept, late) == Recent(times, late)
    ensures Recent(Recent(kept, early), late) == Recent(times, late)
    ensures Recent(Recent(kept, early) + [at], late) == Recent(times + [at], late)
  {
    RecentOfRecent(kept, early, late);
    RecentOfLonger(Recent(kept, early), at, late);
    RecentOfLonger(times, at, late);
  }

  /** What one more call appends to the unpruned list. */
  lemma SinceAfter(init: seq<Timed>, last: Timed, ip: string)
    ensures Since(init + [last], ip)
            == if last.call == Ban(ip) then []
               else if last.call == RecordFailure(ip) then Since(init, ip) + [last.at]
               else Since(init, ip)
    ensures Run(init + [last]) == Next(Run(init), last.call, last.at)
  {
    assert (init + [last])[..|init|] == init;
    assert Since(init, ip) + [] == Since(init, ip);
  }

  ghost predicate ListsAgree(t: Tracker, times: seq<int>, ip: string, now: int) {
    Recent(FailuresOf(t, ip), now - WINDOW) == Recent(times, now - WINDOW)
  }

  lemma AgreementStep(t: Tracker, times: seq<int>, call: Call, at: int, ip: string, now: int)
    requires at <= now && ListsAgree(t, times, ip, at) && ListsAgree(t, times, ip, now)
    ensures ListsAgree(Next(t, call, at),
                       if call == Ban(ip) then [] else if call == RecordFailure(ip) then times + [at] else times,
                       ip, now)
  {
    FailuresAfter(t, call, at, ip);
    PruningStep(FailuresOf(t, ip), times, at, at - WINDOW, now - WINDOW);
  }

  lemma {:induction false} FailuresAgree(h: seq<Timed>, ip: string, now: int)
    requires InOrder(h) && NotBefore(now, h)
    ensures ListsAgree(Run(h), Since(h, ip), ip, now)
  {
    if h != [] {
      var init, last := h[..|h| - 1], h[|h| - 1];
      FailuresAgree(init, ip, last.at);
      FailuresAgree(init, ip, now);
      assert h == init + [last];
      SinceAfter(init, last, ip);
      AgreementStep(Run(init), Since(init, ip), last.call, last.at, ip, now);
    }
  }

  /** What one more call does to the set of counted positions. */
  lemma WindowAfter(init: seq<Timed>, last: Timed, ip: string, now: int)
    ensures FailuresInWindow(init + [last], ip, now)
            == if last.call == Ban(ip) then {}
               else if last.call == RecordFailure(ip) && last.at > now - WINDOW
               then FailuresInWindow(init, ip, now) + {|init|}
               else FailuresInWindow(init, ip, now)
  {
    var h := init + [last];
    if last.call != Ban(ip) {
      forall i | 0 <= i < |init| ensures CountsAt(h, i, ip, now) <==> CountsAt(init, i, ip, now) {
        assert h[i] == init[i];
        assert forall j | i < j < |init| :: h[j] == init[j];
      }
    } else {
      assert h[|init|].call == Ban(ip);
    }
  }

  lemma {:induction false} SinceCountsWindow(h: seq<Timed>, ip: string, now: int)
    ensures |Recent(Since(h, ip), now - WINDOW)| == |FailuresInWindow(h, ip, now)|
  {
    if h != [] {
      var init, last := h[..|h| - 1], h[|h| - 1];
      assert h == init + [last];
      SinceCountsWindow(init, ip, now);
      SinceAfter(init, last, ip);
      RecentOfLonger(Since(init, ip), last.at, now - WINDOW);
      WindowAfter(init, last, ip, now);
    }
  }

  /** `recordFailure` says yes exactly when this failure is at least the fifth since the last ban
      within the last five minutes of the whole history. */
  lemma RecordFailureExact(h: seq<Timed>, ip: string, now: int)
    requires InOrder(h) && NotBefore(now, h)
    ensures Answer(Run(h), RecordFailure(ip), now) <==> |FailuresInWindow(h, ip, now)| + 1 >= 5
  {
    FailuresAgree(h, ip, now);
    SinceCountsWindow(h, ip, now);
  }

  /** The ban as a walk over the history: each contact must come before the ban of the previous one
      has run out. */
  ghost predicate BannedAt(h: seq<Timed>, ip: string, now: int) {
    if h == [] then false
    else
      var init, last := h[..|h| - 1], h[|h| - 1];
      if last.call == Ban(ip) then now < last.at + BAN_TIME
      else if last.call == IsBanned(ip) then BannedAt(init, ip, last.at) && now < last.at + BAN_TIME
      else BannedAt(init, ip, now)
  }

  lemma {:induction false} BansAgree(h: seq<Timed>, ip: string, now: int)
    requires InOrder(h) && NotBefore(now, h)
    ensures Answer(Run(h), IsBanned(ip), now) == BannedAt(h, ip, now)
  {
    if h != [] {
      var init, last := h[..|h| - 1], h[|h| - 1];
      BansAgree(init, ip, last.at);
      BansAgree(init, ip, now);
    }
  }

  lemma {:induction false} WalkIsSliding(h: seq<Timed>, ip: string, now: int)
    ensures BannedAt(h, ip, now) <==> BanStands(h, ip, now)
  {
    if h != [] {
      var init, last := h[..|h| - 1], h[|h| - 1];
      WalkIsSliding(init, ip, now);
      WalkIsSliding(init, ip, last.at);
      var contact := last.call == Ban(ip) || last.call == IsBanned(ip);
      forall from: nat | from < |init|
        ensures SlidesFrom(h, from, ip, now) <==>
                if contact then SlidesFrom(init, from, ip, last.at) && now < last.at + BAN_TIME
                else SlidesFrom(init, from, ip, now)
      {
        if contact {
          GapsOfLonger(Contacts(init, from, ip) + [last.at], now);
        } else {
          assert Contacts(h, from, ip) == Contacts(init, from, ip);
        }
      }
      if last.call == Ban(ip) {
        assert Contacts(h, |init|, ip) == [last.at];
        assert SlidesFrom(h, |init|, ip, now) <==> now < last.at + BAN_TIME by {
          GapsOfLonger([last.at], now);
        }
      }
      if BannedAt(h, ip, now) && last.call != Ban(ip) {
        var from: nat :| SlidesFrom(init, from, ip, if contact then last.at else now);
        assert SlidesFrom(h, from, ip, now);
      }
      if BanStands(h, ip, now) {
        var from: nat :| SlidesFrom(h, from, ip, now);
        assert from < |init| || last.call == Ban(ip);
        if from < |init| && !contact {
          assert SlidesFrom(init, from, ip, now);
        } else if from < |init| {
          assert SlidesFrom(init, from, ip, last.at);
        }
      }
    }
  }

  lemma GapsOfLonger(times: seq<int>, x: int)
    requires times != []
    ensures GapsUnderBanTime(times + [x]) <==> GapsUnderBanTime(times) && x < times[|times| - 1] + BAN_TIME
  {
    var longer := times + [x];
    if GapsUnderBanTime(longer) {
      forall k | 0 <= k < |times| - 1 ensures times[k + 1] < times[k] + BAN_TIME {
        assert longer[k + 1] < longer[k] + BAN_TIME;
      }
      assert longer[|times| - 1 + 1] < longer[|times| - 1] + BAN_TIME;
    }
  }

  /** The sliding ban: an address is refused exactly when it was banned at some point and never
      stayed away for a full hour since, counting every refused contact. */
  lemma IsBannedExact(h: seq<Timed>, ip: string, now: int)
    requires InOrder(h) && NotBefore(now, h)
    ensures Answer(Run(h), IsBanned(ip), now) <==> BanStands(h, ip, now)
  {
    BansAgree(h, ip, now);
    WalkIsSliding(h, ip, now);
  }

  /** The history without its clean-ups. */
  ghost function WithoutCleanups(h: seq<Timed>): seq<Timed> {
    if h == [] then []
    else
      var last := h[|h| - 1];
      WithoutCleanups(h[..|h| - 1]) + (if last.call.Cleanup? then [] else [last])
  }

  lemma {:induction false} OrderSurvives(h: seq<Timed>)
    requires InOrder(h)
    ensures forall t | t in WithoutCleanups(h) :: t in h
    ensures InOrder(WithoutCleanups(h))
  {
    if h != [] {
      var init, last := h[..|h| - 1], h[|h| - 1];
      OrderSurvives(init);
      var w := WithoutCleanups(h);
      forall i, j | 0 <= i < j < |w| ensures w[i].at <= w[j].at {
        if j == |w| - 1 && !last.call.Cleanup? {
          assert w[i] in init;
        }
      }
    }
  }

  lemma {:induction false} CleanupsDoNotCount(h: seq<Timed>, ip: string)
    ensures Since(WithoutCleanups(h), ip) == Since(h, ip)
    ensures forall now: int {:trigger BannedAt(h, ip, now)} ::
      BannedAt(WithoutCleanups(h), ip, now) == BannedAt(h, ip, now)
  {
    if h != [] {
      var init, last := h[..|h| - 1], h[|h| - 1];
      CleanupsDoNotCount(init, ip);
      var w := WithoutCleanups(h);
      assert WithoutCleanups(init) + [] == WithoutCleanups(init);
      assert Since(init, ip) + [] == Since(init, ip);
      if !last.call.Cleanup? {
        assert w[..|w| - 1] == WithoutCleanups(init);
      }
    }
  }

  /** Clean-ups are invisible: take any of them out of a history, or put any in, and every answer
      stays the same. */
  lemma CleanupIsInvisible(h: seq<Timed>, call: Call, now: int)
    requires InOrder(h) && NotBefore(now, h)
    ensures Answer(Run(h), call, now) == Answer(Run(WithoutCleanups(h)), call, now)
  {
    if call.IsBanned? || call.RecordFailure? {
      var w := WithoutCleanups(h);
      OrderSurvives(h);
      CleanupsDoNotCount(h, call.ip);
      forall i | 0 <= i < |w| ensures w[i].at <= now {
        assert w[i] in h;
      }
      BansAgree(h, call.ip, now);
      BansAgree(w, call.ip, now);
      FailuresAgree(h, call.ip, now);
      FailuresAgree(w, call.ip, now);
    }
  }
}
