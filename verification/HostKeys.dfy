/** The SSH host key store: trust on first use, refusal of a changed key in strict mode, and
    relearning with an audit trail otherwise. */
module HostKeys {
  import opened Prelude

  /** A public key with its SHA-256 fingerprint already computed. */
  datatype PublicKey = PublicKey(keyType: string, wire: string, fingerprint: string)

  datatype HostKeyEntry = HostKeyEntry(
    id: string, keyType: string, key: string, fingerprint: string, host: string,
    learnedAt: int, previousFingerprint: string, replacedAt: Option<int>)

  type Entries = map<string, HostKeyEntry>

  /** Which of the file operations of one call succeed: the load of the look-up, the load of the
      update, and its save. */
  datatype Faults = Faults(lookupOk: bool, loadOk: bool, saveOk: bool)

  datatype LookupResult = LoadFailed | Unknown | Known(entry: HostKeyEntry)

  function LookupIn(entries: Entries, id: string, faults: Faults): LookupResult {
    if id == "" then Unknown
    else if !faults.lookupOk then LoadFailed
    else if id in entries then Known(entries[id])
    else Unknown
  }

  function EntryFor(id: string, host: string, key: PublicKey, previous: string, now: int): HostKeyEntry {
    HostKeyEntry(id, key.keyType, key.wire, key.fingerprint, host, now, previous,
                 if previous != "" then Some(now) else None)
  }

  predicate RememberFails(id: string, faults: Faults) { id != "" && !(faults.loadOk && faults.saveOk) }

  function RememberIn(entries: Entries, id: string, host: string, key: PublicKey, previous: string,
                      now: int, faults: Faults): Entries
  {
    if id == "" || RememberFails(id, faults) then entries
    else entries[id := EntryFor(id, host, key, previous, now)]
  }

  function ForgetIn(entries: Entries, ids: seq<string>, faults: Faults): Entries {
    if faults.loadOk && faults.saveOk then entries - (set id | id in ids) else entries
  }

  /** One operation on the store. */
  datatype Op =
    | Connect(id: string, strict: bool, host: string, key: PublicKey, now: int, faults: Faults)
    | Remember(id: string, host: string, key: PublicKey, previous: string, now: int, faults: Faults)
    | Forget(ids: seq<string>, faults: Faults)
    | ForgetAll(faults: Faults)

  /** Whether a connection is let through. */
  predicate Accepts(entries: Entries, op: Op)
    requires op.Connect?
  {
    match LookupIn(entries, op.id, op.faults)
    case LoadFailed => !op.strict
    case Unknown => !op.strict || !RememberFails(op.id, op.faults)
    case Known(entry) => !op.strict || entry.fingerprint == op.key.fingerprint
  }

  function Apply(entries: Entries, op: Op): Entries {
    match op
    case Connect(id, strict, host, key, now, faults) =>
      (match LookupIn(entries, id, faults)
       case LoadFailed => entries
       case Unknown => RememberIn(entries, id, host, key, "", now, faults)
       case Known(entry) =>
         if entry.fingerprint == key.fingerprint || strict then entries
         else RememberIn(entries, id, host, key, entry.fingerprint, now, faults))
    case Remember(id, host, key, previous, now, faults) => RememberIn(entries, id, host, key, previous, now, faults)
    case Forget(ids, faults) => ForgetIn(entries, ids, faults)
    case ForgetAll(faults) => if faults.saveOk then map[] else entries
  }

  /** The store. `entries` is what the file holds; a missing or an empty file holds nothing, and a
      save replaces the file as a whole or leaves it alone. */
  class HostKeyStore {
    var entries: Entries

    constructor ()
      ensures entries == map[]
    {
      entries := map[];
    }

    method Lookup(id: string, faults: Faults) returns (known: LookupResult)
      ensures known == LookupIn(entries, id, faults)
    {
      if id == "" {
        return Unknown;
      }
      if !faults.lookupOk {
        return LoadFailed;
      }
      known := if id in entries then Known(entries[id]) else Unknown;
    }

    method Remember(id: string, host: string, key: PublicKey, previous: string, now: int, faults: Faults)
      returns (failed: bool)
      modifies this
      ensures failed == RememberFails(id, faults)
      ensures entries == Apply(old(entries), Op.Remember(id, host, key, previous, now, faults))
    {
      if id == "" {
        return false;
      }
      if !faults.loadOk {
        return true;
      }
      var replacedAt: Option<int> := None;
      if previous != "" {
        replacedAt := Some(now);
      }
      var entry := HostKeyEntry(id, key.keyType, key.wire, key.fingerprint, host, now, previous, replacedAt);
      var updated := entries[id := entry];
      if !faults.saveOk {
        return true;
      }
      entries := updated;
      return false;
    }

    method Forget(ids: seq<string>, faults: Faults) returns (failed: bool)
      modifies this
      ensures entries == Apply(old(entries), Op.Forget(ids, faults))
      ensures failed <==>
        ids != [] && (!faults.loadOk || (!faults.saveOk && exists id :: id in ids && id in old(entries)))
    {
      if |ids| == 0 {
        assert entries - (set id | id in ids) == entries;
        return false;
      }
      if !faults.loadOk {
        return true;
      }
      var updated, changed := entries, false;
      for i := 0 to |ids|
        invariant updated == entries - (set id | id in ids[..i])
        invariant changed <==> exists id :: id in ids[..i] && id in entries
      {
        assert ids[..i + 1] == ids[..i] + [ids[i]];
        if ids[i] in updated {
          updated := updated - {ids[i]};
          changed := true;
        }
      }
      assert ids[..|ids|] == ids;
      if !changed {
        return false;
      }
      if !faults.saveOk {
        return true;
      }
      entries := updated;
      return false;
    }

    method ForgetAll(faults: Faults) returns (failed: bool)
      modifies this
      ensures failed == !faults.saveOk
      ensures entries == Apply(old(entries), Op.ForgetAll(faults))
    {
      if !faults.saveOk {
        return true;
      }
      entries := map[];
      return false;
    }

    /** The host key callback of one connection. */
    method Callback(id: string, strict: bool, host: string, key: PublicKey, now: int, faults: Faults)
      returns (accepted: bool)
      modifies this
      ensures accepted == Accepts(old(entries), Connect(id, strict, host, key, now, faults))
      ensures entries == Apply(old(entries), Connect(id, strict, host, key, now, faults))
    {
      var known := Lookup(id, faults);
      if known.LoadFailed? {
        return !strict;
      }
      if known.Unknown? {
        var failed := Remember(id, host, key, "", now, faults);
        return !(failed && strict);
      }
      if known.entry.fingerprint == key.fingerprint {
        return true;
      }
      if strict {
        return false;
      }
      var _ := Remember(id, host, key, known.entry.fingerprint, now, faults);
      return true;
    }
  }

  // ----- Whole runs

  /** The store after the first `n` operations. */
  ghost function After(entries: Entries, ops: seq<Op>, n: nat): Entries
    requires n <= |ops|
  {
    if n == 0 then entries else Apply(After(entries, ops, n - 1), ops[n - 1])
  }

  /** Operations that are allowed to change the entry of `id`: an explicit remember or forget, and a
      connection without strict checking. */
  predicate MayChange(op: Op, id: string) {
    match op
    case Connect(id', strict, _, _, _, _) => id' == id && !strict
    case Remember(id', _, _, _, _, _) => id' == id
    case Forget(ids, _) => id in ids
    case ForgetAll(_) => true
  }

  predicate Concerns(op: Op, id: string) {
    match op
    case Connect(id', _, _, _, _, _) => id' == id
    case Remember(id', _, _, _, _, _) => id' == id
    case Forget(ids, _) => id in ids
    case ForgetAll(_) => true
  }

  ghost predicate SameEntry(a: Entries, b: Entries, id: string) {
    (id in a <==> id in b) && (id in a ==> a[id] == b[id])
  }

  ghost predicate StrictlyAccepted(entries: Entries, op: Op, id: string) {
    op.Connect? && op.id == id && op.strict && Accepts(entries, op)
  }

  /** An operation on one identity never alters another. */
  lemma OperationsAreIsolated(entries: Entries, op: Op, id: string)
    requires !Concerns(op, id)
    ensures SameEntry(entries, Apply(entries, op), id)
  {
  }

  /** Exactly when strict mode lets a connection through. */
  lemma StrictAcceptanceExact(entries: Entries, op: Op)
    requires op.Connect? && op.strict && op.id != ""
    ensures Accepts(entries, op) <==>
      && op.faults.lookupOk
      && (if op.id in entries then entries[op.id].fingerprint == op.key.fingerprint
          else op.faults.loadOk && op.faults.saveOk)
  {
  }

  /** An entry, once there, stays as it is through operations that may not change it. */
  lemma {:induction false} EntryPersists(entries: Entries, ops: seq<Op>, from: nat, to: nat, id: string)
    requires from <= to <= |ops|
    requires id in After(entries, ops, from)
    requires forall k | from <= k < to :: !MayChange(ops[k], id)
    ensures id in After(entries, ops, to) && After(entries, ops, to)[id] == After(entries, ops, from)[id]
  {
    if from < to {
      EntryPersists(entries, ops, from, to - 1, id);
      assert !MayChange(ops[to - 1], id);
    }
  }

  /** After a strictly accepted connection the entry is there and carries the accepted key. */
  lemma AcceptedIsPinned(entries: Entries, op: Op, id: string)
    requires id != "" && StrictlyAccepted(entries, op, id)
    ensures id in Apply(entries, op) && Apply(entries, op)[id].fingerprint == op.key.fingerprint
  {
  }

  lemma SameEntrySameKey(a: Entries, first: Op, b: Entries, second: Op, id: string)
    requires id != "" && StrictlyAccepted(a, first, id) && StrictlyAccepted(b, second, id)
    requires id in Apply(a, first) && id in b && b[id] == Apply(a, first)[id]
    ensures first.key.fingerprint == second.key.fingerprint
  {
    AcceptedIsPinned(a, first, id);
  }

  /** No operation from position `from` up to `to` changed the entry of `id`, whatever it tried. */
  ghost predicate EntryUnchanged(entries: Entries, ops: seq<Op>, from: nat, to: nat, id: string)
    requires from <= to <= |ops|
  {
    forall k | from <= k < to :: SameEntry(After(entries, ops, k), After(entries, ops, k + 1), id)
  }

  lemma {:induction false} UnchangedIsSame(entries: Entries, ops: seq<Op>, from: nat, to: nat, id: string)
    requires from <= to <= |ops| && EntryUnchanged(entries, ops, from, to, id)
    ensures SameEntry(After(entries, ops, from), After(entries, ops, to), id)
  {
    if from < to {
      UnchangedIsSame(entries, ops, from, to - 1, id);
      assert SameEntry(After(entries, ops, to - 1), After(entries, ops, to - 1 + 1), id);
    }
  }

  /** Strict-mode trust over whole runs: all strict connections accepted for an identity between two
      changes of its entry carry one fingerprint. In between anything may happen that leaves the
      entry as it is: failing remembers and forgets of that identity, and connections without strict
      checking, included. */
  lemma {:induction false} StrictConnectionsShareOneKey(entries: Entries, ops: seq<Op>, i: nat, j: nat, id: string)
    requires id != "" && i <= j < |ops|
    requires StrictlyAccepted(After(entries, ops, i), ops[i], id)
    requires StrictlyAccepted(After(entries, ops, j), ops[j], id)
    requires i < j ==> EntryUnchanged(entries, ops, i + 1, j, id)
    ensures ops[i].key.fingerprint == ops[j].key.fingerprint
  {
    if i < j {
      var before := After(entries, ops, i);
      AcceptedIsPinned(before, ops[i], id);
      assert After(entries, ops, i + 1) == Apply(before, ops[i]);
      UnchangedIsSame(entries, ops, i + 1, j, id);
      SameEntrySameKey(before, ops[i], After(entries, ops, j), ops[j], id);
    }
  }

  /** A key that is known when the run starts is the only one strict mode will accept until the entry
      is changed. */
  lemma {:induction false} StrictConnectionsMatchKnownKey(entries: Entries, ops: seq<Op>, j: nat, id: string)
    requires id != "" && j < |ops| && id in entries
    requires StrictlyAccepted(After(entries, ops, j), ops[j], id)
    requires EntryUnchanged(entries, ops, 0, j, id)
    ensures ops[j].key.fingerprint == entries[id].fingerprint
  {
    UnchangedIsSame(entries, ops, 0, j, id);
  }

  /** Which operations change an entry that is there: only one entitled to it whose files can be read
      and written, and a connection only when it shows another key. */
  lemma EntryChangesExactly(entries: Entries, op: Op, id: string)
    requires id != "" && id in entries
    ensures !SameEntry(entries, Apply(entries, op), id) <==>
      match op
      case Connect(id', strict, _, key, _, faults) =>
        && id' == id && !strict && faults.lookupOk && faults.loadOk && faults.saveOk
        && entries[id].fingerprint != key.fingerprint
      case Remember(id', host, key, previous, now, faults) =>
        id' == id && faults.loadOk && faults.saveOk && entries[id] != EntryFor(id, host, key, previous, now)
      case Forget(ids, faults) => id in ids && faults.loadOk && faults.saveOk
      case ForgetAll(faults) => faults.saveOk
  {
  }

  /** An entry as it is written for a key: everything but the trail. */
  ghost predicate Records(entry: HostKeyEntry, id: string, host: string, key: PublicKey, now: int) {
    && entry.id == id && entry.keyType == key.keyType && entry.key == key.wire && entry.fingerprint == key.fingerprint
    && entry.host == host && entry.learnedAt == now
  }

  /** What a connection does to the entry of its identity: a first contact writes the key that was shown,
      with no trail; a change writes it too, and names the fingerprint that stood there before. */
  lemma ConnectionWrites(entries: Entries, op: Op)
    requires op.Connect? && op.id != "" && op.id in Apply(entries, op)
    ensures
      var after := Apply(entries, op)[op.id];
      if op.id !in entries then
        Records(after, op.id, op.host, op.key, op.now) && after.previousFingerprint == "" && after.replacedAt == None
      else after != entries[op.id] ==>
        && Records(after, op.id, op.host, op.key, op.now)
        && after.previousFingerprint == entries[op.id].fingerprint != after.fingerprint
        && (after.replacedAt == if after.previousFingerprint == "" then None else Some(op.now))
  {
  }

  /** What an explicit remember writes, when its files can be read and written. */
  lemma RememberWrites(entries: Entries, op: Op)
    requires op.Remember? && op.id != "" && op.faults.loadOk && op.faults.saveOk
    ensures op.id in Apply(entries, op)
    ensures
      var after := Apply(entries, op)[op.id];
      && Records(after, op.id, op.host, op.key, op.now) && after.previousFingerprint == op.previous
      && (after.replacedAt == if op.previous == "" then None else Some(op.now))
  {
  }

  /** Which identities a forget removes: those it names, if its files can be read and written. */
  lemma ForgetRemoves(entries: Entries, op: Op, id: string)
    requires op.Forget? || op.ForgetAll?
    ensures id in Apply(entries, op) <==>
      && id in entries
      && !(if op.Forget? then id in op.ids && op.faults.loadOk && op.faults.saveOk else op.faults.saveOk)
    ensures id in Apply(entries, op) ==> Apply(entries, op)[id] == entries[id]
  {
  }

  /** Without strict checking, and without an identity to check, every connection is let through. */
  lemma LaxAcceptsAll(entries: Entries, op: Op)
    requires op.Connect? && (!op.strict || op.id == "")
    ensures Accepts(entries, op)
  {
  }

  /** A connection that finds nothing stored learns the key exactly when its files can be read and
      written. */
  lemma FirstUseExact(entries: Entries, op: Op)
    requires op.Connect? && op.id != "" && op.id !in entries
    ensures op.id in Apply(entries, op) <==> op.faults.lookupOk && op.faults.loadOk && op.faults.saveOk
  {
  }

  /** Over any run, an entry that was last changed by a connection names the fingerprint that stood just
      before that change, and carries the key that the connection showed. */
  lemma {:induction false} TrailNamesLastChange(entries: Entries, ops: seq<Op>, k: nat, n: nat, id: string)
    requires id != "" && k < n <= |ops| && ops[k].Connect? && ops[k].id == id
    requires id in After(entries, ops, k) && !SameEntry(After(entries, ops, k), After(entries, ops, k + 1), id)
    requires EntryUnchanged(entries, ops, k + 1, n, id)
    ensures id in After(entries, ops, n)
    ensures After(entries, ops, n)[id].previousFingerprint == After(entries, ops, k)[id].fingerprint
    ensures After(entries, ops, n)[id].fingerprint == ops[k].key.fingerprint
  {
    var before := After(entries, ops, k);
    assert After(entries, ops, k + 1) == Apply(before, ops[k]);
    assert id in Apply(before, ops[k]);
    ConnectionWrites(before, ops[k]);
    UnchangedIsSame(entries, ops, k + 1, n, id);
  }

  /** Without strict checking a changed key is let through, but not silently: over any run of
      connections, an entry that differs from the one it started with names the fingerprint it replaced,
      the one that stood just before its last change. */
  lemma {:induction false} ChangeLeavesTrail(entries: Entries, ops: seq<Op>, n: nat, id: string)
    requires n <= |ops| && id in entries && entries[id].fingerprint != ""
    requires forall k | 0 <= k < n :: ops[k].Connect? && ops[k].key.fingerprint != ""
    ensures id in After(entries, ops, n)
    ensures After(entries, ops, n)[id].fingerprint != ""
    ensures After(entries, ops, n)[id] != entries[id] ==>
      && After(entries, ops, n)[id].previousFingerprint != "" && After(entries, ops, n)[id].replacedAt.Some?
      && exists k :: 0 <= k < n && ChangedLastAt(entries, ops, k, n, id)
  {
    if n > 0 {
      ChangeLeavesTrail(entries, ops, n - 1, id);
      var before, after := After(entries, ops, n - 1), After(entries, ops, n);
      if after[id] != before[id] {
        ConnectionChanges(before, ops[n - 1], id);
        ConnectionWrites(before, ops[n - 1]);
        assert ChangedLastAt(entries, ops, n - 1, n, id);
      } else if after[id] != entries[id] {
        var k :| 0 <= k < n - 1 && ChangedLastAt(entries, ops, k, n - 1, id);
        assert ChangedLastAt(entries, ops, k, n, id);
      }
    }
  }

  /** The entry was changed by the connection at position `k`, is as that one left it, and names the
      fingerprint that it had before. */
  ghost predicate ChangedLastAt(entries: Entries, ops: seq<Op>, k: nat, n: nat, id: string)
    requires k < n <= |ops|
  {
    var before, after := After(entries, ops, k), After(entries, ops, n);
    && id in before && id in After(entries, ops, k + 1) && id in after
    && before[id] != After(entries, ops, k + 1)[id] == after[id]
    && ops[k].Connect? && ops[k].id == id && after[id].fingerprint == ops[k].key.fingerprint
    && after[id].previousFingerprint == before[id].fingerprint
  }

  lemma ConnectionChanges(entries: Entries, op: Op, id: string)
    requires op.Connect? && id in entries && id in Apply(entries, op) && Apply(entries, op)[id] != entries[id]
    ensures op.id == id != ""
  {
  }
}
