/**
 One pause owner: how its stored identity is judged against the live system, and
 what the registry file may hold.
 */
module PauseOwners {
  import opened Wrappers

  /** A token is issued to a request, or derived from the three legacy fields. */
  datatype Token = Issued(serial: nat) | Derived(pid: int, requestedAt: real, reason: string)

  datatype Identity = LegacyMark | Process(start: string, boot: string)

  datatype Owner = Owner(token: Token, reason: string, pid: int, requestedAt: real, identity: Identity)

  /** An entry of the stored owner list; `Junk` is anything without the fields' types. */
  datatype Entry = Claim(owner: Owner) | Junk

  datatype Contents =
    | Missing
    | Garbage                                                   // unparsable, or neither format
    | Registry(entries: seq<Entry>)                             // version 2
    | Singleton(reason: string, pid: int, requestedAt: real)    // the format before it
    | Future(payload: string)                                   // a version this program must not touch

  datatype BootRead = BootAbsent | BootUnreadable | Boot(id: string)

  datatype ProcessRead = Gone | Unreadable | Stat(state: char, start: string)

  /** What procfs answered while one owner was being judged. */
  datatype Probe = Probe(boot: BootRead, process: ProcessRead)

  const FUTURE_SKEW_S := 5.0
  const MAX_AGE_S := 14400.0

  predicate Defunct(state: char) {
    state == 'Z' || state == 'X' || state == 'x'
  }

  predicate InAge(o: Owner, now: real) {
    now - MAX_AGE_S <= o.requestedAt <= now + FUTURE_SKEW_S
  }

  /** `_common_owner_state`. */
  predicate Plausible(o: Owner, now: real) {
    o.pid > 0 && o.reason != "" && InAge(o, now)
  }

  datatype Verdict = Drop | Keep(owner: Owner, migrated: bool)

  /** `_normalize_owner`. */
  function Judge(o: Owner, now: real, p: Probe): Verdict {
    if !Plausible(o, now) then Drop
    else if o.identity.LegacyMark? then
      if p.boot.BootAbsent? then Drop
      else if p.boot.BootUnreadable? then Keep(o, false)
      else if p.process.Gone? then Drop
      else if p.process.Unreadable? then Keep(o, false)
      else if Defunct(p.process.state) then Drop
      else Keep(o.(identity := Process(p.process.start, p.boot.id)), true)
    else if o.identity.start == "" || o.identity.boot == "" then Drop
    else if !p.boot.Boot? then Keep(o, false)
    else if p.boot.id != o.identity.boot then Drop
    else if p.process.Gone? then Drop
    else if p.process.Unreadable? then Keep(o, false)
    else if Defunct(p.process.state) || p.process.start != o.identity.start then Drop
    else Keep(o, false)
  }

  /** The owner entries a file stands for; a singleton is one owner marked legacy. */
  function Entries(file: Contents): seq<Entry> {
    match file
    case Registry(entries) => entries
    case Singleton(reason, pid, at) => [Claim(Owner(Derived(pid, at, reason), reason, pid, at, LegacyMark))]
    case _ => []
  }

  /** The owners judged not stale, normalized, in order; entry k is judged by probe k. */
  function Survivors(entries: seq<Entry>, now: real, probes: nat -> Probe): seq<Owner> {
    if entries == [] then []
    else
      var n := |entries| - 1;
      Survivors(entries[..n], now, probes) + Survivor(entries[n], now, probes(n))
  }

  function Survivor(e: Entry, now: real, p: Probe): seq<Owner> {
    match e
    case Junk => []
    case Claim(o) =>
      match Judge(o, now, p)
      case Drop => []
      case Keep(kept, _) => [kept]
  }

  /** The entry is not stored as it would be written. */
  predicate Untidy(e: Entry, now: real, p: Probe) {
    match e
    case Junk => true
    case Claim(o) => Judge(o, now, p) != Keep(o, false)
  }

  predicate SomeUntidy(entries: seq<Entry>, now: real, probes: nat -> Probe) {
    exists k :: 0 <= k < |entries| && Untidy(entries[k], now, probes(k))
  }

  /** The second result of `_read_live_owners_unlocked`. */
  predicate Dirty(file: Contents, now: real, probes: nat -> Probe) {
    match file
    case Missing => false
    case Garbage => true
    case Registry(entries) => entries == [] || SomeUntidy(entries, now, probes)
    case Singleton(_, _, _) => true
    case Future(_) => false
  }

  /** `e` stores `o`, possibly still under the legacy mark. */
  predicate Stores(e: Owner, o: Owner) {
    e == o || e == o.(identity := LegacyMark)
  }

  /** What procfs may answer about a running process, read failures included. */
  predicate Vouches(e: Owner, o: Owner, p: Probe)
    requires o.identity.Process?
  {
    && (p.boot.Boot? ==> p.boot.id == o.identity.boot)
    && (p.process.Stat? ==> !Defunct(p.process.state) && p.process.start == o.identity.start)
    && !p.process.Gone?
    && (e.identity.LegacyMark? ==> !p.boot.BootAbsent?)
  }

  /** An owner whose process runs is never judged stale, and keeps its token through migration. */
  lemma RunningOwnerIsKept(e: Owner, o: Owner, now: real, p: Probe)
    requires o.identity.Process? && o.identity.start != "" && o.identity.boot != ""
    requires Stores(e, o) && Plausible(o, now) && Vouches(e, o, p)
    ensures Judge(e, now, p).Keep? && Stores(Judge(e, now, p).owner, o)
  {
  }

  /** No process can be behind the owner, or its request is too old or too far ahead of the clock. */
  predicate OutOfAge(o: Owner, now: real) {
    o.pid <= 0 || o.reason == "" || o.requestedAt < now - 14400.0 || o.requestedAt > now + 5.0
  }

  /** Procfs proves that the owner's process is not running, or there is no identity to look for. */
  predicate Disproved(o: Owner, p: Probe) {
    if o.identity.LegacyMark? then
      p.boot.BootAbsent?
      || (p.boot.Boot? && (p.process.Gone? || (p.process.Stat? && p.process.state in {'Z', 'X', 'x'})))
    else
      || o.identity.start == "" || o.identity.boot == ""
      || (&& p.boot.Boot?
          && (|| p.boot.id != o.identity.boot || p.process.Gone?
              || (p.process.Stat? && (p.process.state in {'Z', 'X', 'x'} || p.process.start != o.identity.start))))
  }

  /** Exactly when an owner is dropped, and what becomes of one that is kept. */
  lemma DroppedIff(o: Owner, now: real, p: Probe)
    ensures Survivor(Claim(o), now, p) == [] <==> OutOfAge(o, now) || Disproved(o, p)
    ensures !OutOfAge(o, now) && !Disproved(o, p) ==>
              Survivor(Claim(o), now, p) ==
                [if o.identity.LegacyMark? && p.boot.Boot? && p.process.Stat? then
                   o.(identity := Process(p.process.start, p.boot.id))
                 else o]
  {
  }

  /** An entry nobody can be paused by. */
  predicate Void(e: Entry, now: real, p: Probe) {
    match e
    case Junk => true
    case Claim(o) => OutOfAge(o, now) || Disproved(o, p)
  }

  lemma VoidIff(e: Entry, now: real, p: Probe)
    ensures Survivor(e, now, p) == [] <==> Void(e, now, p)
  {
    match e
    case Junk =>
    case Claim(o) => DroppedIff(o, now, p);
  }

  /** Nobody survives exactly when every entry is void. */
  lemma {:induction false} NobodySurvivesIff(entries: seq<Entry>, now: real, probes: nat -> Probe)
    ensures Survivors(entries, now, probes) == [] <==> forall k :: 0 <= k < |entries| ==> Void(entries[k], now, probes(k))
  {
    hide Void, Survivor;
    if entries != [] {
      var n := |entries| - 1;
      NobodySurvivesIff(entries[..n], now, probes);
      assert forall k :: 0 <= k < n ==> entries[..n][k] == entries[k];
      VoidIff(entries[n], now, probes(n));
    }
  }

  /**
   Where the code is not fail-closed: a legacy owner whose process still runs is
   dropped when the boot id file is absent, though a current owner would be kept.
   */
  lemma LegacyOwnerLostWithoutBootFile()
    ensures exists o: Owner, p: Probe ::
              && o.identity.LegacyMark? && Plausible(o, 0.0) && p.boot.BootAbsent?
              && p.process == Stat('S', "7") && Judge(o, 0.0, p).Drop?
              && Judge(o.(identity := Process("7", "b")), 0.0, p).Keep?
  {
    var o := Owner(Derived(4, 0.0, "l"), "l", 4, 0.0, LegacyMark);
    var p := Probe(BootAbsent, Stat('S', "7"));
    assert Judge(o, 0.0, p).Drop?;
  }

  lemma {:induction false} SurvivorsHold(entries: seq<Entry>, now: real, probes: nat -> Probe, k: nat)
    requires k < |entries|
    ensures forall o :: o in Survivor(entries[k], now, probes(k)) ==> o in Survivors(entries, now, probes)
  {
    if k < |entries| - 1 {
      SurvivorsHold(entries[..|entries| - 1], now, probes, k);
    }
  }

  lemma {:induction false} SurvivorsComeFrom(entries: seq<Entry>, now: real, probes: nat -> Probe, o: Owner)
    returns (k: nat)
    requires o in Survivors(entries, now, probes)
    ensures k < |entries| && o in Survivor(entries[k], now, probes(k))
  {
    k := |entries| - 1;
    if o !in Survivor(entries[k], now, probes(k)) {
      k := SurvivorsComeFrom(entries[..k], now, probes, o);
    }
  }

  function Claims(owners: seq<Owner>): (r: seq<Entry>)
    ensures |r| == |owners| && forall i :: 0 <= i < |r| ==> r[i] == Claim(owners[i])
  {
    seq(|owners|, i requires 0 <= i < |owners| => Claim(owners[i]))
  }

  lemma ClaimsSnoc(owners: seq<Owner>, o: Owner)
    ensures Claims(owners + [o]) == Claims(owners) + [Claim(o)]
  {
  }

  lemma TidyEntry(e: Entry, now: real, p: Probe)
    requires !Untidy(e, now, p)
    ensures e.Claim? && Survivor(e, now, p) == [e.owner]
  {
  }

  /** A list that is not dirty is exactly its survivors. */
  lemma {:induction false} TidyIsSurvivors(entries: seq<Entry>, now: real, probes: nat -> Probe)
    requires !SomeUntidy(entries, now, probes)
    ensures Claims(Survivors(entries, now, probes)) == entries
  {
    hide Untidy, Survivor, Claims;
    if entries != [] {
      var n := |entries| - 1;
      TidyEntry(entries[n], now, probes(n));
      assert forall k :: 0 <= k < n ==> entries[..n][k] == entries[k];
      TidyIsSurvivors(entries[..n], now, probes);
      ClaimsSnoc(Survivors(entries[..n], now, probes), entries[n].owner);
      assert entries == entries[..n] + [entries[n]];
    } else {
      assert Claims([]) == [];
    }
  }

  lemma {:induction false} SurvivorsAreNoMore(entries: seq<Entry>, now: real, probes: nat -> Probe)
    ensures |Survivors(entries, now, probes)| <= |entries|
  {
    if entries != [] {
      SurvivorsAreNoMore(entries[..|entries| - 1], now, probes);
    }
  }

  /** A list equal to its survivors is not dirty, so a rewrite never happens without need. */
  lemma {:induction false} SurvivorsAreTidy(entries: seq<Entry>, now: real, probes: nat -> Probe)
    requires Claims(Survivors(entries, now, probes)) == entries
    ensures !SomeUntidy(entries, now, probes)
  {
    if entries != [] {
      hide Untidy, Claims;
      var n := |entries| - 1;
      var before := Survivors(entries[..n], now, probes);
      SurvivorsAreNoMore(entries[..n], now, probes);
      LastIsTidy(entries, before, now, probes(n));
      SurvivorsAreTidy(entries[..n], now, probes);
      assert forall k :: 0 <= k < n ==> entries[..n][k] == entries[k];
    }
  }

  lemma LastIsTidy(entries: seq<Entry>, before: seq<Owner>, now: real, p: Probe)
    requires entries != [] && |before| < |entries|
    requires Claims(before + Survivor(entries[|entries| - 1], now, p)) == entries
    ensures !Untidy(entries[|entries| - 1], now, p) && Claims(before) == entries[..|entries| - 1]
  {
    var n := |entries| - 1;
    var kept := Survivor(entries[n], now, p);
    assert |kept| == 1 && (before + kept)[n] == kept[0];
    assert entries[n] == Claim(kept[0]);
    assert Claims(before) == entries[..n];
  }
}
