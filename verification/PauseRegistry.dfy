/**
 The ambient pause registry: one marker file, rewritten under a lock by every
 process that asks for, releases or reads a pause.
 */
module PauseRegistry {
  import opened Wrappers
  import opened PauseOwners

  /** A write may fail with the file untouched, or after the new file is in place. */
  datatype Fault = NoFault | BeforeReplace | AfterReplace

  /** What one locked section meets: the clock, procfs, a failing read, and its writes. */
  datatype Env = Env(now: real, probes: nat -> Probe, readFails: bool, write: Fault, rollback: Fault)

  /** What a reader is told. */
  datatype Pause = NoPause | Active(owners: seq<Owner>) | Unknown | Unsupported(payload: string)

  /** `_write_owners_unlocked`: no owners means no file. */
  function Written(file: Contents, owners: seq<Owner>, fault: Fault): Contents {
    if fault == BeforeReplace then file
    else if owners == [] then Missing
    else Registry(Claims(owners))
  }

  function LiveOwners(file: Contents, env: Env): seq<Owner> {
    Survivors(Entries(file), env.now, env.probes)
  }

  predicate IsDirty(file: Contents, env: Env) {
    Dirty(file, env.now, env.probes)
  }

  /** The operations give up without touching the file. */
  predicate Refuses(file: Contents, env: Env) {
    env.readFails || file.Future?
  }

  /** What a process can read about itself. */
  datatype Me = Unidentified | Me(start: string, boot: string)

  function Without(owners: seq<Owner>, token: Token): seq<Owner> {
    if owners == [] then []
    else
      var n := |owners| - 1;
      Without(owners[..n], token) + (if owners[n].token == token then [] else [owners[n]])
  }

  /** Every atomic section of the protocol. */
  datatype Step =
    | Read(env: Env)
    | Publish(owner: Owner, env: Env)
    | Withdraw(token: Token, env: Env)                       // after a publication whose caller never got the token
    | Clear(token: Token, env: Env)
    | ClearOwn(pid: int, me: Me, env: Env)     // no token: this process, if it can identify itself

  function AfterRead(file: Contents, env: Env): Contents {
    if Refuses(file, env) || !IsDirty(file, env) then file
    else Written(file, LiveOwners(file, env), env.write)
  }

  function AfterPublish(file: Contents, owner: Owner, env: Env): Contents {
    if Refuses(file, env) then file
    else
      var owners := LiveOwners(file, env);
      var attempt := Written(file, owners + [owner], env.write);
      if env.write == NoFault then attempt else Written(attempt, owners, env.rollback)
  }

  predicate Published(file: Contents, env: Env) {
    !Refuses(file, env) && env.write == NoFault
  }

  function AfterWithdraw(file: Contents, token: Token, env: Env): Contents {
    if Refuses(file, env) then file
    else
      var owners := LiveOwners(file, env);
      if |Without(owners, token)| != |owners| then Written(file, Without(owners, token), env.write) else file
  }

  function AfterClear(file: Contents, token: Token, env: Env): Contents {
    if Refuses(file, env) then file
    else
      var owners := LiveOwners(file, env);
      if IsDirty(file, env) || |Without(owners, token)| != |owners| then Written(file, Without(owners, token), env.write)
      else file
  }

  /** The one owner left is this very process. */
  predicate SoleOwnerIs(owners: seq<Owner>, pid: int, me: Me) {
    me.Me? && |owners| == 1 && owners[0].pid == pid && owners[0].identity == Process(me.start, me.boot)
  }

  function AfterClearOwn(file: Contents, pid: int, me: Me, env: Env): Contents {
    if Refuses(file, env) || me.Unidentified? then file
    else
      var owners := LiveOwners(file, env);
      var retained := if SoleOwnerIs(owners, pid, me) then [] else owners;
      if IsDirty(file, env) || |retained| != |owners| then Written(file, retained, env.write) else file
  }

  function Apply(file: Contents, step: Step): Contents {
    match step
    case Read(env) => AfterRead(file, env)
    case Publish(owner, env) => AfterPublish(file, owner, env)
    case Withdraw(token, env) => AfterWithdraw(file, token, env)
    case Clear(token, env) => AfterClear(file, token, env)
    case ClearOwn(pid, me, env) => AfterClearOwn(file, pid, me, env)
  }

  function ReadPause(file: Contents, env: Env): Pause {
    if env.readFails then (if file == Missing then NoPause else Unknown)
    else if file.Future? then Unsupported(file.payload)
    else
      var owners := LiveOwners(file, env);
      if IsDirty(file, env) && env.write != NoFault then
        (if AfterRead(file, env) == Missing then NoPause else Unknown)
      else if owners == [] then NoPause
      else Active(owners)
  }

  // ---------------------------------------------------------------- a running owner

  predicate Running(o: Owner) {
    o.identity.Process? && o.identity.start != "" && o.identity.boot != ""
  }

  /** The file stores `o`, possibly still under the legacy mark. */
  predicate Registered(file: Contents, o: Owner) {
    exists k :: 0 <= k < |Entries(file)| && Entries(file)[k].Claim? && Stores(Entries(file)[k].owner, o)
  }

  /** Procfs never denies `o`'s process, and the clock keeps `o` within age. */
  predicate Supports(file: Contents, o: Owner, env: Env)
    requires Running(o)
  {
    && Plausible(o, env.now)
    && forall k :: 0 <= k < |Entries(file)| && Entries(file)[k].Claim? && Stores(Entries(file)[k].owner, o) ==>
         Vouches(Entries(file)[k].owner, o, env.probes(k))
  }

  /** The step does not release `o`: no other token is `o`'s, and a tokenless clear is not `o`'s own as sole owner. */
  predicate Spares(file: Contents, o: Owner, step: Step) {
    match step
    case Read(_) => true
    case Publish(_, _) => true
    case Withdraw(token, _) => token != o.token
    case Clear(token, _) => token != o.token
    case ClearOwn(pid, me, env) =>
      !(me.Me? && pid == o.pid && o.identity == Process(me.start, me.boot) && |LiveOwners(file, env)| == 1)
  }

  predicate ListsStored(owners: seq<Owner>, o: Owner) {
    exists e :: e in owners && Stores(e, o)
  }

  lemma LiveOwnersList(file: Contents, o: Owner, env: Env)
    requires Running(o) && Registered(file, o) && Supports(file, o, env)
    ensures ListsStored(LiveOwners(file, env), o)
  {
    var k :| 0 <= k < |Entries(file)| && Entries(file)[k].Claim? && Stores(Entries(file)[k].owner, o);
    var e := Entries(file)[k].owner;
    RunningOwnerIsKept(e, o, env.now, env.probes(k));
    SurvivorsHold(Entries(file), env.now, env.probes, k);
    assert Judge(e, env.now, env.probes(k)).owner in Survivor(Entries(file)[k], env.now, env.probes(k));
  }

  lemma WrittenRegisters(file: Contents, owners: seq<Owner>, fault: Fault, o: Owner)
    requires ListsStored(owners, o) && (fault == BeforeReplace ==> Registered(file, o))
    ensures Registered(Written(file, owners, fault), o)
  {
    if fault != BeforeReplace {
      var e :| e in owners && Stores(e, o);
      var i :| 0 <= i < |owners| && owners[i] == e;
      assert Entries(Written(file, owners, fault))[i] == Claim(e);
    }
  }

  lemma {:induction false} WithoutKeeps(owners: seq<Owner>, token: Token)
    ensures |Without(owners, token)| <= |owners|
    ensures forall e :: e in Without(owners, token) <==> e in owners && e.token != token
    ensures |Without(owners, token)| == |owners| <==> Without(owners, token) == owners
  {
    if owners != [] {
      var n := |owners| - 1;
      WithoutKeeps(owners[..n], token);
      assert owners == owners[..n] + [owners[n]];
    }
  }

  lemma WithoutOther(owners: seq<Owner>, token: Token, o: Owner)
    requires ListsStored(owners, o) && token != o.token
    ensures ListsStored(Without(owners, token), o)
  {
    WithoutKeeps(owners, token);
    var e :| e in owners && Stores(e, o);
    assert e in Without(owners, token);
  }

  /** No step but its own release unregisters a running owner, whatever fails. */
  lemma StepKeepsOwner(file: Contents, o: Owner, step: Step)
    requires Running(o) && Registered(file, o) && Supports(file, o, step.env) && Spares(file, o, step)
    ensures Registered(Apply(file, step), o)
  {
    hide Registered, ListsStored, Supports;
    var env := step.env;
    LiveOwnersList(file, o, env);
    var owners := LiveOwners(file, env);
    match step
    case Read(_) =>
      WrittenRegisters(file, owners, env.write, o);
    case Publish(owner, _) =>
      MoreStored(owners, owner, o);
      WrittenRegisters(file, owners + [owner], env.write, o);
      WrittenRegisters(Written(file, owners + [owner], env.write), owners, env.rollback, o);
    case Withdraw(token, _) =>
      WithoutOther(owners, token, o);
      WrittenRegisters(file, Without(owners, token), env.write, o);
    case Clear(token, _) =>
      WithoutOther(owners, token, o);
      WrittenRegisters(file, Without(owners, token), env.write, o);
    case ClearOwn(pid, me, _) =>
      SoleIsStored(owners, pid, me, o);
      WrittenRegisters(file, owners, env.write, o);
  }

  lemma SoleIsStored(owners: seq<Owner>, pid: int, me: Me, o: Owner)
    requires Running(o) && ListsStored(owners, o)
    ensures SoleOwnerIs(owners, pid, me) ==> pid == o.pid && o.identity == Process(me.start, me.boot)
  {
  }

  lemma MoreStored(owners: seq<Owner>, owner: Owner, o: Owner)
    requires ListsStored(owners, o)
    ensures ListsStored(owners + [owner], o)
  {
    var e :| e in owners && Stores(e, o);
    assert e in owners + [owner];
  }

  lemma PublishRegisters(file: Contents, owner: Owner, env: Env)
    requires Published(file, env)
    ensures Registered(AfterPublish(file, owner, env), owner)
  {
    var owners := LiveOwners(file, env) + [owner];
    assert owners[|owners| - 1] == owner && Stores(owner, owner);
    WrittenRegisters(file, owners, NoFault, owner);
  }

  /** A reader never reports "no pause" while a running owner is registered, even when its own writes fail. */
  lemma RegisteredMeansPaused(file: Contents, o: Owner, env: Env)
    requires Running(o) && Registered(file, o) && Supports(file, o, env)
    ensures ReadPause(file, env) != NoPause
    ensures ReadPause(file, env).Active? ==> ListsStored(ReadPause(file, env).owners, o)
  {
    LiveOwnersList(file, o, env);
    StepKeepsOwner(file, o, Read(env));
    assert Registered(file, o) ==> file != Missing;
    assert Registered(AfterRead(file, env), o);
  }

  function Run(file: Contents, steps: seq<Step>): Contents {
    if steps == [] then file else Apply(Run(file, steps[..|steps| - 1]), steps[|steps| - 1])
  }

  /** Through the whole run `o`'s process lives, its age is acceptable and nobody releases it. */
  ghost predicate Outstanding(file: Contents, steps: seq<Step>, o: Owner)
    requires Running(o)
  {
    forall i :: 0 <= i < |steps| ==>
      Supports(Run(file, steps[..i]), o, steps[i].env) && Spares(Run(file, steps[..i]), o, steps[i])
  }

  lemma {:induction false} RunKeepsOwner(file: Contents, steps: seq<Step>, o: Owner)
    requires Running(o) && Registered(file, o) && Outstanding(file, steps, o)
    ensures Registered(Run(file, steps), o)
  {
    if steps != [] {
      var n := |steps| - 1;
      forall i | 0 <= i < n
        ensures Supports(Run(file, steps[..n][..i]), o, steps[..n][i].env) && Spares(Run(file, steps[..n][..i]), o, steps[..n][i])
      {
        assert steps[..n][..i] == steps[..i];
      }
      RunKeepsOwner(file, steps[..n], o);
      StepKeepsOwner(Run(file, steps[..n]), o, steps[n]);
    }
  }

  /**
   From the return of its request until its release, a running owner stays
   registered and every reader sees a pause, over every interleaving of requests,
   reads, releases, failures and other owners' deaths.
   */
  lemma GrantedOwnerHoldsThePause(file: Contents, owner: Owner, env: Env, steps: seq<Step>, reader: Env)
    requires Running(owner) && Published(file, env)
    requires Outstanding(AfterPublish(file, owner, env), steps, owner)
    requires Supports(Run(AfterPublish(file, owner, env), steps), owner, reader)
    ensures Registered(Run(AfterPublish(file, owner, env), steps), owner)
    ensures ReadPause(Run(AfterPublish(file, owner, env), steps), reader) != NoPause
  {
    PublishRegisters(file, owner, env);
    RunKeepsOwner(AfterPublish(file, owner, env), steps, owner);
    RegisteredMeansPaused(Run(AfterPublish(file, owner, env), steps), owner, reader);
  }

  /** The same for an owner found in the singleton format: one token, through migration and after it. */
  lemma LegacyOwnerHoldsThePause(o: Owner, steps: seq<Step>, reader: Env)
    requires Running(o) && o.token == Derived(o.pid, o.requestedAt, o.reason)
    requires var file := Singleton(o.reason, o.pid, o.requestedAt);
             Outstanding(file, steps, o) && Supports(Run(file, steps), o, reader)
    ensures var file := Run(Singleton(o.reason, o.pid, o.requestedAt), steps);
            Registered(file, o) && ReadPause(file, reader) != NoPause
  {
    var file := Singleton(o.reason, o.pid, o.requestedAt);
    assert Entries(file)[0].Claim? && Stores(Entries(file)[0].owner, o);
    RunKeepsOwner(file, steps, o);
    RegisteredMeansPaused(Run(file, steps), o, reader);
  }

  /** A marker of an unknown version survives every run, and reads as a pause. */
  lemma {:induction false} FutureSchemaIsUntouched(file: Contents, steps: seq<Step>, env: Env)
    requires file.Future?
    ensures Run(file, steps) == file && ReadPause(file, env) != NoPause
  {
    if steps != [] {
      FutureSchemaIsUntouched(file, steps[..|steps| - 1], env);
    }
  }

  predicate HoldsToken(file: Contents, token: Token) {
    exists k :: 0 <= k < |Entries(file)| && Entries(file)[k].Claim? && Entries(file)[k].owner.token == token
  }

  lemma {:induction false} SurvivorTokens(entries: seq<Entry>, now: real, probes: nat -> Probe, o: Owner)
    requires o in Survivors(entries, now, probes)
    ensures exists k :: 0 <= k < |entries| && entries[k].Claim? && entries[k].owner.token == o.token
  {
    var k := SurvivorsComeFrom(entries, now, probes, o);
    assert entries[k].Claim? && entries[k].owner.token == o.token;
  }

  lemma WrittenTokens(owners: seq<Owner>, token: Token)
    ensures HoldsToken(Written(Missing, owners, NoFault), token) <==> exists o :: o in owners && o.token == token
  {
    var file := Written(Missing, owners, NoFault);
    if exists o :: o in owners && o.token == token {
      var o :| o in owners && o.token == token;
      var i :| 0 <= i < |owners| && owners[i] == o;
      assert Entries(file)[i] == Claim(o);
    }
  }

  /**
   A request that fails while publishing leaves the owners that were live and nobody
   else, unless its own rollback fails too after the new file was in place: exactly
   then the failed request's owner is left behind.
   */
  lemma FailedRequestLeavesOthers(file: Contents, owner: Owner, env: Env)
    requires !Published(file, env) && !HoldsToken(file, owner.token)
    ensures var after := AfterPublish(file, owner, env);
            && (after == file || after == Written(Missing, LiveOwners(file, env), NoFault)
                || after == Registry(Claims(LiveOwners(file, env) + [owner])))
            && (HoldsToken(after, owner.token) <==>
                 !Refuses(file, env) && env.write == AfterReplace && env.rollback == BeforeReplace)
  {
    var owners := LiveOwners(file, env);
    WrittenTokens(owners, owner.token);
    WrittenTokens(owners + [owner], owner.token);
    forall o | o in owners
      ensures o.token != owner.token
    {
      SurvivorTokens(Entries(file), env.now, env.probes, o);
    }
    assert owner in owners + [owner];
  }

  /** Some live owner carries the token. */
  predicate LiveToken(file: Contents, token: Token, env: Env) {
    exists o :: o in LiveOwners(file, env) && o.token == token
  }

  /** The file when a withdrawal after publication takes the lock, `others` having run in between. */
  function AtWithdrawal(file: Contents, owner: Owner, env: Env, others: seq<Step>): Contents {
    Run(AfterPublish(file, owner, env), others)
  }

  /** What a request leaves that was refused after its identity had been verified. */
  function AfterRefusal(file: Contents, owner: Owner, env: Env, others: seq<Step>, late: Env): Contents {
    if Published(file, env) then AfterWithdraw(AtWithdrawal(file, owner, env, others), owner.token, late)
    else AfterPublish(file, owner, env)
  }

  /**
   When a refused request leaves its own owner behind. If it never published: the new file
   was in place and the rollback failed before replacing it. If it published and was then
   interrupted: its owner was still in the file, and the withdrawal could not read the
   file, did not find the owner live, or failed before replacing the file.
   */
  predicate LeavesOwner(file: Contents, owner: Owner, env: Env, others: seq<Step>, late: Env) {
    if Published(file, env) then
      var held := AtWithdrawal(file, owner, env, others);
      HoldsToken(held, owner.token)
      && (Refuses(held, late) || !LiveToken(held, owner.token, late) || late.write == BeforeReplace)
    else !Refuses(file, env) && env.write == AfterReplace && env.rollback == BeforeReplace
  }

  lemma WithdrawLeavesIff(file: Contents, token: Token, env: Env)
    ensures HoldsToken(AfterWithdraw(file, token, env), token) <==>
              HoldsToken(file, token) && (Refuses(file, env) || !LiveToken(file, token, env) || env.write == BeforeReplace)
  {
    hide HoldsToken, Refuses, LiveOwners;
    if !Refuses(file, env) {
      var owners := LiveOwners(file, env);
      WithoutKeeps(owners, token);
      SameWithout(owners, token);
      if LiveToken(file, token, env) {
        LiveIsHeld(file, token, env);
        if env.write != BeforeReplace {
          WithoutHoldsNone(file, owners, token, env.write);
        }
      }
    }
  }

  lemma SameWithout(owners: seq<Owner>, token: Token)
    ensures |Without(owners, token)| != |owners| <==> exists o :: o in owners && o.token == token
  {
    WithoutKeeps(owners, token);
  }

  lemma LiveIsHeld(file: Contents, token: Token, env: Env)
    requires LiveToken(file, token, env)
    ensures HoldsToken(file, token)
  {
    var o :| o in LiveOwners(file, env) && o.token == token;
    SurvivorTokens(Entries(file), env.now, env.probes, o);
  }

  lemma WithoutHoldsNone(file: Contents, owners: seq<Owner>, token: Token, fault: Fault)
    requires fault != BeforeReplace
    ensures !HoldsToken(Written(file, Without(owners, token), fault), token)
  {
    WithoutKeeps(owners, token);
    WrittenTokens(Without(owners, token), token);
  }

  /** Exactly when a request that was refused leaves its own owner in the file. */
  lemma RefusedRequestLeavesOwnerIff(file: Contents, owner: Owner, env: Env, others: seq<Step>, late: Env)
    requires !HoldsToken(file, owner.token)
    ensures HoldsToken(AfterRefusal(file, owner, env, others, late), owner.token) <==>
              LeavesOwner(file, owner, env, others, late)
  {
    hide HoldsToken, LiveToken, Refuses, LiveOwners, AfterWithdraw;
    if Published(file, env) {
      WithdrawLeavesIff(AtWithdrawal(file, owner, env, others), owner.token, late);
    } else {
      FailedRequestLeavesOthers(file, owner, env);
    }
  }

  /**
   While the requesting process runs and nobody released it, an interrupted request leaves
   its owner exactly when the withdrawal's read fails or its write fails before replacing.
   */
  lemma RunningRequestLeavesOwnerIff(file: Contents, owner: Owner, env: Env, others: seq<Step>, late: Env)
    requires Running(owner) && Published(file, env)
    requires Outstanding(AfterPublish(file, owner, env), others, owner)
    requires Supports(AtWithdrawal(file, owner, env, others), owner, late)
    ensures HoldsToken(AfterRefusal(file, owner, env, others, late), owner.token) <==>
              late.readFails || late.write == BeforeReplace
  {
    PublishRegisters(file, owner, env);
    RunKeepsOwner(AfterPublish(file, owner, env), others, owner);
    var held := AtWithdrawal(file, owner, env, others);
    RegisteredIsLive(held, owner, late);
    WithdrawLeavesIff(held, owner.token, late);
  }

  lemma RegisteredIsLive(file: Contents, o: Owner, env: Env)
    requires Running(o) && Registered(file, o) && Supports(file, o, env)
    ensures LiveToken(file, o.token, env) && HoldsToken(file, o.token) && !file.Future?
  {
    LiveOwnersList(file, o, env);
    var e :| e in LiveOwners(file, env) && Stores(e, o);
    assert e.token == o.token;
    LiveIsHeld(file, o.token, env);
  }

  lemma EntriesWithout(file: Contents, owners: seq<Owner>, token: Token)
    requires Entries(file) == Claims(Without(owners, token))
    ensures !HoldsToken(file, token)
    ensures forall o :: o in owners && o.token != token ==> Claim(o) in Entries(file)
  {
    var kept := Without(owners, token);
    WithoutKeeps(owners, token);
    assert forall i :: 0 <= i < |kept| ==> Entries(file)[i] == Claim(kept[i]) && kept[i] in kept;
    forall o | o in owners && o.token != token
      ensures Claim(o) in Entries(file)
    {
      var i :| 0 <= i < |kept| && kept[i] == o;
      assert Entries(file)[i] == Claim(o);
    }
  }

  /** Releasing a token writes back every other live owner, in order, and nothing else. */
  lemma ClearReleasesExactly(file: Contents, token: Token, env: Env)
    requires !Refuses(file, env) && env.write == NoFault
    ensures var after := AfterClear(file, token, env);
            && Entries(after) == Claims(Without(LiveOwners(file, env), token))
            && !HoldsToken(after, token)
            && (forall o :: o in LiveOwners(file, env) && o.token != token ==> Claim(o) in Entries(after))
  {
    hide LiveOwners, IsDirty, HoldsToken;
    var owners := LiveOwners(file, env);
    WithoutKeeps(owners, token);
    if !IsDirty(file, env) {
      TidyFile(file, env);
    }
    assert Entries(AfterClear(file, token, env)) == Claims(Without(owners, token));
    EntriesWithout(AfterClear(file, token, env), owners, token);
  }

  lemma TidyFile(file: Contents, env: Env)
    requires !IsDirty(file, env) && !file.Future?
    ensures Entries(file) == Claims(LiveOwners(file, env))
  {
    TidyIsSurvivors(Entries(file), env.now, env.probes);
  }

  /** After a read that reports no pause and failed nowhere, no marker is left to say otherwise. */
  lemma NoPauseLeavesNoMarker(file: Contents, env: Env)
    requires ReadPause(file, env) == NoPause
    ensures AfterRead(file, env) == Missing
  {
    if !env.readFails && !IsDirty(file, env) && file != Missing {
      TidyFile(file, env);
    }
  }

  /** Every owner the file stands for is out of age, or procfs disproves it. */
  predicate AllVoid(file: Contents, env: Env) {
    forall k :: 0 <= k < |Entries(file)| ==> Void(Entries(file)[k], env.now, env.probes(k))
  }

  /**
   A read of a marker this version understands, when it can read and write it: no pause,
   and no marker left, exactly when every owner is void; otherwise the owners that are not,
   which is then what the file holds.
   */
  lemma ReadAnswers(file: Contents, env: Env)
    requires !env.readFails && !file.Future? && env.write == NoFault
    ensures AllVoid(file, env) ==> ReadPause(file, env) == NoPause && AfterRead(file, env) == Missing
    ensures !AllVoid(file, env) ==>
              && ReadPause(file, env) == Active(LiveOwners(file, env))
              && LiveOwners(file, env) != []
              && Entries(AfterRead(file, env)) == Claims(LiveOwners(file, env))
  {
    NobodySurvivesIff(Entries(file), env.now, env.probes);
    if !IsDirty(file, env) {
      TidyFile(file, env);
      assert AllVoid(file, env) ==> Entries(file) == [] && file == Missing;
    }
  }

  /** Yesterday's owners pause nobody: a version-2 or singleton marker whose owners are all out of age goes away. */
  lemma OldMarkerGoesAway(file: Contents, env: Env)
    requires file.Registry? || file.Singleton?
    requires !env.readFails && env.write == NoFault
    requires forall e :: e in Entries(file) && e.Claim? ==>
               var o := e.owner;
               o.pid <= 0 || o.reason == "" || o.requestedAt < env.now - 14400.0 || o.requestedAt > env.now + 5.0
    ensures ReadPause(file, env) == NoPause && AfterRead(file, env) == Missing
  {
    hide ReadPause, AfterRead;
    ReadAnswers(file, env);
    forall k | 0 <= k < |Entries(file)| ensures Void(Entries(file)[k], env.now, env.probes(k)) {
      assert Entries(file)[k] in Entries(file);
    }
  }

  /** A reader rewrites the file only if it does not hold exactly the live owners. */
  lemma ReadRewritesIff(file: Contents, env: Env)
    requires file.Registry? && file.entries != []
    ensures IsDirty(file, env) <==> file != Registry(Claims(LiveOwners(file, env)))
  {
    if IsDirty(file, env) {
      if file == Registry(Claims(LiveOwners(file, env))) {
        SurvivorsAreTidy(Entries(file), env.now, env.probes);
      }
    } else {
      TidyFile(file, env);
    }
  }

  /** A release without a token removes the marker for this very process alone, and nobody else's owner. */
  lemma ClearOwnReleasesExactly(file: Contents, pid: int, me: Me, env: Env)
    requires !env.readFails && !file.Future? && env.write == NoFault && me.Me?
    ensures var owners, after := LiveOwners(file, env), AfterClearOwn(file, pid, me, env);
            if |owners| == 1 && owners[0].pid == pid && owners[0].identity == Process(me.start, me.boot) then after == Missing
            else Entries(after) == Claims(owners)
  {
    hide LiveOwners, IsDirty;
    if !IsDirty(file, env) {
      TidyFile(file, env);
    }
  }
}
