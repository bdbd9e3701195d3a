/** The calls other components make on the registry file, section by section. */
module PauseFile {
  import opened Wrappers
  import opened SpokenText
  import opened PauseOwners
  import opened PauseRegistry

  datatype RequestError = BadPid | BadReason | UnverifiedIdentity | UnsupportedSchema | IoFailure

  datatype Grant = Granted(token: Token) | Refused(error: RequestError)

  predicate BlankText(s: string) {
    forall i :: 0 <= i < |s| ==> Blank(s[i])
  }

  /** The identity a request is registered under, if procfs vouches for its process. */
  function OwnIdentity(p: Probe): (r: Option<Identity>)
    ensures r.Some? ==> r.value.Process? && r.value.start != "" && r.value.boot != ""
    ensures p.process.Stat? && p.boot.Boot? && p.process.state !in {'Z', 'X', 'x'} && p.process.start != "" && p.boot.id != "" ==>
              r == Some(Process(p.process.start, p.boot.id))
    ensures r.Some? ==> p.process.Stat? && p.boot.Boot? && p.process.state !in {'Z', 'X', 'x'}
  {
    if !p.process.Stat? || !p.boot.Boot? || Defunct(p.process.state) || p.process.start == "" || p.boot.id == "" then None
    else Some(Process(p.process.start, p.boot.id))
  }

  /** The scan's owners and dirty flag after the first `i` entries. */
  ghost predicate Scanned(file: Contents, env: Env, i: nat, owners: seq<Owner>, dirty: bool)
    requires i <= |Entries(file)|
  {
    && owners == Survivors(Entries(file)[..i], env.now, env.probes)
    && (dirty <==> StartsDirty(file) || SomeUntidy(Entries(file)[..i], env.now, env.probes))
  }

  predicate StartsDirty(file: Contents) {
    file.Garbage? || file.Singleton? || file == Registry([])
  }

  lemma ScanStep(file: Contents, env: Env, i: nat, owners: seq<Owner>, dirty: bool)
    requires i < |Entries(file)| && Scanned(file, env, i, owners, dirty)
    ensures var e := Entries(file)[i]; var p := env.probes(i);
            Scanned(file, env, i + 1, owners + Survivor(e, env.now, p), dirty || Untidy(e, env.now, p))
  {
    var all := Entries(file);
    assert all[..i + 1][..i] == all[..i];
    assert forall k :: 0 <= k < i ==> all[..i + 1][k] == all[..i][k];
    if SomeUntidy(all[..i], env.now, env.probes) {
      var k :| 0 <= k < i && Untidy(all[..i][k], env.now, env.probes(k));
      assert Untidy(all[..i + 1][k], env.now, env.probes(k));
    }
    if Untidy(all[i], env.now, env.probes(i)) {
      assert Untidy(all[..i + 1][i], env.now, env.probes(i));
    }
  }

  lemma ScanDone(file: Contents, env: Env, owners: seq<Owner>, dirty: bool)
    requires Scanned(file, env, |Entries(file)|, owners, dirty) && !file.Future?
    ensures owners == LiveOwners(file, env) && dirty == IsDirty(file, env)
  {
    TakeAll(Entries(file));
  }

  class PauseMarker {
    var file: Contents

    constructor ()
      ensures file == Missing
    {
      file := Missing;
    }

    /** `_read_live_owners_unlocked` on a file this version understands. */
    method ReadLiveOwners(env: Env) returns (owners: seq<Owner>, dirty: bool)
      requires !file.Future?
      ensures owners == LiveOwners(file, env) && dirty == IsDirty(file, env)
      ensures owners == [] <==> AllVoid(file, env)
      ensures file.Registry? && file.entries != [] ==> (dirty <==> file != Registry(Claims(owners)))
    {
      var raw := Entries(file);
      owners := [];
      dirty := file.Garbage? || file.Singleton? || file == Registry([]);
      var i := 0;
      while i < |raw|
        invariant 0 <= i <= |raw|
        invariant Scanned(file, env, i, owners, dirty)
      {
        ScanStep(file, env, i, owners, dirty);
        match raw[i] {
          case Junk =>
            dirty := true;
          case Claim(owner) =>
            match Judge(owner, env.now, env.probes(i)) {
              case Keep(normalized, migrated) =>
                dirty := dirty || migrated || normalized != owner;
                owners := owners + [normalized];
              case Drop =>
                dirty := true;
            }
        }
        i := i + 1;
      }
      ScanDone(file, env, owners, dirty);
      NobodySurvivesIff(Entries(file), env.now, env.probes);
      if file.Registry? && file.entries != [] {
        ReadRewritesIff(file, env);
      }
    }

    /** `_write_owners_unlocked`; false when it raised. */
    method WriteOwners(owners: seq<Owner>, fault: Fault) returns (ok: bool)
      modifies this
      ensures file == Written(old(file), owners, fault) && ok == (fault == NoFault)
    {
      ok := fault == NoFault;
      if fault != BeforeReplace {
        file := if owners == [] then Missing else Registry(Claims(owners));
      }
    }

    method ReadAmbientPause(env: Env) returns (pause: Pause)
      modifies this
      ensures pause == ReadPause(old(file), env) && file == AfterRead(old(file), env)
      ensures !env.readFails && !old(file).Future? && env.write == NoFault ==>
                (if AllVoid(old(file), env) then pause == NoPause && file == Missing
                 else pause == Active(LiveOwners(old(file), env)) && Entries(file) == Claims(pause.owners))
      ensures env.readFails || old(file).Future? ==>
                && file == old(file)
                && pause == if file == Missing then NoPause else if env.readFails then Unknown else Unsupported(file.payload)
    {
      if !env.readFails && !file.Future? && env.write == NoFault {
        ReadAnswers(file, env);
      }
      if env.readFails {
        return if file == Missing then NoPause else Unknown;
      }
      if file.Future? {
        return Unsupported(file.payload);
      }
      var owners, dirty := ReadLiveOwners(env);
      if dirty {
        var ok := WriteOwners(owners, env.write);
        if !ok {
          return if file == Missing then NoPause else Unknown;
        }
      }
      pause := if owners == [] then NoPause else Active(owners);
    }

    /** Other processes' sections while this one holds no lock. */
    method Interlude(others: seq<Step>)
      modifies this
      ensures file == Run(old(file), others)
    {
      file := Run(file, others);
    }

    /** The locked section that adds an owner, and its rollback. */
    method PublishOwner(owner: Owner, env: Env) returns (error: Option<RequestError>)
      modifies this
      ensures file == AfterPublish(old(file), owner, env)
      ensures error.None? <==> Published(old(file), env)
      ensures error.None? ==> Registered(file, owner)
      ensures error.Some? ==> error.value == if !env.readFails && old(file).Future? then UnsupportedSchema else IoFailure
    {
      if env.readFails {
        return Some(IoFailure);
      }
      if file.Future? {
        return Some(UnsupportedSchema);
      }
      PublishRegistersIf(file, owner, env);
      var owners, _ := ReadLiveOwners(env);
      var ok := WriteOwners(owners + [owner], env.write);
      if ok {
        return None;
      }
      var _ := WriteOwners(owners, env.rollback);
      error := Some(IoFailure);
    }

    /** Removes exactly one token after a publication its caller never learned of. */
    method WithdrawToken(token: Token, env: Env)
      modifies this
      ensures file == AfterWithdraw(old(file), token, env)
    {
      if env.readFails || file.Future? {
        return;
      }
      var current, _ := ReadLiveOwners(env);
      var retained := DropToken(current, token);
      if |retained| != |current| {
        var _ := WriteOwners(retained, env.write);
      }
    }

    /**
     `request_ambient_pause`. `own` is what procfs says of the requesting process;
     `interrupted` means something raised after publication, `others` what other
     processes did before the clean-up took the lock again in `late`.
     */
    method RequestAmbientPause(
        reason: string, pid: int, serial: nat, at: real, own: Probe, env: Env, interrupted: bool,
        others: seq<Step>, late: Env)
      returns (r: Grant)
      modifies this
      ensures r.Granted? <==>
                pid > 0 && !BlankText(reason) && OwnIdentity(own).Some? && Published(old(file), env) && !interrupted
      ensures r.Granted? ==>
                var owner := Owner(Issued(serial), reason, pid, at, OwnIdentity(own).value);
                && r.token == owner.token && Running(owner) && Registered(file, owner)
                && file == AfterPublish(old(file), owner, env)
      ensures pid <= 0 ==> r == Refused(BadPid)
      ensures pid > 0 && BlankText(reason) ==> r == Refused(BadReason)
      ensures pid > 0 && !BlankText(reason) && OwnIdentity(own).None? ==> r == Refused(UnverifiedIdentity)
      ensures r.Refused? && pid > 0 && !BlankText(reason) && OwnIdentity(own).Some? ==>
                r.error == if !env.readFails && old(file).Future? then UnsupportedSchema else IoFailure
      ensures r.Refused? && (pid <= 0 || BlankText(reason) || OwnIdentity(own).None?) ==> file == old(file)
      ensures r.Refused? && pid > 0 && !BlankText(reason) && OwnIdentity(own).Some? ==>
                var owner := Owner(Issued(serial), reason, pid, at, OwnIdentity(own).value);
                && file == AfterRefusal(old(file), owner, env, others, late)
                && (!HoldsToken(old(file), owner.token) ==>
                      (HoldsToken(file, owner.token) <==> LeavesOwner(old(file), owner, env, others, late)))
    {
      if pid <= 0 {
        return Refused(BadPid);
      }
      if BlankText(reason) {
        return Refused(BadReason);
      }
      var identity := OwnIdentity(own);
      if identity.None? {
        return Refused(UnverifiedIdentity);
      }
      var token := Issued(serial);
      var owner := Owner(token, reason, pid, at, identity.value);
      RefusedLeaves(file, owner, env, others, late);
      var error := PublishOwner(owner, env);
      if error.Some? {
        return Refused(error.value);
      }
      if interrupted {
        Interlude(others);
        WithdrawToken(token, late);
        return Refused(IoFailure);
      }
      r := Granted(token);
    }

    /** `clear_ambient_pause(token)`. */
    method ClearAmbientPause(token: Token, env: Env)
      modifies this
      ensures file == AfterClear(old(file), token, env)
    {
      if env.readFails || file.Future? {
        return;
      }
      var owners, dirty := ReadLiveOwners(env);
      var retained := DropToken(owners, token);
      if dirty || |retained| != |owners| {
        var _ := WriteOwners(retained, env.write);
      }
    }

    /** `clear_ambient_pause()` without a token. */
    method ClearOwnPause(pid: int, me: Me, env: Env)
      modifies this
      ensures file == AfterClearOwn(old(file), pid, me, env)
      ensures !env.readFails && !old(file).Future? && env.write == NoFault && me.Me? ==>
                var owners := LiveOwners(old(file), env);
                if |owners| == 1 && owners[0].pid == pid && owners[0].identity == Process(me.start, me.boot) then file == Missing
                else Entries(file) == Claims(owners)
    {
      if !env.readFails && !file.Future? && env.write == NoFault && me.Me? {
        ClearOwnReleasesExactly(file, pid, me, env);
      }
      if env.readFails || file.Future? {
        return;
      }
      var owners, dirty := ReadLiveOwners(env);
      if me.Unidentified? {
        return;
      }
      var mine := |owners| == 1 && owners[0].pid == pid && owners[0].identity == Process(me.start, me.boot);
      var retained := if mine then [] else owners;
      if dirty || |retained| != |owners| {
        var _ := WriteOwners(retained, env.write);
      }
    }
  }

  lemma RefusedLeaves(file: Contents, owner: Owner, env: Env, others: seq<Step>, late: Env)
    ensures !HoldsToken(file, owner.token) ==>
              (HoldsToken(AfterRefusal(file, owner, env, others, late), owner.token) <==>
                 LeavesOwner(file, owner, env, others, late))
  {
    if !HoldsToken(file, owner.token) {
      RefusedRequestLeavesOwnerIff(file, owner, env, others, late);
    }
  }

  /** How holding the microphone ended. */
  datatype MicOutcome = NotGranted | Busy | BodyDone

  /**
   `pause_ambient_for_mic`: ask for the pause, wait for the microphone, run the
   body, and release the token on every way out.
   */
  method HoldMicrophone(
      marker: PauseMarker, reason: string, pid: int, serial: nat, at: real, own: Probe, env: Env, interrupted: bool,
      cleanup: seq<Step>, late: Env, micFree: bool, waiting: seq<Step>, body: seq<Step>, release: Env)
    returns (outcome: MicOutcome)
    requires pid > 0 && !BlankText(reason) && OwnIdentity(own).Some?
    modifies marker
    ensures outcome.NotGranted? <==> !Published(old(marker.file), env) || interrupted
    ensures !outcome.NotGranted? ==>
              var owner := Owner(Issued(serial), reason, pid, at, OwnIdentity(own).value);
              var held := Run(Run(AfterPublish(old(marker.file), owner, env), waiting), if micFree then body else []);
              && (outcome.BodyDone? <==> micFree)
              && marker.file == AfterClear(held, owner.token, release)
              && (!Refuses(held, release) && release.write == NoFault ==> !HoldsToken(marker.file, owner.token))
  {
    var grant := marker.RequestAmbientPause(reason, pid, serial, at, own, env, interrupted, cleanup, late);
    if grant.Refused? {
      return NotGranted;
    }
    marker.Interlude(waiting);
    if micFree {
      marker.Interlude(body);
    }
    ghost var held := marker.file;
    marker.ClearAmbientPause(grant.token, release);
    if !Refuses(held, release) && release.write == NoFault {
      ClearReleasesExactly(held, grant.token, release);
    }
    outcome := if micFree then BodyDone else Busy;
  }

  lemma PublishRegistersIf(file: Contents, owner: Owner, env: Env)
    ensures Published(file, env) ==> Registered(AfterPublish(file, owner, env), owner)
  {
    if Published(file, env) {
      PublishRegisters(file, owner, env);
    }
  }

  /** The list comprehension that drops one token. */
  method DropToken(owners: seq<Owner>, token: Token) returns (retained: seq<Owner>)
    ensures retained == Without(owners, token)
  {
    retained := [];
    var i := 0;
    while i < |owners|
      invariant 0 <= i <= |owners|
      invariant retained == Without(owners[..i], token)
    {
      assert owners[..i + 1][..i] == owners[..i];
      if owners[i].token != token {
        retained := retained + [owners[i]];
      }
      i := i + 1;
    }
    TakeAll(owners);
  }
}
