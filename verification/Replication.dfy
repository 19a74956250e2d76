/**
 * Replicating the keystore to gateways by version compare-and-swap: the store, its file and
 * every gateway's copy as one transition system (internal/store/keystore.go,
 * internal/store/keystore_persist.go, internal/gateway/spine_pull.go,
 * internal/gateway/keystore.go).
 */
module Replication {
  import opened Common
  import opened Keys

  // ---- a gateway's decision on one credential ----

  datatype Principal = Principal(appId: string, keyId: string, subject: string, baseline: string)

  function AuthenticateKeystore(v: View, kid: string, secret: string, route: string, now: Time,
                                digest: string -> string): Option<Principal>
  {
    if kid !in v.keys then None
    else
      var k := v.keys[kid];
      if digest(secret) != k.digest || !k.Active(now) || !k.AllowsRoute(route) then None
      else if k.appId !in v.apps || v.apps[k.appId].disabled then None
      else Some(Principal(v.apps[k.appId].id, k.id, k.subject, v.apps[k.appId].baseline))
  }

  /**
   * A credential is accepted exactly if its secret has the digest on record and its key is
   * unrevoked, unexpired, good for the route and of an enabled app, whose baseline then applies.
   */
  lemma AuthenticatesExactly(v: View, kid: string, secret: string, route: string, now: Time, digest: string -> string)
    ensures var p := AuthenticateKeystore(v, kid, secret, route, now, digest);
      && (p.Some? <==>
            && kid in v.keys && v.keys[kid].digest == digest(secret) && v.keys[kid].revokedAt == None
            && (v.keys[kid].expiresAt == None || now < v.keys[kid].expiresAt.value)
            && (v.keys[kid].routes == [] || route in v.keys[kid].routes)
            && v.keys[kid].appId in v.apps && !v.apps[v.keys[kid].appId].disabled)
      && (p.Some? ==>
            var k, a := v.keys[kid], v.apps[v.keys[kid].appId];
            p.value.appId == a.id && p.value.keyId == k.id && p.value.subject == k.subject
              && p.value.baseline == a.baseline)
  {
  }

  predicate Revoked(v: View, kid: string) { kid in v.keys && v.keys[kid].revokedAt.Some? }

  // ---- the system ----

  /** The control plane's store, the content of its file, and the copies gateways hold. */
  datatype Sys = Sys(store: View, disk: View, gateways: map<string, View>)

  const START := Sys(EMPTY_VIEW, EMPTY_VIEW, map[])

  datatype Step =
    | Create(app: App, now: Time, writes: bool)
    | Update(id: string, baseline: Option<string>, disabled: Option<bool>, name: Option<string>, writes: bool)
    | Issue(request: KeyRequest, kid: string, digest: string, now: Time, writes: bool)
    | Revoke(kid: string, now: Time, writes: bool)
    | Pull(gateway: string)
    | PullFailed(gateway: string)
    | GatewayRestart(gateway: string)
    | Restart

  /** The outcome of a mutation: a refused one changes nothing, a failed write only the memory. */
  function Commit(s: Sys, next: Result<View>, writes: bool): Sys {
    if next.Err? || next.value == s.store then s
    else Sys(next.value, if writes then next.value else s.disk, s.gateways)
  }

  /** A pull: a copy with the same version is kept, any other is replaced. */
  function PullInto(s: Sys, g: string): Sys {
    if g in s.gateways && s.gateways[g].version == s.store.version then s
    else s.(gateways := s.gateways[g := s.store])
  }

  function Apply(s: Sys, step: Step): Sys {
    match step
    case Create(app, now, writes) => Commit(s, CreateAppIn(s.store, app, now), writes)
    case Update(id, baseline, disabled, name, writes) =>
      Commit(s, UpdateAppIn(s.store, id, baseline, disabled, name), writes)
    case Issue(request, kid, digest, now, writes) => Commit(s, IssueKeyIn(s.store, request, kid, digest, now), writes)
    case Revoke(kid, now, writes) => Commit(s, RevokeKeyIn(s.store, kid, now), writes)
    case Pull(g) => PullInto(s, g)
    case PullFailed(g) => s
    case GatewayRestart(g) => s.(gateways := s.gateways - {g})
    case Restart => s.(store := s.disk)
  }

  /** No gateway is ahead of the file. */
  predicate Safe(s: Sys) {
    forall g :: g in s.gateways ==> s.gateways[g].version <= s.disk.version
  }

  predicate Fresh(s: Sys, kid: string) {
    && kid !in s.store.keys && kid !in s.disk.keys
    && forall g :: g in s.gateways ==> kid !in s.gateways[g].keys
  }

  /** Minted ids are fresh, and the control plane restarts only from a file no gateway is ahead of. */
  predicate Guarded(s: Sys, step: Step) {
    && (step.Issue? ==> Fresh(s, step.kid))
    && (step.Restart? ==> Safe(s))
  }

  function Run(s: Sys, steps: seq<Step>): Sys
    decreases |steps|
  {
    if steps == [] then s else Run(Apply(s, steps[0]), steps[1..])
  }

  predicate GuardedRun(s: Sys, steps: seq<Step>)
    decreases |steps|
  {
    steps == [] || (Guarded(s, steps[0]) && GuardedRun(Apply(s, steps[0]), steps[1..]))
  }

  /** Equal versions mean equal contents. */
  predicate Agree(v: View, w: View) { v.version == w.version ==> v == w }

  ghost predicate Consistent(s: Sys) {
    && Keyed(s.store) && Keyed(s.disk)
    && s.disk.version <= s.store.version && Agree(s.disk, s.store)
    && (forall g :: g in s.gateways ==>
          Keyed(s.gateways[g]) && s.gateways[g].version <= s.store.version
          && Agree(s.gateways[g], s.store) && Agree(s.gateways[g], s.disk))
    && (forall g, h :: g in s.gateways && h in s.gateways ==> Agree(s.gateways[g], s.gateways[h]))
  }

  lemma StartConsistent()
    ensures Consistent(START)
  {
  }

  /** A mutation that changes the store advances its version by one and keeps records keyed. */
  lemma MutationAdvances(v: View, step: Step, next: Result<View>)
    requires Keyed(v)
    requires match step
             case Create(app, now, _) => next == CreateAppIn(v, app, now)
             case Update(id, baseline, disabled, name, _) => next == UpdateAppIn(v, id, baseline, disabled, name)
             case Issue(request, kid, digest, now, _) =>
               next == IssueKeyIn(v, request, kid, digest, now) && kid !in v.keys
             case Revoke(kid, now, _) => next == RevokeKeyIn(v, kid, now)
             case _ => false
    ensures next.Ok? ==> Keyed(next.value) && (next.value == v || next.value.version == v.version + 1)
    ensures next.Ok? ==> forall kid :: Revoked(v, kid) ==> Revoked(next.value, kid)
  {
  }

  lemma CommitConsistent(s: Sys, next: Result<View>, writes: bool)
    requires Consistent(s)
    requires next.Ok? ==> Keyed(next.value) && (next.value == s.store || next.value.version == s.store.version + 1)
    ensures Consistent(Commit(s, next, writes))
  {
  }

  lemma StepConsistent(s: Sys, step: Step)
    requires Consistent(s) && Guarded(s, step)
    ensures Consistent(Apply(s, step))
  {
    match step {
      case Create(app, now, writes) =>
        MutationAdvances(s.store, step, CreateAppIn(s.store, app, now));
        CommitConsistent(s, CreateAppIn(s.store, app, now), writes);
      case Update(id, baseline, disabled, name, writes) =>
        MutationAdvances(s.store, step, UpdateAppIn(s.store, id, baseline, disabled, name));
        CommitConsistent(s, UpdateAppIn(s.store, id, baseline, disabled, name), writes);
      case Issue(request, kid, digest, now, writes) =>
        MutationAdvances(s.store, step, IssueKeyIn(s.store, request, kid, digest, now));
        CommitConsistent(s, IssueKeyIn(s.store, request, kid, digest, now), writes);
      case Revoke(kid, now, writes) =>
        MutationAdvances(s.store, step, RevokeKeyIn(s.store, kid, now));
        CommitConsistent(s, RevokeKeyIn(s.store, kid, now), writes);
      case _ =>
    }
  }

  /** Over every guarded run, equal versions mean equal apps and keys, everywhere. */
  lemma {:induction false} RunConsistent(s: Sys, steps: seq<Step>)
    requires Consistent(s) && GuardedRun(s, steps)
    ensures Consistent(Run(s, steps))
    decreases |steps|
  {
    if steps == [] {
    } else {
      StepConsistent(s, steps[0]);
      RunConsistent(Apply(s, steps[0]), steps[1..]);
    }
  }

  /**
   * Skipping an equal version is sound: after a pull the gateway holds exactly what the store
   * holds, so for every credential it decides exactly as the store's contents do.
   */
  lemma PullIsExact(steps: seq<Step>, g: string)
    requires GuardedRun(START, steps)
    ensures var s := Run(START, steps);
      var s' := Apply(s, Pull(g));
      && g in s'.gateways && s'.gateways[g] == s.store
      && forall kid: string, secret: string, route: string, now: Time, digest: string -> string ::
           AuthenticateKeystore(s'.gateways[g], kid, secret, route, now, digest)
           == AuthenticateKeystore(s.store, kid, secret, route, now, digest)
  {
    StartConsistent();
    RunConsistent(START, steps);
  }

  // ---- revocation ----

  /** Gateway g knows that kid is revoked, and no view as recent as its copy has forgotten it. */
  ghost predicate Remembered(s: Sys, g: string, kid: string) {
    && g in s.gateways && Revoked(s.gateways[g], kid)
    && var v := s.gateways[g].version;
      && (s.store.version >= v ==> Revoked(s.store, kid))
      && (s.disk.version >= v ==> Revoked(s.disk, kid))
      && (forall h :: h in s.gateways && s.gateways[h].version >= v ==> Revoked(s.gateways[h], kid))
  }

  lemma CommitRemembers(s: Sys, next: Result<View>, writes: bool, g: string, kid: string)
    requires Consistent(s) && Remembered(s, g, kid)
    requires next.Ok? && Revoked(s.store, kid) ==> Revoked(next.value, kid)
    ensures Remembered(Commit(s, next, writes), g, kid)
  {
  }

  lemma StepRemembers(s: Sys, step: Step, g: string, kid: string)
    requires Consistent(s) && Guarded(s, step) && Remembered(s, g, kid)
    requires step != GatewayRestart(g)
    ensures Remembered(Apply(s, step), g, kid)
  {
    match step {
      case Create(app, now, writes) =>
        MutationAdvances(s.store, step, CreateAppIn(s.store, app, now));
        CommitRemembers(s, CreateAppIn(s.store, app, now), writes, g, kid);
      case Update(id, baseline, disabled, name, writes) =>
        MutationAdvances(s.store, step, UpdateAppIn(s.store, id, baseline, disabled, name));
        CommitRemembers(s, UpdateAppIn(s.store, id, baseline, disabled, name), writes, g, kid);
      case Issue(request, kid', digest, now, writes) =>
        MutationAdvances(s.store, step, IssueKeyIn(s.store, request, kid', digest, now));
        CommitRemembers(s, IssueKeyIn(s.store, request, kid', digest, now), writes, g, kid);
      case Revoke(kid', now, writes) =>
        MutationAdvances(s.store, step, RevokeKeyIn(s.store, kid', now));
        CommitRemembers(s, RevokeKeyIn(s.store, kid', now), writes, g, kid);
      case _ =>
    }
  }

  lemma {:induction false} RunRemembers(s: Sys, steps: seq<Step>, g: string, kid: string)
    requires Consistent(s) && GuardedRun(s, steps) && Remembered(s, g, kid)
    requires GatewayRestart(g) !in steps
    ensures Remembered(Run(s, steps), g, kid)
    decreases |steps|
  {
    if steps == [] {
    } else {
      assert steps[0] in steps;
      StepConsistent(s, steps[0]);
      StepRemembers(s, steps[0], g, kid);
      forall x | x in steps[1..] ensures x in steps {}
      RunRemembers(Apply(s, steps[0]), steps[1..], g, kid);
    }
  }

  /** Every id minted in the run is new at that point. */
  predicate FreshRun(s: Sys, steps: seq<Step>)
    decreases |steps|
  {
    steps == []
    || ((steps[0].Issue? ==> Fresh(s, steps[0].kid)) && FreshRun(Apply(s, steps[0]), steps[1..]))
  }

  /** Somewhere in the run the control plane restarts while a gateway is ahead of the file. */
  predicate UnsafeRestart(s: Sys, steps: seq<Step>)
    decreases |steps|
  {
    steps != []
    && ((steps[0].Restart? && !Safe(s)) || UnsafeRestart(Apply(s, steps[0]), steps[1..]))
  }

  lemma {:induction false} GuardedExactly(s: Sys, steps: seq<Step>)
    ensures GuardedRun(s, steps) <==> FreshRun(s, steps) && !UnsafeRestart(s, steps)
    decreases |steps|
  {
    if steps == [] {
    } else {
      GuardedExactly(Apply(s, steps[0]), steps[1..]);
    }
  }

  /** Whatever copy the gateway holds, no secret, route or time gets the key through. */
  ghost predicate Refused(s: Sys, g: string, kid: string) {
    g in s.gateways ==>
      forall secret: string, route: string, now: Time, digest: string -> string ::
        AuthenticateKeystore(s.gateways[g], kid, secret, route, now, digest) == None
  }

  /**
   * A gateway that has pulled at or after a revocation, and keeps its copy, never accepts that
   * key again, written or not, unless the control plane restarts from a file that some gateway
   * is ahead of.
   */
  lemma RevocationIsFinal(before: seq<Step>, g: string, kid: string, after: seq<Step>)
    requires FreshRun(START, before) && Revoked(Run(START, before).store, kid)
    requires FreshRun(Apply(Run(START, before), Pull(g)), after) && GatewayRestart(g) !in after
    ensures var s := Apply(Run(START, before), Pull(g));
      || UnsafeRestart(START, before) || UnsafeRestart(s, after)
      || (g in Run(s, after).gateways && Refused(Run(s, after), g, kid))
  {
    var s := Run(START, before);
    var s' := Apply(s, Pull(g));
    GuardedExactly(START, before);
    GuardedExactly(s', after);
    if GuardedRun(START, before) && GuardedRun(s', after) {
      StartConsistent();
      RunConsistent(START, before);
      StepConsistent(s, Pull(g));
      assert s'.gateways[g] == s.store;
      assert Remembered(s', g, kid);
      RunRemembers(s', after, g, kid);
    }
  }

  // ---- exactly when a revocation is final ----

  /** The view holds the key unrevoked. */
  predicate Lives(v: View, kid: string) { kid in v.keys && v.keys[kid].revokedAt.None? }

  /** The view lets the key through for its secret, on its routes, until it expires. */
  predicate Admits(v: View, kid: string) {
    Lives(v, kid) && v.keys[kid].appId in v.apps && !v.apps[v.keys[kid].appId].disabled
  }

  /** No route or time gets this secret for the key through. */
  ghost predicate RefusesSecret(s: Sys, g: string, kid: string, secret: string, digest: string -> string) {
    g in s.gateways ==>
      forall route: string, now: Time ::
        AuthenticateKeystore(s.gateways[g], kid, secret, route, now, digest) == None
  }

  /** Minting draws a new id each time. */
  predicate NotMintedAgain(steps: seq<Step>, kid: string) {
    forall k :: 0 <= k < |steps| && steps[k].Issue? ==> steps[k].kid != kid
  }

  /** Neither the store nor the gateway's copy lets the key through. */
  predicate Gone(s: Sys, g: string, kid: string) {
    !Lives(s.store, kid) && (g in s.gateways ==> !Admits(s.gateways[g], kid))
  }

  /** Somewhere in the run the control plane restarts from a file that holds the key unrevoked. */
  predicate RevivedFromFile(s: Sys, steps: seq<Step>, kid: string)
    decreases |steps|
  {
    steps != []
    && ((steps[0].Restart? && Lives(s.disk, kid)) || RevivedFromFile(Apply(s, steps[0]), steps[1..], kid))
  }

  /** Over every run whatever, a revoked key comes back only out of the file. */
  lemma {:induction false} RevokedReturnsOnlyFromFile(s: Sys, steps: seq<Step>, g: string, kid: string)
    requires Gone(s, g, kid) && NotMintedAgain(steps, kid)
    ensures RevivedFromFile(s, steps, kid) || (Gone(Run(s, steps), g, kid) && Refused(Run(s, steps), g, kid))
    decreases |steps|
  {
    if steps == [] {
    } else if !RevivedFromFile(s, steps, kid) {
      assert Gone(Apply(s, steps[0]), g, kid);
      RevokedReturnsOnlyFromFile(Apply(s, steps[0]), steps[1..], g, kid);
    }
  }

  /** And never, once neither store nor file holds it unrevoked. */
  lemma {:induction false} NothingToReviveFrom(s: Sys, steps: seq<Step>, kid: string)
    requires !Lives(s.store, kid) && !Lives(s.disk, kid) && NotMintedAgain(steps, kid)
    ensures !RevivedFromFile(s, steps, kid)
    decreases |steps|
  {
    if steps == [] {
    } else {
      var s1 := Apply(s, steps[0]);
      assert !Lives(s1.store, kid) && !Lives(s1.disk, kid);
      NothingToReviveFrom(s1, steps[1..], kid);
    }
  }

  lemma RunFrom(s: Sys, step: Step, rest: seq<Step>)
    ensures Run(s, [step] + rest) == Run(Apply(s, step), rest)
    ensures GuardedRun(s, [step] + rest) <==> Guarded(s, step) && GuardedRun(Apply(s, step), rest)
  {
    assert ([step] + rest)[1..] == rest;
  }

  lemma RunThree(s: Sys, a: Step, b: Step, c: Step)
    ensures Run(s, [a, b, c]) == Apply(Apply(Apply(s, a), b), c)
    ensures GuardedRun(s, [a, b, c]) <==>
            Guarded(s, a) && Guarded(Apply(s, a), b) && Guarded(Apply(Apply(s, a), b), c)
  {
    assert [a, b, c] == [a] + ([b] + ([c] + []));
    RunFrom(s, a, [b] + ([c] + []));
    RunFrom(Apply(s, a), b, [c] + []);
    RunFrom(Apply(Apply(s, a), b), c, []);
  }

  /** A key that a view admits gets through with its secret on some route at some time. */
  lemma AdmittedKeyAuthenticates(v: View, kid: string, secret: string, digest: string -> string)
    requires Admits(v, kid) && digest(secret) == v.keys[kid].digest
    ensures exists route: string, now: Time :: AuthenticateKeystore(v, kid, secret, route, now, digest).Some?
  {
    var k := v.keys[kid];
    var route := if k.routes == [] then "" else k.routes[0];
    var now := if k.expiresAt.None? then 0 else k.expiresAt.value - 1;
    assert k.Active(now) && k.AllowsRoute(route);
    assert AuthenticateKeystore(v, kid, secret, route, now, digest).Some?;
  }

  /** The step that enables the app of a key. */
  function Enable(v: View, kid: string): Step
    requires kid in v.keys
  {
    Update(v.keys[kid].appId, None, Some(false), None, true)
  }

  lemma EnablingAdmits(s: Sys, kid: string, step: Step)
    requires Keyed(s.store) && Lives(s.store, kid) && step == Enable(s.store, kid)
    ensures var v := Apply(s, step).store;
      && v.keys == s.store.keys && v.version == s.store.version + 1 && Keyed(v) && Admits(v, kid)
    ensures Apply(s, step).gateways == s.gateways
  {
  }

  /** From a store that holds the key unrevoked: enable its app, and pull, unless the pull would be skipped. */
  lemma EnabledAndPulled(s: Sys, g: string, kid: string, secret: string, digest: string -> string)
    requires Keyed(s.store) && Lives(s.store, kid) && digest(secret) == s.store.keys[kid].digest
    requires g in s.gateways ==> s.gateways[g].version != s.store.version + 1
    ensures !RefusesSecret(Apply(Apply(s, Enable(s.store, kid)), Pull(g)), g, kid, secret, digest)
  {
    EnablingAdmits(s, kid, Enable(s.store, kid));
    var s1 := Apply(s, Enable(s.store, kid));
    var s2 := Apply(s1, Pull(g));
    assert g in s2.gateways && s2.gateways[g] == s1.store;
    AdmittedKeyAuthenticates(s2.gateways[g], kid, secret, digest);
  }

  /**
   * The way back of a key that the file holds unrevoked: the control plane restarts, its app is
   * enabled, and the gateway pulls, after one more update if it would take the version for known.
   */
  lemma Lapses(s: Sys, g: string, kid: string, secret: string, digest: string -> string) returns (after: seq<Step>)
    requires Keyed(s.disk) && Lives(s.disk, kid) && digest(secret) == s.disk.keys[kid].digest
    ensures NotMintedAgain(after, kid) && GatewayRestart(g) !in after
    ensures !RefusesSecret(Run(s, after), g, kid, secret, digest)
  {
    var s1 := Apply(s, Restart);
    var enable := Enable(s.disk, kid);
    if g in s.gateways && s.gateways[g].version == s1.store.version + 1 {
      EnablingAdmits(s1, kid, enable);
      var s2 := Apply(s1, enable);
      after := [Restart] + [enable, enable, Pull(g)];
      RunFrom(s, Restart, [enable, enable, Pull(g)]);
      RunThree(s1, enable, enable, Pull(g));
      EnabledAndPulled(s2, g, kid, secret, digest);
    } else {
      after := [Restart, enable, Pull(g)];
      RunThree(s, Restart, enable, Pull(g));
      EnabledAndPulled(s1, g, kid, secret, digest);
    }
  }

  lemma {:induction false} RunKeyed(s: Sys, steps: seq<Step>)
    requires Keyed(s.store) && Keyed(s.disk)
    ensures Keyed(Run(s, steps).store) && Keyed(Run(s, steps).disk)
    decreases |steps|
  {
    if steps == [] {
    } else {
      StepKeyed(s, steps[0]);
      RunKeyed(Apply(s, steps[0]), steps[1..]);
    }
  }

  lemma StepKeyed(s: Sys, step: Step)
    requires Keyed(s.store) && Keyed(s.disk)
    ensures Keyed(Apply(s, step).store) && Keyed(Apply(s, step).disk)
  {
  }

  /** The secret is the one issued: every record of the key carries its digest. */
  predicate IssuedSecret(s: Sys, g: string, kid: string, secret: string, digest: string -> string) {
    && (kid in s.disk.keys ==> s.disk.keys[kid].digest == digest(secret))
    && (g in s.gateways && kid in s.gateways[g].keys ==> s.gateways[g].keys[kid].digest == digest(secret))
  }

  /** Neither the file nor the gateway's copy still holds what would let the key through. */
  predicate Erased(s: Sys, g: string, kid: string) {
    !Lives(s.disk, kid) && (g in s.gateways ==> !Admits(s.gateways[g], kid))
  }

  /**
   * A revoked key is refused for good by a gateway that pulls after the revocation, over every
   * run whatever of restarts on both sides, exactly if the file no longer holds it unrevoked and
   * the pull was not skipped for a copy that does. It makes no difference whether the gateway
   * ever restarts, nor whether all secrets are tried or only the one that was issued.
   */
  lemma RevocationFinalExactly(before: seq<Step>, g: string, kid: string, secret: string, digest: string -> string)
    requires Revoked(Run(START, before).store, kid)
    requires IssuedSecret(Apply(Run(START, before), Pull(g)), g, kid, secret, digest)
    ensures var s := Apply(Run(START, before), Pull(g));
      Erased(s, g, kid) <==>
        forall after :: NotMintedAgain(after, kid) ==> Refused(Run(s, after), g, kid)
    ensures var s := Apply(Run(START, before), Pull(g));
      Erased(s, g, kid) <==>
        forall after :: NotMintedAgain(after, kid) && GatewayRestart(g) !in after
                        ==> RefusesSecret(Run(s, after), g, kid, secret, digest)
    ensures GuardedRun(START, before) ==>
              (Erased(Apply(Run(START, before), Pull(g)), g, kid) <==> !Lives(Run(START, before).disk, kid))
  {
    var s := Apply(Run(START, before), Pull(g));
    if GuardedRun(START, before) {
      PullIsExact(before, g);
    }
    if Erased(s, g, kid) {
      forall after | NotMintedAgain(after, kid)
        ensures Refused(Run(s, after), g, kid) && RefusesSecret(Run(s, after), g, kid, secret, digest)
      {
        NothingToReviveFrom(s, after, kid);
        RevokedReturnsOnlyFromFile(s, after, g, kid);
      }
    } else {
      StartConsistent();
      RunKeyed(START, before);
      var after := Comeback(s, g, kid, secret, digest);
    }
  }

  lemma Comeback(s: Sys, g: string, kid: string, secret: string, digest: string -> string) returns (after: seq<Step>)
    requires Keyed(s.disk) && !Erased(s, g, kid) && IssuedSecret(s, g, kid, secret, digest)
    ensures NotMintedAgain(after, kid) && GatewayRestart(g) !in after
    ensures !RefusesSecret(Run(s, after), g, kid, secret, digest) && !Refused(Run(s, after), g, kid)
  {
    if Lives(s.disk, kid) {
      after := Lapses(s, g, kid, secret, digest);
    } else {
      after := [];
      AdmittedKeyAuthenticates(s.gateways[g], kid, secret, digest);
    }
  }

  /**
   * In particular, a revocation whose write succeeds is final for a gateway that then pulls,
   * whatever happens next, unless that pull was skipped: the control plane had restarted from a
   * file behind a gateway before.
   */
  lemma WrittenRevocationIsFinal(before: seq<Step>, kid: string, now: Time, g: string, after: seq<Step>)
    requires FreshRun(START, before) && Lives(Run(START, before).store, kid) && NotMintedAgain(after, kid)
    ensures UnsafeRestart(START, before)
         || Refused(Run(Apply(Apply(Run(START, before), Revoke(kid, now, true)), Pull(g)), after), g, kid)
  {
    GuardedExactly(START, before);
    if !UnsafeRestart(START, before) {
      StartConsistent();
      RunConsistent(START, before);
      var s := Run(START, before);
      var s1 := Apply(s, Revoke(kid, now, true));
      StepConsistent(s, Revoke(kid, now, true));
      assert Revoked(s1.store, kid) && s1.disk == s1.store;
      var s2 := Apply(s1, Pull(g));
      assert s2.gateways[g] == s1.store;
      NothingToReviveFrom(s2, after, kid);
      RevokedReturnsOnlyFromFile(s2, after, g, kid);
    }
  }

  // ---- a revocation that is forgotten ----

  /** A key is issued and written, and revoked without being written. */
  ghost predicate RevokedUnwritten(before: seq<Step>, a: App, request: KeyRequest, kid: string, d: string) {
    && CreateAppIn(START.store, a, 0).Ok? && !a.disabled && request.appId == a.id
    && request.subject == request.labelText == "" && request.routes == [] && request.expiresAt.None?
    && before == [Create(a, 0, true), Issue(request, kid, d, 0, true), Revoke(kid, 0, false)]
  }

  lemma RevokedInMemoryOnly(before: seq<Step>, a: App, request: KeyRequest, kid: string, d: string)
    requires RevokedUnwritten(before, a, request, kid, d)
    ensures GuardedRun(START, before)
    ensures var s := Run(START, before);
      && Revoked(s.store, kid) && Admits(s.disk, kid) && s.gateways == map[]
      && s.disk.keys[kid].digest == d && s.disk.keys[kid].routes == [] && s.disk.keys[kid].expiresAt.None?
      && s.disk.version < s.store.version
  {
    RunThree(START, before[0], before[1], before[2]);
    var s1 := Apply(START, before[0]);
    var s2 := Apply(s1, before[1]);
    assert a.id in s1.store.apps && !s1.store.apps[a.id].disabled && s1.gateways == map[];
    assert Lives(s2.disk, kid) && s2.disk == s2.store && s2.store.apps == s1.store.apps;
  }

  /**
   * The gateway has pulled the revocation and never restarts. The control plane does, alone, and
   * the next pull replaces the copy by what the file holds: the issued secret works again.
   */
  lemma KeptCopyForgets(before: seq<Step>, a: App, request: KeyRequest, kid: string, secret: string,
                        digest: string -> string, g: string, route: string, now: Time)
    requires RevokedUnwritten(before, a, request, kid, digest(secret))
    ensures var s := Run(START, before);
      var s' := Run(s, [Pull(g), Restart, Pull(g)]);
      && Revoked(s.store, kid) && g in s'.gateways
      && AuthenticateKeystore(s'.gateways[g], kid, secret, route, now, digest).Some?
  {
    RevokedInMemoryOnly(before, a, request, kid, digest(secret));
    RunThree(Run(START, before), Pull(g), Restart, Pull(g));
  }

  /** The same when the gateway restarts first, so that no gateway is ahead of the file. */
  lemma RestartedGatewayForgets(before: seq<Step>, a: App, request: KeyRequest, kid: string, secret: string,
                                digest: string -> string, g: string, route: string, now: Time)
    requires RevokedUnwritten(before, a, request, kid, digest(secret))
    ensures var s := Apply(Run(START, before), Pull(g));
      var s' := Run(s, [GatewayRestart(g), Restart, Pull(g)]);
      && GuardedRun(START, before) && Revoked(Run(START, before).store, kid)
      && GuardedRun(s, [GatewayRestart(g), Restart, Pull(g)]) && g in s'.gateways
      && AuthenticateKeystore(s'.gateways[g], kid, secret, route, now, digest).Some?
  {
    RevokedInMemoryOnly(before, a, request, kid, digest(secret));
    RunThree(Apply(Run(START, before), Pull(g)), GatewayRestart(g), Restart, Pull(g));
  }

  /** Both with a credential as it is presented. */
  lemma UnwrittenRevocationForgotten(digest: string -> string)
    ensures var before := [Create(App("a", "a", "", false, 0), 0, true),
                           Issue(KeyRequest("a", "", "", [], None), "k", digest("s"), 0, true), Revoke("k", 0, false)];
      var kept := Run(Run(START, before), [Pull("g"), Restart, Pull("g")]);
      var restarted := Run(Apply(Run(START, before), Pull("g")), [GatewayRestart("g"), Restart, Pull("g")]);
      && Revoked(Run(START, before).store, "k")
      && ParseAPIKey(PlainKey("k", "s")) == Some(("k", "s"))
      && "g" in kept.gateways && AuthenticateKeystore(kept.gateways["g"], "k", "s", "r", 0, digest).Some?
      && "g" in restarted.gateways && AuthenticateKeystore(restarted.gateways["g"], "k", "s", "r", 0, digest).Some?
  {
    var a, request := App("a", "a", "", false, 0), KeyRequest("a", "", "", [], None);
    var before := [Create(a, 0, true), Issue(request, "k", digest("s"), 0, true), Revoke("k", 0, false)];
    assert ValidAppId("a");
    ParsePlain("k", "s");
    KeptCopyForgets(before, a, request, "k", "s", digest, "g", "r", 0);
    RestartedGatewayForgets(before, a, request, "k", "s", digest, "g", "r", 0);
  }

  // ---- issuing ----

  /**
   * An issued credential works: once a gateway has pulled, the minted text parses and resolves
   * to its app, on every route the key allows, until it expires, unless the app is disabled.
   */
  lemma IssuedKeyAuthenticates(s: Sys, request: KeyRequest, kid: string, secret: string, digest: string -> string,
                               issued: Time, writes: bool, g: string, route: string, now: Time)
    requires Consistent(s) && Fresh(s, kid) && '_' !in kid && kid != "" && secret != ""
    requires IssueKeyIn(s.store, request, kid, digest(secret), issued).Ok?
    ensures var s' := Apply(Apply(s, Issue(request, kid, digest(secret), issued, writes)), Pull(g));
      && ParseAPIKey(PlainKey(kid, secret)) == Some((kid, secret))
      && (AuthenticateKeystore(s'.gateways[g], kid, secret, route, now, digest).Some? <==>
            (request.expiresAt.None? || now < request.expiresAt.value)
            && (request.routes == [] || route in request.routes)
            && !s.store.apps[request.appId].disabled)
  {
    ParseInvertsPlain(PlainKey(kid, secret), kid, secret);
    var step := Issue(request, kid, digest(secret), issued, writes);
    StepConsistent(s, step);
  }

  // ---- who gets through at all ----

  /** Some step of the run has minted this key, and the record says what was asked for. */
  ghost predicate MintedIn(steps: seq<Step>, kid: string, k: APIKey) {
    exists n {:trigger steps[n]} :: 0 <= n < |steps| && Minted(steps[n], kid, k)
  }

  ghost predicate Minted(step: Step, kid: string, k: APIKey) {
    && step.Issue? && step.kid == kid && k.id == kid && k.digest == step.digest
    && k.appId == step.request.appId && k.subject == step.request.subject
    && k.routes == step.request.routes && k.expiresAt == step.request.expiresAt
  }

  ghost predicate ViewMinted(steps: seq<Step>, v: View) {
    forall kid {:trigger v.keys[kid]} :: kid in v.keys ==> MintedIn(steps, kid, v.keys[kid])
  }

  ghost predicate AllMinted(steps: seq<Step>, s: Sys) {
    && ViewMinted(steps, s.store) && ViewMinted(steps, s.disk)
    && forall g {:trigger s.gateways[g]} :: g in s.gateways ==> ViewMinted(steps, s.gateways[g])
  }

  lemma ViewStaysMinted(steps: seq<Step>, step: Step, v: View)
    requires ViewMinted(steps, v)
    ensures ViewMinted(steps + [step], v)
  {
    forall kid | kid in v.keys ensures MintedIn(steps + [step], kid, v.keys[kid]) {
      var n {:trigger steps[n]} :| 0 <= n < |steps| && Minted(steps[n], kid, v.keys[kid]);
      assert (steps + [step])[n] == steps[n];
    }
  }

  /** What a mutation makes of the keys: it leaves them, mints one, or sets a tombstone. */
  lemma StoreStepMinted(steps: seq<Step>, step: Step, v: View, next: View)
    requires ViewMinted(steps, v)
    requires next.keys == v.keys
          || (exists kid, k :: Minted(step, kid, k) && next.keys == v.keys[kid := k])
          || (exists kid, at :: kid in v.keys && next.keys == v.keys[kid := v.keys[kid].(revokedAt := at)])
    ensures ViewMinted(steps + [step], next)
  {
    ViewStaysMinted(steps, step, v);
    assert (steps + [step])[|steps|] == step;
    forall kid | kid in next.keys ensures MintedIn(steps + [step], kid, next.keys[kid]) {
      if kid in v.keys && next.keys[kid] != v.keys[kid] && !Minted(step, kid, next.keys[kid]) {
        var n {:trigger (steps + [step])[n]} :|
          0 <= n < |steps + [step]| && Minted((steps + [step])[n], kid, v.keys[kid]);
        assert Minted((steps + [step])[n], kid, next.keys[kid]);
      }
    }
  }

  lemma NextStoreMinted(steps: seq<Step>, s: Sys, step: Step)
    requires AllMinted(steps, s)
    ensures ViewMinted(steps + [step], Apply(s, step).store)
  {
    match step {
      case Restart => ViewStaysMinted(steps, step, s.disk);
      case Issue(request, kid, digest, now, writes) =>
        var k := APIKey(kid, request.appId, request.subject, request.labelText, digest, request.routes, now,
                        request.expiresAt, None);
        assert Minted(step, kid, k);
        assert Apply(s, step).store.keys == s.store.keys || Apply(s, step).store.keys == s.store.keys[kid := k];
        StoreStepMinted(steps, step, s.store, Apply(s, step).store);
      case _ => StoreStepMinted(steps, step, s.store, Apply(s, step).store);
    }
  }

  lemma NextMinted(steps: seq<Step>, s: Sys, step: Step)
    requires AllMinted(steps, s)
    ensures AllMinted(steps + [step], Apply(s, step))
  {
    var s' := Apply(s, step);
    NextStoreMinted(steps, s, step);
    ViewStaysMinted(steps, step, s.store);
    ViewStaysMinted(steps, step, s.disk);
    assert s'.disk == s.disk || s'.disk == s'.store;
    forall g | g in s'.gateways ensures ViewMinted(steps + [step], s'.gateways[g]) {
      if g in s.gateways && s'.gateways[g] == s.gateways[g] {
        ViewStaysMinted(steps, step, s.gateways[g]);
      }
    }
  }

  lemma {:induction false} RunMinted(past: seq<Step>, s: Sys, steps: seq<Step>)
    requires AllMinted(past, s)
    ensures AllMinted(past + steps, Run(s, steps))
    decreases |steps|
  {
    if steps == [] {
      assert past + steps == past;
    } else {
      NextMinted(past, s, steps[0]);
      RunMinted(past + [steps[0]], Apply(s, steps[0]), steps[1..]);
      assert past + [steps[0]] + steps[1..] == past + steps;
    }
  }

  /**
   * Over every run whatever, a gateway accepts only credentials that were issued in it: some step
   * minted the key with the digest of the very secret presented, for this app, good for the
   * route, and not expired.
   */
  lemma OnlyIssuedAuthenticate(steps: seq<Step>, g: string, kid: string, secret: string, route: string, now: Time,
                               digest: string -> string) returns (n: nat)
    requires var s := Run(START, steps);
      g in s.gateways && AuthenticateKeystore(s.gateways[g], kid, secret, route, now, digest).Some?
    ensures n < |steps| && steps[n].Issue? && steps[n].kid == kid && steps[n].digest == digest(secret)
    ensures steps[n].request.routes == [] || route in steps[n].request.routes
    ensures steps[n].request.expiresAt == None || now < steps[n].request.expiresAt.value
    ensures AuthenticateKeystore(Run(START, steps).gateways[g], kid, secret, route, now, digest).value.subject
         == steps[n].request.subject
  {
    RunMinted([], START, steps);
    assert [] + steps == steps;
    var v := Run(START, steps).gateways[g];
    AuthenticatesExactly(v, kid, secret, route, now, digest);
    assert MintedIn(steps, kid, v.keys[kid]);
    n :| 0 <= n < |steps| && Minted(steps[n], kid, v.keys[kid]);
  }

  /** Disabling an app locks out every key of it at each gateway that pulls afterwards. */
  lemma DisabledAppLockedOut(s: Sys, id: string, baseline: Option<string>, name: Option<string>, writes: bool,
                             g: string, kid: string, secret: string, route: string, now: Time, digest: string -> string)
    requires Consistent(s) && UpdateAppIn(s.store, id, baseline, Some(true), name).Ok?
    ensures var v := Apply(Apply(s, Update(id, baseline, Some(true), name, writes)), Pull(g)).gateways[g];
      kid in v.keys && v.keys[kid].appId == id ==> AuthenticateKeystore(v, kid, secret, route, now, digest) == None
  {
    var step := Update(id, baseline, Some(true), name, writes);
    StepConsistent(s, step);
    var s1 := Apply(s, step);
    assert s1.store.apps[id].disabled;
    assert Apply(s1, Pull(g)).gateways[g] == s1.store;
  }

  // ---- exactly when a restart is safe ----

  /** An edit that leaves app "a" with the given name. */
  function Edit(s: Sys, name: string): Step {
    if "a" in s.store.apps then Update("a", None, None, Some(name), true)
    else Create(App("a", name, "", false, 0), 0, true)
  }

  function Edits(s: Sys, name: string, n: nat): seq<Step>
    decreases n
  {
    if n == 0 then [] else [Edit(s, name)] + Edits(Apply(s, Edit(s, name)), name, n - 1)
  }

  lemma {:induction false} EditsReach(s: Sys, name: string, n: nat)
    requires name == "x" || name == "y"
    ensures GuardedRun(s, Edits(s, name, n))
    ensures var s' := Run(s, Edits(s, name, n));
      && s'.store.version == s.store.version + n && s'.gateways == s.gateways
      && (n > 0 || ("a" in s.store.apps && s.store.apps["a"].name == name) ==>
            "a" in s'.store.apps && s'.store.apps["a"].name == name)
    decreases n
  {
    if n == 0 {
    } else {
      var step := Edit(s, name);
      var s1 := Apply(s, step);
      assert ValidAppId("a");
      assert s1.store.version == s.store.version + 1 && s1.store.apps["a"].name == name;
      EditsReach(s1, name, n - 1);
      assert Edits(s, name, n)[0] == step && Edits(s, name, n)[1..] == Edits(s1, name, n - 1);
    }
  }

  /** Every gateway that shares the store's version shares its contents. */
  ghost predicate Faithful(s: Sys) {
    forall g :: g in s.gateways ==> Agree(s.gateways[g], s.store)
  }

  /**
   * Restarting the control plane keeps the version contract, over everything that can happen
   * afterwards, exactly when no gateway is ahead of the file. When some gateway is, a failed
   * write has been forgotten and later changes reuse its version for other contents.
   */
  lemma RestartSafeExactly(s: Sys)
    requires Consistent(s)
    ensures Safe(s) <==>
            forall steps :: GuardedRun(Apply(s, Restart), steps) ==> Faithful(Run(Apply(s, Restart), steps))
  {
    var s0 := Apply(s, Restart);
    if Safe(s) {
      StepConsistent(s, Restart);
      forall steps | GuardedRun(s0, steps) ensures Faithful(Run(s0, steps)) {
        RunConsistent(s0, steps);
      }
    } else {
      var g :| g in s.gateways && s.gateways[g].version > s.disk.version;
      var copy := s.gateways[g];
      var name := if "a" in copy.apps && copy.apps["a"].name == "x" then "y" else "x";
      var n := copy.version - s.disk.version;
      EditsReach(s0, name, n);
      var s' := Run(s0, Edits(s0, name, n));
      assert s'.gateways[g] == copy && copy.version == s'.store.version;
      assert copy.apps != s'.store.apps;
      assert !Faithful(s');
    }
  }
}
