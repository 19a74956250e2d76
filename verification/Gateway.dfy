/**
 * The gateway's request path and its heartbeat claim (internal/gateway/proxy.go, keystore.go,
 * spine_pull.go, spine_emit.go).
 */
module Gateway {
  import opened Common
  import opened Json
  import opened Fields
  import opened Bodies
  import opened Spans
  import opened MergeMeaning
  import opened Masking
  import opened Detection
  import opened Pipeline
  import opened Keys
  import opened Replication
  import opened Policy

  const ENV_PRINCIPAL := Principal("env", "env", "", "")

  function Route(d: Dialect): string {
    match d
    case Anthropic => "anthropic"
    case OpenAI => "openai"
  }

  /** The decoded body that the setters write into. */
  class Document {
    var root: Json

    constructor (root: Json)
      ensures this.root == root
    {
      this.root := root;
    }

    method Set(loc: Loc, text: string)
      modifies this
      ensures root == Put(old(root), loc, text)
    {
      root := Put(root, loc, text);
    }
  }

  class Server {
    const redactAction: string
    const failClosed: bool
    const upstreams: set<string>
    const clientKeys: set<string>
    const digest: string -> string
    const codec: Codec
    const chain: Chain

    var baselines: Option<map<string, Baseline>>
    var zdrAttested: bool
    var policyAction: Option<string>
    var policyBaseline: string
    var keys: Option<View>

    constructor (redactAction: string, failClosed: bool, upstreams: set<string>, clientKeys: set<string>,
                 digest: string -> string, codec: Codec, chain: Chain)
      ensures this.redactAction == redactAction && this.failClosed == failClosed && this.upstreams == upstreams
      ensures this.clientKeys == clientKeys && this.digest == digest && this.codec == codec && this.chain == chain
      ensures baselines == None && policyAction == None && keys == None && !zdrAttested
    {
      this.redactAction, this.failClosed, this.upstreams := redactAction, failClosed, upstreams;
      this.clientKeys, this.digest, this.codec, this.chain := clientKeys, digest, codec, chain;
      baselines, policyAction, keys := None, None, None;
      zdrAttested, policyBaseline := false, "";
    }

    // ---- pulling ----

    /** A failed pull keeps the copy; an equal version is skipped; any other replaces it. */
    method PullKeys(fetched: Option<Snapshot>) returns (err: bool)
      modifies this`keys
      ensures err <==> fetched.None?
      ensures fetched.None? || (old(keys).Some? && old(keys).value.version == fetched.value.version)
              ==> keys == old(keys)
      ensures fetched.Some? && !(old(keys).Some? && old(keys).value.version == fetched.value.version) ==>
                keys.Some? && forall w :: Keyed(w) && SnapshotOf(fetched.value, w) ==> keys.value == w
    {
      if fetched.None? {
        return true;
      }
      if keys.Some? && keys.value.version == fetched.value.version {
        return false;
      }
      var v := NewKeySnapshot(fetched.value);
      keys := Some(v);
      return false;
    }

    /** One policy pull: what was fetched of the policy and of the baselines, if anything. */
    method PullPolicy(policy: Option<Option<AppliedPolicy>>, fetched: Option<seq<Baseline>>) returns (err: bool)
      modifies this`baselines, this`zdrAttested, this`policyAction, this`policyBaseline
      ensures redactAction != PER_POLICY ==> !err && unchanged(this)
      ensures redactAction == PER_POLICY && (policy.None? || fetched.None?) ==> err && unchanged(this)
      ensures redactAction == PER_POLICY && policy.Some? && fetched.Some? ==>
                && baselines.Some? && FilesById(baselines.value, fetched.value, (b: Baseline) => b.id)
                && var applied := policy.value;
                  var chosen := applied.Some? && applied.value.baseline != "";
                  && err == (chosen && applied.value.baseline !in baselines.value)
                  && (chosen && !err ==>
                        && zdrAttested == (applied.value.zdrAttested == Some(true))
                        && policyAction == Some(GatewayAction(baselines.value[applied.value.baseline], zdrAttested))
                        && policyBaseline == applied.value.baseline)
                  && (!chosen || err ==> zdrAttested == old(zdrAttested) && policyAction == old(policyAction)
                                         && policyBaseline == old(policyBaseline))
    {
      if redactAction != PER_POLICY {
        return false;
      }
      if policy.None? || fetched.None? {
        return true;
      }
      var byId := IndexById(fetched.value, (b: Baseline) => b.id);
      baselines := Some(byId);
      if policy.value.None? || policy.value.value.baseline == "" {
        return false;
      }
      var name := policy.value.value.baseline;
      if name !in byId {
        return true;
      }
      zdrAttested := policy.value.value.zdrAttested == Some(true);
      policyAction := Some(GatewayAction(byId[name], zdrAttested));
      policyBaseline := name;
      return false;
    }

    // ---- who is calling, and under which action ----

    /** The keystore decides for keys of its shape, the boot-time key set for all others. */
    function Authenticate(presented: string, route: string, now: Time): Option<Principal>
      reads this
    {
      if presented == "" then None
      else
        match ParseAPIKey(presented)
        case Some((kid, secret)) =>
          if keys.None? then None else AuthenticateKeystore(keys.value, kid, secret, route, now, digest)
        case None =>
          if presented in clientKeys then Some(ENV_PRINCIPAL) else None
    }

    /** A pinned action wins, then the caller's own baseline, then the applied policy. */
    function ResolveAction(p: Principal): string
      reads this
    {
      if redactAction != PER_POLICY then redactAction
      else if p.baseline != "" && baselines.Some? && p.baseline in baselines.value then
        GatewayAction(baselines.value[p.baseline], zdrAttested)
      else if policyAction.Some? then policyAction.value
      else ACTION_MASK
    }

    /** An app that carries its own baseline and may send traffic. */
    predicate Scoped(id: string)
      reads this
    {
      keys.Some? && id in keys.value.apps && !keys.value.apps[id].disabled && keys.value.apps[id].baseline != ""
    }

    predicate AppEnforced(id: string)
      requires keys.Some? && id in keys.value.apps
      reads this
    {
      Enforces(ResolveAction(Principal(keys.value.apps[id].id, "", "", keys.value.apps[id].baseline)))
    }

    method AllAppsEnforce() returns (all: bool)
      ensures all <==> forall id :: Scoped(id) ==> AppEnforced(id)
    {
      if keys.None? {
        return true;
      }
      var todo := keys.value.apps.Keys;
      while todo != {}
        invariant todo <= keys.value.apps.Keys
        invariant forall id :: Scoped(id) && id !in todo ==> AppEnforced(id)
      {
        var id :| id in todo;
        todo := todo - {id};
        var app := keys.value.apps[id];
        if app.disabled || app.baseline == "" {
          continue;
        }
        if !AppEnforced(id) {
          assert Scoped(id);
          return false;
        }
      }
      return true;
    }

    /** What the heartbeat means when it claims redaction for the Anthropic route. */
    ghost predicate ClaimsRedaction()
      reads this
    {
      && Route(Anthropic) in upstreams
      && Enforces(ResolveAction(Principal("", "", "", "")))
      && forall id :: Scoped(id) ==> AppEnforced(id)
    }

    method HeartbeatClaim() returns (claims: bool)
      ensures claims <==> ClaimsRedaction()
    {
      var action := ResolveAction(Principal("", "", "", ""));
      var all := AllAppsEnforce();
      claims := Route(Anthropic) in upstreams && Enforces(action) && all;
    }

    // ---- the request path ----

    /** Detects over one field, records its redactions, and masks it in the document if asked. */
    method ScanField(f: TextField, action: string, document: Document)
      returns (spans: seq<Span>, errs: seq<string>, ghost masked: string)
      requires forall e :: e in chain.engines ==> Forward(e)
      modifies document
      ensures MergeOf(TextClaims(chain.Current(), f.text), spans) && errs == TextFailures(chain.Current(), f.text)
      ensures spans != [] ==> Masked(f.text, spans, masked)
      ensures document.root == if action == ACTION_MASK && spans != [] then Put(old(document.root), f.loc, masked)
              else old(document.root)
    {
      masked := "";
      spans, errs := chain.Run(f.text);
      MergeCoverage(TextClaims(chain.Current(), f.text), spans);
      if |spans| == 0 {
        return;
      }
      if action == ACTION_MASK {
        var text := Mask(f.text, spans);
        masked := text;
        document.Set(f.loc, text);
      } else {
        masked := MaskExists(f.text, spans);
      }
    }

    method ScanFields(doc: Json, fields: seq<TextField>, action: string, document: Document)
      returns (errs: nat, redactions: seq<Redaction>, ghost texts: map<Loc, string>, ghost found: seq<seq<Span>>)
      requires forall e :: e in chain.engines ==> Forward(e)
      requires DistinctLocs(fields) && document.root == doc
      modifies document
      ensures Inspected(chain.Current(), doc, fields, |fields|, action, texts, document.root, errs, redactions)
      ensures |found| == |fields| && FoundIn(chain.Current(), fields, found) && redactions == Recorded(fields, found)
    {
      ghost var det := chain.Current();
      errs, redactions, texts, found := 0, [], map[], [];
      RewrittenNothing(doc);
      assert Audited(det, fields, 0, found, redactions);
      for i := 0 to |fields|
        invariant chain.Current() == det
        invariant Inspected(det, doc, fields, i, action, texts, document.root, errs, redactions)
        invariant Audited(det, fields, i, found, redactions)
      {
        var f := fields[i];
        ghost var root := document.root;
        var spans, failed, masked := ScanField(f, action, document);
        InspectStep(det, doc, fields, i, action, texts, root, errs, redactions, spans, failed, masked);
        AuditedNext(det, fields, i, found, redactions, spans);
        found := found + [spans];
        errs := errs + |failed|;
        redactions := redactions + RedactionsOf(f, spans);
        texts := if spans == [] then texts else texts[f.loc := masked];
      }
    }

    /**
     * Detects over every located field, masking in the document as it goes, and decides: a
     * detector failure under fail-closed refuses, block refuses on any detection, mask forwards
     * the rewritten document, and an undetected body goes through byte for byte.
     */
    method Inspect(d: Dialect, body: string, action: string)
      returns (out: Outcome, redactions: seq<Redaction>, ghost fields: seq<TextField>, ghost found: seq<seq<Span>>)
      requires Lawful(codec) && forall e :: e in chain.engines ==> Forward(e)
      ensures codec.decode(body).None? ==> out == Refused(400) && redactions == []
      ensures codec.decode(body).Some? ==> Verdict(chain.Current(), codec, failClosed, d, body, action, out)
      ensures codec.decode(body).Some?
              ==> (redactions == [] <==> !AnyClaim(chain.Current(), d, Obj(codec.decode(body).value)))
      ensures codec.decode(body).Some? ==>
        var doc := Obj(codec.decode(body).value);
        && Walks(doc, fields, LocatedIn(d, doc)) && |found| == |fields| && FoundIn(chain.Current(), fields, found)
        && redactions == Recorded(fields, found)
    {
      redactions, fields, found := [], [], [];
      var decoded := codec.decode(body);
      if decoded.None? {
        return Refused(400), [], [], [];
      }
      var doc := Obj(decoded.value);
      var document := new Document(doc);
      var located := Walk(d, doc);
      fields := located;
      var errs: nat;
      ghost var texts;
      errs, redactions, texts, found := ScanFields(doc, located, action, document);
      InspectDone(chain.Current(), d, doc, fields, action, texts, document.root, errs, redactions);
      if errs > 0 && failClosed {
        return Refused(503), redactions, fields, found;
      }
      out := Forwarded(body);
      if |redactions| > 0 {
        if action == ACTION_BLOCK {
          out := Refused(400);
        } else if action == ACTION_MASK {
          out := Forwarded(codec.encode(document.root.members));
        }
      }
    }

    /** A request of an authenticated caller on a served route, whose body decodes. */
    ghost predicate Served(presented: string, d: Dialect, body: string, now: Time)
      reads this
    {
      Authenticate(presented, Route(d), now).Some? && Route(d) in upstreams && codec.decode(body).Some?
    }

    /** Something is claimed in the body, and no failure makes the gateway refuse it. */
    ghost predicate ClaimedIn(d: Dialect, body: string)
      requires codec.decode(body).Some?
      reads this, chain
    {
      && AnyClaim(chain.Current(), d, Obj(codec.decode(body).value))
      && !(failClosed && AnyFailure(chain.Current(), d, Obj(codec.decode(body).value)))
    }

    /** The baseline of this name has been pulled. */
    predicate Pulled(name: string)
      reads this
    {
      name != "" && baselines.Some? && name in baselines.value
    }

    /** A pulled baseline of the caller's own decides by itself what is done. */
    lemma OwnBaselineDecides(p: Principal)
      requires redactAction == PER_POLICY && Pulled(p.baseline)
      ensures var b := baselines.value[p.baseline];
        && (b.piiRedaction == "off" ==> ResolveAction(p) == "detect")
        && (b.piiRedaction == "on+phi" && b.zdr == "enforced" && !zdrAttested ==> ResolveAction(p) == "block")
        && (b.piiRedaction != "off" && !(b.piiRedaction == "on+phi" && b.zdr == "enforced" && !zdrAttested)
            ==> ResolveAction(p) == "mask")
    {
      assert ACTION_DETECT == "detect" && ACTION_BLOCK == "block" && ACTION_MASK == "mask";
    }

    /** Without one the applied policy does, and without that the text is masked. */
    lemma PolicyDecides(p: Principal)
      requires !(redactAction == PER_POLICY && Pulled(p.baseline))
      ensures redactAction != PER_POLICY ==> ResolveAction(p) == redactAction
      ensures redactAction == PER_POLICY && policyAction.Some? ==> ResolveAction(p) == policyAction.value
      ensures redactAction == PER_POLICY && policyAction.None? ==> ResolveAction(p) == "mask"
    {
    }

    /**
     * One request: authenticate, find the route, resolve the caller's action, inspect. A pinned
     * action decides alone; else the caller's own baseline if it has been pulled, whatever the
     * applied policy says; else the applied policy; else mask.
     */
    method Handle(presented: string, d: Dialect, body: string, now: Time) returns (out: Outcome)
      requires Lawful(codec) && forall e :: e in chain.engines ==> Forward(e)
      ensures Authenticate(presented, Route(d), now).None? ==> out == Refused(401)
      ensures out.Forwarded? ==> Authenticate(presented, Route(d), now).Some? && codec.decode(body).Some?
      ensures ClaimsRedaction() && out.Forwarded? ==> GatedForward(chain.Current(), codec, d, body, out.body)
      ensures out.Forwarded? && AnyClaim(chain.Current(), d, Obj(codec.decode(body).value)) ==>
                ResolveAction(Authenticate(presented, Route(d), now).value) != ACTION_BLOCK
      ensures Authenticate(presented, Route(d), now).Some? && Route(d) !in upstreams ==> out == Refused(502)
      ensures Authenticate(presented, Route(d), now).Some? && Route(d) in upstreams && codec.decode(body).None?
              ==> out == Refused(400)
      ensures Served(presented, d, body, now) && failClosed
              && AnyFailure(chain.Current(), d, Obj(codec.decode(body).value))
              ==> out == Refused(503)
      ensures Served(presented, d, body, now) && !AnyClaim(chain.Current(), d, Obj(codec.decode(body).value))
              && !(failClosed && AnyFailure(chain.Current(), d, Obj(codec.decode(body).value)))
              ==> out == Forwarded(body)
      ensures Served(presented, d, body, now) && ClaimedIn(d, body) ==>
        var own := Authenticate(presented, Route(d), now).value.baseline;
        && (redactAction != PER_POLICY ==> Treated(chain.Current(), codec, d, body, redactAction, out))
        && (redactAction == PER_POLICY && Pulled(own) ==>
              var b := baselines.value[own];
              && (b.piiRedaction == "off" ==> Treated(chain.Current(), codec, d, body, "detect", out))
              && (b.piiRedaction == "on+phi" && b.zdr == "enforced" && !zdrAttested ==>
                    Treated(chain.Current(), codec, d, body, "block", out))
              && (b.piiRedaction != "off" && !(b.piiRedaction == "on+phi" && b.zdr == "enforced" && !zdrAttested) ==>
                    Treated(chain.Current(), codec, d, body, "mask", out)))
        && (redactAction == PER_POLICY && !Pulled(own) && policyAction.Some? ==>
              Treated(chain.Current(), codec, d, body, policyAction.value, out))
        && (redactAction == PER_POLICY && !Pulled(own) && policyAction.None? ==>
              Treated(chain.Current(), codec, d, body, "mask", out))
    {
      var p := Authenticate(presented, Route(d), now);
      if p.None? {
        return Refused(401);
      }
      HeartbeatIsHonest(this, presented, Route(d), now);
      if Route(d) !in upstreams {
        return Refused(502);
      }
      var action := ResolveAction(p.value);
      var redactions;
      ghost var fields, found;
      out, redactions, fields, found := Inspect(d, body, action);
      if redactAction == PER_POLICY && Pulled(p.value.baseline) {
        OwnBaselineDecides(p.value);
      } else {
        PolicyDecides(p.value);
      }
    }
  }

  /**
   * Who gets in: callers with a boot-time key, and callers with the plaintext of a key the pulled
   * keystore accepts, who then come under the baseline of their app.
   */
  lemma AdmittedExactly(gw: Server, presented: string, route: string, now: Time)
    ensures gw.Authenticate(presented, route, now).Some? <==>
              IsEnvKey(gw, presented) || exists kid, secret :: AcceptedKey(gw, presented, kid, secret, route, now)
    ensures IsEnvKey(gw, presented) ==> gw.Authenticate(presented, route, now).value.baseline == ""
    ensures forall kid, secret :: AcceptedKey(gw, presented, kid, secret, route, now) ==>
              gw.Authenticate(presented, route, now).value.baseline
              == gw.keys.value.apps[gw.keys.value.keys[kid].appId].baseline
  {
    forall kid, secret | AcceptedKey(gw, presented, kid, secret, route, now)
      ensures gw.Authenticate(presented, route, now).Some?
      ensures gw.Authenticate(presented, route, now).value.baseline
           == gw.keys.value.apps[gw.keys.value.keys[kid].appId].baseline
    {
      AcceptedAuthenticates(gw, presented, kid, secret, route, now);
    }
    if gw.Authenticate(presented, route, now).Some? && !IsEnvKey(gw, presented) {
      var (kid, secret) := ParseAPIKey(presented).value;
      ParseInvertsPlain(presented, kid, secret);
      assert AcceptedKey(gw, presented, kid, secret, route, now);
    }
  }

  /** The text is the plaintext of a key that the pulled keystore accepts on this route at this time. */
  predicate AcceptedKey(gw: Server, presented: string, kid: string, secret: string, route: string, now: Time)
    reads gw
  {
    && presented == PlainKey(kid, secret) && kid != "" && '_' !in kid && secret != ""
    && gw.keys.Some? && kid in gw.keys.value.keys
    && var k := gw.keys.value.keys[kid];
      && k.digest == gw.digest(secret) && k.revokedAt == None
      && (k.expiresAt == None || now < k.expiresAt.value) && (k.routes == [] || route in k.routes)
      && k.appId in gw.keys.value.apps && !gw.keys.value.apps[k.appId].disabled
  }

  lemma AcceptedAuthenticates(gw: Server, presented: string, kid: string, secret: string, route: string, now: Time)
    requires AcceptedKey(gw, presented, kid, secret, route, now)
    ensures var p := gw.Authenticate(presented, route, now);
      p.Some? && p.value.baseline == gw.keys.value.apps[gw.keys.value.keys[kid].appId].baseline
    ensures !IsEnvKey(gw, presented)
  {
    ParseInvertsPlain(presented, kid, secret);
    assert presented[0] == 'g';
  }

  /**
   * The heartbeat is honest: while it claims redaction, every credential that authenticates,
   * on whatever route and at whatever time, resolves to mask or block.
   */
  lemma HeartbeatIsHonest(gw: Server, presented: string, route: string, now: Time)
    ensures var p := gw.Authenticate(presented, route, now);
      gw.ClaimsRedaction() && p.Some? ==> Enforces(gw.ResolveAction(p.value))
  {
    var p := gw.Authenticate(presented, route, now);
    if gw.ClaimsRedaction() && p.Some? && p.value.baseline != "" {
      var kid := ParseAPIKey(presented).value.0;
      var id := gw.keys.value.keys[kid].appId;
      assert gw.Scoped(id);
    }
  }

  /** A credential of the app that its copy of the keystore accepts on this route at this time. */
  predicate Valid(gw: Server, id: string, kid: string, secret: string, route: string, now: Time)
    reads gw
  {
    && gw.keys.Some? && kid in gw.keys.value.keys && kid != "" && '_' !in kid && secret != ""
    && var k := gw.keys.value.keys[kid];
      k.appId == id && gw.digest(secret) == k.digest && k.Active(now) && k.AllowsRoute(route)
  }

  /** The credential authenticates, and its traffic is let through whatever is found in it. */
  predicate LetThrough(gw: Server, presented: string, route: string, now: Time)
    reads gw
  {
    var p := gw.Authenticate(presented, route, now);
    p.Some? && !Enforces(gw.ResolveAction(p.value))
  }

  /** A key of the boot-time set that does not have the shape of an issued one. */
  predicate IsEnvKey(gw: Server, presented: string) reads gw {
    presented != "" && ParseAPIKey(presented).None? && presented in gw.clientKeys
  }

  ghost predicate EnvCallersLetThrough(gw: Server) reads gw {
    forall presented: string, route: string, now: Time {:trigger LetThrough(gw, presented, route, now)} ::
      IsEnvKey(gw, presented) ==> LetThrough(gw, presented, route, now)
  }

  ghost predicate AppLetThrough(gw: Server, id: string) reads gw {
    forall kid: string, secret: string, route: string, now: Time {:trigger Valid(gw, id, kid, secret, route, now)} ::
      Valid(gw, id, kid, secret, route, now) ==> LetThrough(gw, PlainKey(kid, secret), route, now)
  }

  lemma ValidAuthenticates(gw: Server, id: string, kid: string, secret: string, route: string, now: Time)
    requires gw.Scoped(id) && Valid(gw, id, kid, secret, route, now)
    ensures var p := gw.Authenticate(PlainKey(kid, secret), route, now);
      p.Some? && p.value.baseline == gw.keys.value.apps[id].baseline
  {
    ParseInvertsPlain(PlainKey(kid, secret), kid, secret);
    assert PlainKey(kid, secret)[0] == 'g';
  }

  /**
   * And it is not needlessly modest: when a gateway serving the Anthropic route withholds the
   * claim, either every caller with a boot-time key is let through unmasked, or some enabled
   * app is, whichever of its valid keys it presents.
   */
  lemma HeartbeatWithheldOnlyIfOpen(gw: Server)
    requires Route(Anthropic) in gw.upstreams && !gw.ClaimsRedaction()
    ensures EnvCallersLetThrough(gw) || exists id :: gw.Scoped(id) && AppLetThrough(gw, id)
  {
    if Enforces(gw.ResolveAction(ENV_PRINCIPAL)) {
      var id :| gw.Scoped(id) && !gw.AppEnforced(id);
      forall kid: string, secret: string, route: string, now: Time | Valid(gw, id, kid, secret, route, now)
        ensures LetThrough(gw, PlainKey(kid, secret), route, now)
      {
        ValidAuthenticates(gw, id, kid, secret, route, now);
      }
    }
  }

  /**
   * So for a gateway that serves the route, has a caller with a boot-time key, and whose scoped
   * apps each have a valid credential, the claim says exactly that no credential is let through.
   */
  lemma HeartbeatExact(gw: Server, env: string)
    requires Route(Anthropic) in gw.upstreams && IsEnvKey(gw, env)
    requires forall id {:trigger gw.Scoped(id)} ::
               gw.Scoped(id) ==> exists kid, secret, route, now :: Valid(gw, id, kid, secret, route, now)
    ensures gw.ClaimsRedaction() <==> forall presented, route, now :: !LetThrough(gw, presented, route, now)
  {
    if gw.ClaimsRedaction() {
      forall presented, route, now ensures !LetThrough(gw, presented, route, now) {
        HeartbeatIsHonest(gw, presented, route, now);
      }
    } else {
      HeartbeatWithheldOnlyIfOpen(gw);
      if EnvCallersLetThrough(gw) {
        assert LetThrough(gw, env, "", 0);
      } else {
        var id :| gw.Scoped(id) && AppLetThrough(gw, id);
        var kid, secret, route, now :| Valid(gw, id, kid, secret, route, now);
        assert LetThrough(gw, PlainKey(kid, secret), route, now);
      }
    }
  }
}
