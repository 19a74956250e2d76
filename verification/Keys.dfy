/**
 * The keystore: apps, issued keys and their snapshots (internal/model/keystore.go,
 * internal/store/keystore.go, internal/store/keystore_persist.go).
 */
module Keys {
  import opened Common
  import opened Sorting

  /** Times are instants on one clock. */
  type Time = int

  datatype App = App(id: string, name: string, baseline: string, disabled: bool, createdAt: Time)

  datatype APIKey = APIKey(id: string, appId: string, subject: string, labelText: string, digest: string,
                           routes: seq<string>, createdAt: Time, expiresAt: Option<Time>, revokedAt: Option<Time>)
  {
    /** A revoked key is never active; an expiring one only before its expiry. */
    predicate Active(now: Time) {
      revokedAt.None? && (expiresAt.None? || now < expiresAt.value)
    }

    predicate AllowsRoute(route: string) { routes == [] || route in routes }
  }

  // ---- wire format ----

  const KEY_PREFIX := "gwk"

  /** Splits at the first two separators only: the secret may itself contain the separator. */
  function ParseAPIKey(presented: string): Option<(string, string)> {
    var i := IndexOf(presented, '_');
    if i == |presented| then None
    else
      var rest := presented[i + 1..];
      var j := IndexOf(rest, '_');
      if j == |rest| then None
      else if presented[..i] != KEY_PREFIX || rest[..j] == "" || rest[j + 1..] == "" then None
      else Some((rest[..j], rest[j + 1..]))
  }

  function PlainKey(kid: string, secret: string): string { KEY_PREFIX + "_" + kid + "_" + secret }

  lemma {:induction false} IndexOfIs(pre: string, c: char, post: string)
    requires c !in pre
    ensures IndexOf(pre + [c] + post, c) == |pre|
  {
    if pre == [] {
    } else {
      IndexOfIs(pre[1..], c, post);
      assert (pre + [c] + post)[1..] == pre[1..] + [c] + post;
      assert pre[0] != c;
    }
  }

  lemma ParsePlain(kid: string, secret: string)
    requires '_' !in kid && kid != "" && secret != ""
    ensures ParseAPIKey(PlainKey(kid, secret)) == Some((kid, secret))
  {
    var presented, tail := PlainKey(kid, secret), kid + "_" + secret;
    assert presented == KEY_PREFIX + ['_'] + tail && tail == kid + ['_'] + secret;
    IndexOfIs(KEY_PREFIX, '_', tail);
    IndexOfIs(kid, '_', secret);
    assert presented[|KEY_PREFIX| + 1..] == tail && presented[..|KEY_PREFIX|] == KEY_PREFIX;
    assert tail[..|kid|] == kid && tail[|kid| + 1..] == secret;
  }

  lemma SplitAt(s: string, i: nat)
    requires i < |s|
    ensures s == s[..i] + [s[i]] + s[i + 1..]
  {
  }

  /**
   * Parsing undoes minting, and only minted shapes parse: a credential is a keystore key
   * exactly when it spells some key id without separator and some secret.
   */
  lemma ParseInvertsPlain(presented: string, kid: string, secret: string)
    ensures ParseAPIKey(presented) == Some((kid, secret)) <==>
            presented == PlainKey(kid, secret) && '_' !in kid && kid != "" && secret != ""
  {
    if presented == PlainKey(kid, secret) && '_' !in kid && kid != "" && secret != "" {
      ParsePlain(kid, secret);
    }
    if ParseAPIKey(presented) == Some((kid, secret)) {
      var i := IndexOf(presented, '_');
      var rest := presented[i + 1..];
      SplitAt(presented, i);
      SplitAt(rest, IndexOf(rest, '_'));
      assert rest == kid + "_" + secret;
      assert KEY_PREFIX + "_" + (kid + "_" + secret) == PlainKey(kid, secret);
    }
  }

  // ---- the store's contents and the operations on them ----

  /** What a keystore holds, by id, and the version that names it. */
  datatype View = View(version: int, apps: map<string, App>, keys: map<string, APIKey>)

  const EMPTY_VIEW := View(0, map[], map[])

  /** Every record is filed under its own id, and every key belongs to a known app. */
  ghost predicate Keyed(v: View) {
    && (forall s :: s in v.apps ==> v.apps[s].id == s)
    && (forall s :: s in v.keys ==> v.keys[s].id == s && v.keys[s].appId in v.apps)
  }

  const MAX_APP_NAME := 120
  const MAX_SUBJECT := 200
  const MAX_LABEL := 120
  const MAX_KEY_ROUTES := 8

  predicate AppIdChar(c: char, first: bool) {
    'a' <= c <= 'z' || '0' <= c <= '9' || (!first && (c == '_' || c == '-'))
  }

  predicate ValidAppId(id: string) {
    1 <= |id| <= 63 && forall i :: 0 <= i < |id| ==> AppIdChar(id[i], i == 0)
  }

  function Bump(v: View): View { v.(version := v.version + 1) }

  function CreateAppIn(v: View, a: App, now: Time): Result<View> {
    var named := if a.name == "" then a.(name := a.id) else a;
    if !ValidAppId(a.id) then Err("app id")
    else if |named.name| > MAX_APP_NAME then Err("name")
    else if a.id in v.apps then Err("exists")
    else Ok(Bump(v.(apps := v.apps[a.id := named.(createdAt := now)])))
  }

  function UpdateAppIn(v: View, id: string, baseline: Option<string>, disabled: Option<bool>,
                       name: Option<string>): Result<View>
  {
    if id !in v.apps then Err("not found")
    else
      var a0 := v.apps[id];
      var a1 := if baseline.Some? then a0.(baseline := baseline.value) else a0;
      var a2 := if disabled.Some? then a1.(disabled := disabled.value) else a1;
      if name.Some? && (name.value == "" || |name.value| > MAX_APP_NAME) then Err("name")
      else
        var a3 := if name.Some? then a2.(name := name.value) else a2;
        Ok(Bump(v.(apps := v.apps[id := a3])))
  }

  /** What the caller of IssueKey asks for. */
  datatype KeyRequest = KeyRequest(appId: string, subject: string, labelText: string, routes: seq<string>,
                                   expiresAt: Option<Time>)

  function IssueKeyIn(v: View, r: KeyRequest, kid: string, digest: string, now: Time): Result<View> {
    if |r.subject| > MAX_SUBJECT then Err("subject")
    else if |r.labelText| > MAX_LABEL then Err("label")
    else if |r.routes| > MAX_KEY_ROUTES then Err("routes")
    else if r.expiresAt.Some? && r.expiresAt.value <= now then Err("expired")
    else if r.appId !in v.apps then Err("not found")
    else
      var k := APIKey(kid, r.appId, r.subject, r.labelText, digest, r.routes, now, r.expiresAt, None);
      Ok(Bump(v.(keys := v.keys[kid := k])))
  }

  /** Revoking sets a tombstone; revoking again changes nothing, not even the version. */
  function RevokeKeyIn(v: View, kid: string, now: Time): Result<View> {
    if kid !in v.keys then Err("not found")
    else if v.keys[kid].revokedAt.Some? then Ok(v)
    else Ok(Bump(v.(keys := v.keys[kid := v.keys[kid].(revokedAt := Some(now))])))
  }

  // ---- snapshots: a listing of the maps, and the maps again ----

  datatype Snapshot = Snapshot(version: int, apps: seq<App>, keys: seq<APIKey>)

  predicate AppOrder(x: App, y: App) { StringLeq(x.id, y.id) }
  predicate KeyOrder(x: APIKey, y: APIKey) { StringLeq(x.id, y.id) }

  lemma OrdersTotal()
    ensures TotalPreorder(AppOrder) && TotalPreorder(KeyOrder)
  {
    forall x: App, y: App ensures AppOrder(x, y) || AppOrder(y, x) { StringLeqTotal(x.id, y.id); }
    forall x: App, y: App, z: App | AppOrder(x, y) && AppOrder(y, z)
      ensures AppOrder(x, z) { StringLeqTransitive(x.id, y.id, z.id); }
    forall x: APIKey, y: APIKey ensures KeyOrder(x, y) || KeyOrder(y, x) { StringLeqTotal(x.id, y.id); }
    forall x: APIKey, y: APIKey, z: APIKey | KeyOrder(x, y) && KeyOrder(y, z)
      ensures KeyOrder(x, z) { StringLeqTransitive(x.id, y.id, z.id); }
  }

  /** The list holds exactly the values of the map. */
  ghost predicate ListsValues<T>(list: seq<T>, m: map<string, T>) {
    && (forall x :: x in list ==> exists s :: s in m && m[s] == x)
    && (forall s :: s in m ==> m[s] in list)
  }

  method SortedValues<T(!new)>(m: map<string, T>, leq: (T, T) -> bool) returns (list: seq<T>)
    requires TotalPreorder(leq)
    ensures ListsValues(list, m) && |list| == |m| && Ordered(leq, list)
  {
    var out: seq<T> := [];
    var todo := m.Keys;
    while todo != {}
      invariant todo <= m.Keys && |out| + |todo| == |m.Keys|
      invariant forall x :: x in out ==> exists s :: s in m && m[s] == x
      invariant forall s :: s in m && s !in todo ==> m[s] in out
    {
      var s :| s in todo;
      out := out + [m[s]];
      todo := todo - {s};
    }
    if |out| == 0 {
      return [];
    }
    var a := new T[|out|](i requires 0 <= i < |out| => out[i]);
    assert a[..] == out;
    SortSlice(a, leq);
    list := a[..];
    ArrangementMembers(leq, list, out);
  }

  /** Each value is filed under its own id, and every filed value comes from the list. */
  ghost predicate FilesById<T>(m: map<string, T>, list: seq<T>, id: T -> string) {
    && (forall x :: x in list ==> id(x) in m)
    && (forall s :: s in m ==> m[s] in list && id(m[s]) == s)
  }

  method IndexById<T>(list: seq<T>, id: T -> string) returns (m: map<string, T>)
    ensures FilesById(m, list, id)
  {
    m := map[];
    for i := 0 to |list|
      invariant FilesById(m, list[..i], id)
    {
      assert list[..i + 1] == list[..i] + [list[i]];
      m := m[id(list[i]) := list[i]];
    }
    assert list[..|list|] == list;
  }

  /** Listing a map and filing the list again gives the map back. */
  lemma IndexInvertsListing<T>(m: map<string, T>, list: seq<T>, m': map<string, T>, id: T -> string)
    requires ListsValues(list, m) && FilesById(m', list, id)
    requires forall s :: s in m ==> id(m[s]) == s
    ensures m' == m
  {
    forall s | s in m ensures s in m' && m'[s] == m[s] {
      assert m[s] in list;
      var t :| t in m && m[t] == m'[s];
      assert id(m[t]) == t;
    }
    forall s | s in m' ensures s in m {
      var t :| t in m && m[t] == m'[s];
      assert id(m[t]) == t;
    }
  }

  ghost predicate SnapshotOf(snap: Snapshot, v: View) {
    snap.version == v.version && ListsValues(snap.apps, v.apps) && ListsValues(snap.keys, v.keys)
  }

  function AppId(a: App): string { a.id }
  function KeyId(k: APIKey): string { k.id }

  /** The lookup form built from a snapshot. */
  method NewKeySnapshot(snap: Snapshot) returns (v: View)
    ensures v.version == snap.version && FilesById(v.apps, snap.apps, AppId) && FilesById(v.keys, snap.keys, KeyId)
    ensures forall w :: Keyed(w) && SnapshotOf(snap, w) ==> v == w
  {
    var apps := IndexById(snap.apps, AppId);
    var keys := IndexById(snap.keys, KeyId);
    v := View(snap.version, apps, keys);
    forall w | Keyed(w) && SnapshotOf(snap, w) ensures v == w {
      IndexInvertsListing(w.apps, snap.apps, apps, AppId);
      IndexInvertsListing(w.keys, snap.keys, keys, KeyId);
    }
  }

  /**
   * The store. Its file, when it has one, is rewritten whole after every change; a write may
   * fail, which is remembered and changes nothing else.
   */
  class Store {
    var apps: map<string, App>
    var keys: map<string, APIKey>
    var keysVersion: int
    var hasFile: bool
    var disk: Snapshot
    var persistErr: bool

    ghost function Contents(): View
      reads this
    {
      View(keysVersion, apps, keys)
    }

    /** The file says what the store holds. */
    ghost predicate Durable()
      reads this
    {
      SnapshotOf(disk, Contents())
    }

    /** A store that holds nothing and writes nowhere. */
    constructor ()
      ensures Contents() == EMPTY_VIEW && !hasFile && !persistErr
    {
      apps, keys, keysVersion := map[], map[], 0;
      hasFile, persistErr := false, false;
      disk := Snapshot(0, [], []);
    }

    method KeySnapshot() returns (snap: Snapshot)
      ensures SnapshotOf(snap, Contents())
      ensures Ordered(AppOrder, snap.apps) && Ordered(KeyOrder, snap.keys)
      ensures |snap.apps| == |apps| && |snap.keys| == |keys|
    {
      OrdersTotal();
      var k := SortedValues(keys, KeyOrder);
      var a := SortedValues(apps, AppOrder);
      snap := Snapshot(keysVersion, a, k);
    }

    /** Advances the version and writes through; writes says whether the file write succeeds. */
    method BumpKeys(writes: bool)
      modifies this
      ensures Contents() == Bump(old(Contents())) && hasFile == old(hasFile)
      ensures hasFile ==> persistErr == !writes
      ensures hasFile && writes ==> Durable()
      ensures !(hasFile && writes) ==> disk == old(disk)
      ensures !hasFile ==> persistErr == old(persistErr)
    {
      keysVersion := keysVersion + 1;
      if !hasFile {
        return;
      }
      var snap := KeySnapshot();
      if !writes {
        persistErr := true;
        return;
      }
      disk := snap;
      persistErr := false;
    }

    /** A mutation that reached the file is durable; one that did not leaves the file alone. */
    twostate predicate WroteThrough(writes: bool)
      reads this
    {
      && hasFile == old(hasFile)
      && (hasFile && writes ==> Durable() && !persistErr)
      && (hasFile && !writes ==> disk == old(disk) && persistErr)
      && (!hasFile ==> disk == old(disk))
    }

    method CreateApp(a: App, now: Time, writes: bool) returns (r: Result<App>)
      modifies this
      ensures var next := CreateAppIn(old(Contents()), a, now);
        && r.Ok? == next.Ok?
        && Contents() == (if next.Ok? then next.value else old(Contents()))
        && (next.Ok? ==> r.value == apps[a.id] && WroteThrough(writes))
        && (next.Err? ==> unchanged(this))
      ensures r.Ok? <==> ValidAppId(a.id) && |a.name| <= MAX_APP_NAME && a.id !in old(apps)
      ensures r.Ok? ==>
        && apps == old(apps)[a.id := a.(name := if a.name == "" then a.id else a.name, createdAt := now)]
        && keys == old(keys) && keysVersion == old(keysVersion) + 1
    {
      if !ValidAppId(a.id) {
        return Err("app id");
      }
      var named := a;
      if named.name == "" {
        named := named.(name := named.id);
      }
      if |named.name| > MAX_APP_NAME {
        return Err("name");
      }
      if named.id in apps {
        return Err("exists");
      }
      named := named.(createdAt := now);
      apps := apps[named.id := named];
      BumpKeys(writes);
      return Ok(named);
    }

    method UpdateApp(id: string, baseline: Option<string>, disabled: Option<bool>, name: Option<string>, writes: bool)
      returns (r: Result<App>)
      modifies this
      ensures var next := UpdateAppIn(old(Contents()), id, baseline, disabled, name);
        && r.Ok? == next.Ok?
        && Contents() == (if next.Ok? then next.value else old(Contents()))
        && (next.Ok? ==> r.value == apps[id] && WroteThrough(writes))
        && (next.Err? ==> unchanged(this))
      ensures r.Ok? <==> id in old(apps) && (name.Some? ==> 0 < |name.value| <= MAX_APP_NAME)
      ensures r.Ok? ==>
        && apps.Keys == old(apps).Keys
           && (forall other :: other in apps && other != id ==> apps[other] == old(apps)[other])
        && keys == old(keys) && keysVersion == old(keysVersion) + 1
      ensures r.Ok? ==>
        && apps[id].baseline == (if baseline.Some? then baseline.value else old(apps)[id].baseline)
        && apps[id].disabled == (if disabled.Some? then disabled.value else old(apps)[id].disabled)
        && apps[id].name == (if name.Some? then name.value else old(apps)[id].name)
        && apps[id].id == old(apps)[id].id && apps[id].createdAt == old(apps)[id].createdAt
    {
      if id !in apps {
        return Err("not found");
      }
      var a := apps[id];
      if baseline.Some? {
        a := a.(baseline := baseline.value);
      }
      if disabled.Some? {
        a := a.(disabled := disabled.value);
      }
      if name.Some? {
        if name.value == "" || |name.value| > MAX_APP_NAME {
          return Err("name");
        }
        a := a.(name := name.value);
      }
      apps := apps[id := a];
      BumpKeys(writes);
      return Ok(a);
    }

    /** kid and secret are the freshly minted halves of the credential. */
    method IssueKey(req: KeyRequest, kid: string, secret: string, digest: string -> string, now: Time, writes: bool)
      returns (r: Result<string>)
      modifies this
      ensures var next := IssueKeyIn(old(Contents()), req, kid, digest(secret), now);
        && r.Ok? == next.Ok?
        && Contents() == (if next.Ok? then next.value else old(Contents()))
        && (next.Ok? ==> r.value == PlainKey(kid, secret) && WroteThrough(writes))
        && (next.Err? ==> unchanged(this))
      ensures r.Ok? <==> |req.subject| <= MAX_SUBJECT && |req.labelText| <= MAX_LABEL && |req.routes| <= MAX_KEY_ROUTES
                         && (req.expiresAt.Some? ==> now < req.expiresAt.value) && req.appId in old(apps)
      ensures r.Ok? ==>
        && keys == old(keys)[kid := APIKey(kid, req.appId, req.subject, req.labelText, digest(secret), req.routes, now,
                                           req.expiresAt, None)]
        && apps == old(apps) && keysVersion == old(keysVersion) + 1
    {
      if |req.subject| > MAX_SUBJECT {
        return Err("subject");
      }
      if |req.labelText| > MAX_LABEL {
        return Err("label");
      }
      if |req.routes| > MAX_KEY_ROUTES {
        return Err("routes");
      }
      if req.expiresAt.Some? && !(req.expiresAt.value > now) {
        return Err("expired");
      }
      if req.appId !in apps {
        return Err("not found");
      }
      var k := APIKey(kid, req.appId, req.subject, req.labelText, digest(secret), req.routes, now, req.expiresAt, None);
      keys := keys[kid := k];
      BumpKeys(writes);
      return Ok(PlainKey(kid, secret));
    }

    method RevokeKey(kid: string, now: Time, writes: bool) returns (r: Result<APIKey>)
      modifies this
      ensures var next := RevokeKeyIn(old(Contents()), kid, now);
        && r.Ok? == next.Ok?
        && Contents() == (if next.Ok? then next.value else old(Contents()))
        && (next.Ok? ==> r.value == keys[kid] && r.value.revokedAt.Some?)
        && (next.Ok? && Contents() != old(Contents()) ==> WroteThrough(writes))
        && (Contents() == old(Contents()) ==> unchanged(this))
      ensures r.Ok? <==> kid in old(keys)
      ensures r.Ok? && old(keys)[kid].revokedAt.Some? ==> unchanged(this)
      ensures r.Ok? && old(keys)[kid].revokedAt.None? ==>
        && keys == old(keys)[kid := old(keys)[kid].(revokedAt := Some(now))]
        && apps == old(apps) && keysVersion == old(keysVersion) + 1
    {
      if kid !in keys {
        return Err("not found");
      }
      var k := keys[kid];
      if k.revokedAt.Some? {
        return Ok(k);
      }
      k := k.(revokedAt := Some(now));
      keys := keys[kid := k];
      BumpKeys(writes);
      return Ok(k);
    }

    /** Boot: file what the saved snapshot lists and take over its version. */
    method EnableKeystorePersistence(saved: Snapshot)
      modifies this
      ensures hasFile && disk == saved && keysVersion == saved.version
      ensures old(apps) == map[] && old(keys) == map[] ==>
                forall v :: Keyed(v) && SnapshotOf(saved, v) ==> Contents() == v && Durable()
    {
      var v := NewKeySnapshot(saved);
      apps := apps + v.apps;
      keys := keys + v.keys;
      keysVersion := saved.version;
      disk := saved;
      hasFile := true;
      assert old(apps) == map[] ==> apps == v.apps;
      assert old(keys) == map[] ==> keys == v.keys;
    }
  }
}
