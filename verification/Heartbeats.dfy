/**
 * The bounded map of gateway heartbeats (internal/store/gateway.go): when it is full and an
 * unknown gateway reports, the oldest heartbeat makes room.
 */
module Heartbeats {
  import opened Common

  const MAX_GATEWAYS := 32

  /** One enforcement report: who sent it, when, and which capabilities it lists by vendor. */
  datatype Beat = Beat(id: string, at: int, vendors: map<string, seq<string>>)

  // ---- what a history of heartbeats says ----

  type Beats = map<string, Beat>

  /** The last heartbeat of every gateway heard of. */
  function Latest(h: seq<Beat>): Beats {
    if h == [] then map[] else Latest(h[..|h| - 1])[h[|h| - 1].id := h[|h| - 1]]
  }

  /** Stamps strictly increase, and every gateway has a name. */
  ghost predicate Clocked(h: seq<Beat>) {
    && (forall i, j :: 0 <= i < j < |h| ==> h[i].at < h[j].at)
    && (forall i :: 0 <= i < |h| ==> h[i].id != "")
  }

  lemma LatestSnoc(h: seq<Beat>, r: Beat)
    ensures Latest(h + [r]) == Latest(h)[r.id := r]
  {
    assert (h + [r])[..|h|] == h;
  }

  lemma ClockedSnoc(h: seq<Beat>, r: Beat)
    requires Clocked(h + [r])
    ensures Clocked(h) && r.id != "" && forall b :: b in h ==> b.at < r.at
  {
    var h' := h + [r];
    forall i, j | 0 <= i < j < |h| ensures h[i].at < h[j].at { assert h'[i].at < h'[j].at; }
    forall i | 0 <= i < |h| ensures h[i].id != "" && h[i].at < r.at {
      assert h'[i].id != "" && h'[i].at < h'[|h|].at;
    }
    assert h'[|h|].id != "";
  }

  /** Each gateway's entry is its own youngest heartbeat. */
  lemma {:induction false} LatestIsYoungest(h: seq<Beat>)
    requires Clocked(h)
    ensures forall b :: b in h ==> b.id in Latest(h) && b.at <= Latest(h)[b.id].at
    ensures forall id :: id in Latest(h) ==> Latest(h)[id] in h && Latest(h)[id].id == id && id != ""
  {
    if h == [] {
    } else {
      var front, r := h[..|h| - 1], h[|h| - 1];
      assert h == front + [r];
      ClockedSnoc(front, r);
      LatestIsYoungest(front);
    }
  }

  ghost predicate DistinctStamps(latest: Beats) {
    forall a, b :: a in latest && b in latest && a != b ==> latest[a].at != latest[b].at
  }

  lemma {:induction false} LatestDistinct(h: seq<Beat>)
    requires Clocked(h)
    ensures DistinctStamps(Latest(h))
  {
    if h == [] {
    } else {
      var front, r := h[..|h| - 1], h[|h| - 1];
      assert h == front + [r];
      ClockedSnoc(front, r);
      LatestDistinct(front);
      LatestIsYoungest(front);
    }
  }

  /** The ids that have reported since id last did. */
  ghost function After(latest: Beats, id: string): set<string>
    requires id in latest
  {
    set other | other in latest && latest[other].at > latest[id].at
  }

  /**
   * m holds the latest heartbeat of each of the most recently heard gateways: as many as
   * there are, up to the bound, and none of them older than one left out.
   */
  ghost predicate MostRecent(latest: Beats, m: Beats) {
    && m.Keys <= latest.Keys
    && |m| == Min(MAX_GATEWAYS, |latest|)
    && (forall id :: id in m ==> m[id] == latest[id])
    && (forall id, other :: id in m && other in latest && other !in m ==> latest[other].at < m[id].at)
  }

  ghost predicate Newest(latest: Beats, r: Beat) { forall id :: id in latest ==> latest[id].at < r.at }

  lemma SubsetSmaller<T>(a: set<T>, b: set<T>)
    requires a <= b
    ensures |a| <= |b|
    ensures |a| == |b| ==> a == b
  {
    assert b == a + (b - a);
  }

  /** A gateway already held updates in place. */
  lemma UpdateInPlace(latest: Beats, m: Beats, r: Beat)
    requires Newest(latest, r) && MostRecent(latest, m) && r.id in m
    ensures MostRecent(latest[r.id := r], m[r.id := r])
  {
    assert latest[r.id := r].Keys == latest.Keys && m[r.id := r].Keys == m.Keys;
    assert |latest[r.id := r].Keys| == |latest.Keys| && |m[r.id := r].Keys| == |m.Keys|;
  }

  /** With room to spare, every gateway heard of is held. */
  lemma AllHeld(latest: Beats, m: Beats)
    requires MostRecent(latest, m) && |m| < MAX_GATEWAYS
    ensures m == latest
  {
    assert |m.Keys| == |m| && |latest.Keys| == |latest|;
    SubsetSmaller(m.Keys, latest.Keys);
  }

  /** With room to spare, an unknown gateway is added. */
  lemma AddWithRoom(latest: Beats, m: Beats, r: Beat)
    requires MostRecent(latest, m) && r.id !in m && |m| < MAX_GATEWAYS
    ensures MostRecent(latest[r.id := r], m[r.id := r])
  {
    AllHeld(latest, m);
    assert m[r.id := r].Keys == m.Keys + {r.id} && |m[r.id := r]| == |m[r.id := r].Keys| && |m.Keys| == |m|;
  }

  function Evicted(m: Beats, oldest: string, r: Beat): Beats { (m - {oldest})[r.id := r] }

  lemma EvictedKeys(m: Beats, oldest: string, r: Beat)
    requires r.id !in m && oldest in m
    ensures Evicted(m, oldest, r).Keys == m.Keys - {oldest} + {r.id} && |Evicted(m, oldest, r)| == |m|
  {
    var m' := Evicted(m, oldest, r);
    assert m'.Keys == m.Keys - {oldest} + {r.id};
    assert |m'| == |m'.Keys| && |m.Keys| == |m|;
  }

  lemma GrownKeys(latest: Beats, r: Beat)
    ensures latest[r.id := r].Keys == latest.Keys + {r.id} && |latest[r.id := r]| >= |latest|
  {
    assert latest[r.id := r].Keys == latest.Keys + {r.id};
    SubsetSmaller(latest.Keys, latest[r.id := r].Keys);
    assert |latest.Keys| == |latest| && |latest[r.id := r].Keys| == |latest[r.id := r]|;
  }

  lemma EvictedSize(latest: Beats, m: Beats, r: Beat, oldest: string)
    requires MostRecent(latest, m) && r.id !in m && |m| == MAX_GATEWAYS && oldest in m
    ensures |Evicted(m, oldest, r)| == Min(MAX_GATEWAYS, |latest[r.id := r]|)
    ensures Evicted(m, oldest, r).Keys <= latest[r.id := r].Keys
  {
    EvictedKeys(m, oldest, r);
    GrownKeys(latest, r);
  }

  lemma EvictedValues(latest: Beats, m: Beats, r: Beat, oldest: string)
    requires MostRecent(latest, m) && oldest in m
    ensures forall id :: id in Evicted(m, oldest, r)
              ==> id in latest[r.id := r] && Evicted(m, oldest, r)[id] == latest[r.id := r][id]
  {
  }

  lemma EvictedOrder(latest: Beats, m: Beats, r: Beat, oldest: string)
    requires Newest(latest, r) && DistinctStamps(latest) && MostRecent(latest, m)
    requires oldest in m && forall id :: id in m ==> m[oldest].at <= m[id].at
    ensures forall id, other ::
              id in Evicted(m, oldest, r) && other in latest[r.id := r] && other !in Evicted(m, oldest, r) ==>
              latest[r.id := r][other].at < Evicted(m, oldest, r)[id].at
  {
    forall id, other | id in Evicted(m, oldest, r) && other in latest[r.id := r] && other !in Evicted(m, oldest, r)
      ensures latest[r.id := r][other].at < Evicted(m, oldest, r)[id].at {
      if id != r.id {
        assert latest[id].at != latest[oldest].at;
      }
    }
  }

  /** When full, the oldest heartbeat makes room for an unknown gateway. */
  lemma EvictOldest(latest: Beats, m: Beats, r: Beat, oldest: string)
    requires Newest(latest, r) && DistinctStamps(latest) && MostRecent(latest, m) && r.id !in m && |m| == MAX_GATEWAYS
    requires oldest in m && forall id :: id in m ==> m[oldest].at <= m[id].at
    ensures MostRecent(latest[r.id := r], Evicted(m, oldest, r))
  {
    EvictedSize(latest, m, r, oldest);
    EvictedValues(latest, m, r, oldest);
    EvictedOrder(latest, m, r, oldest);
  }

  /**
   * Exact least-recently-heard: a gateway holds its slot exactly while fewer than 32 other ids
   * have reported since its last heartbeat.
   */
  lemma HeldExactly(h: seq<Beat>, m: Beats, id: string)
    requires Clocked(h) && MostRecent(Latest(h), m) && id in Latest(h)
    ensures id in m <==> |After(Latest(h), id)| < MAX_GATEWAYS
  {
    var latest := Latest(h);
    assert |m.Keys| == |m| && |latest.Keys| == |latest|;
    if id in m {
      assert After(latest, id) <= m.Keys - {id};
      SubsetSmaller(After(latest, id), m.Keys - {id});
    } else {
      SubsetSmaller(m.Keys + {id}, latest.Keys);
      assert m.Keys <= After(latest, id);
      SubsetSmaller(m.Keys, After(latest, id));
    }
  }

  // ---- the map ----

  class HeartbeatMap {
    var gwEnforce: map<string, Beat>
    ghost var history: seq<Beat>

    constructor ()
      ensures history == [] && gwEnforce == map[] && Valid()
    {
      gwEnforce := map[];
      history := [];
    }

    ghost predicate Valid()
      reads this
    {
      Clocked(history) && MostRecent(Latest(history), gwEnforce)
    }

    /** The id of the oldest heartbeat held, searching in any order. */
    method Oldest() returns (oldest: string)
      requires gwEnforce != map[] && "" !in gwEnforce
      ensures oldest in gwEnforce && forall id :: id in gwEnforce ==> gwEnforce[oldest].at <= gwEnforce[id].at
    {
      oldest := "";
      var oldestAt := 0;
      var todo := gwEnforce.Keys;
      while todo != {}
        invariant todo <= gwEnforce.Keys
        invariant oldest == "" <==> todo == gwEnforce.Keys
        invariant oldest != "" ==> oldest in gwEnforce && oldestAt == gwEnforce[oldest].at
        invariant oldest != "" ==> forall id :: id in gwEnforce && id !in todo ==> oldestAt <= gwEnforce[id].at
      {
        var id :| id in todo;
        todo := todo - {id};
        if oldest == "" || gwEnforce[id].at < oldestAt {
          oldest, oldestAt := id, gwEnforce[id].at;
        }
      }
    }

    /**
     * Records a heartbeat, stamped now if it carries no stamp. The ingest route refuses a
     * heartbeat without a gateway id, and the clock never repeats.
     */
    method SetGatewayEnforcement(r: Beat, now: int)
      requires Valid()
      requires Clocked(history + [if r.at == 0 then r.(at := now) else r])
      modifies this
      ensures Valid() && history == old(history) + [if r.at == 0 then r.(at := now) else r]
      ensures r.id in gwEnforce && |gwEnforce| <= MAX_GATEWAYS
    {
      var b := r;
      if b.at == 0 {
        b := b.(at := now);
      }
      ghost var latest := Latest(history);
      Grow(history, b);
      if b.id !in gwEnforce && |gwEnforce| >= MAX_GATEWAYS {
        var oldest := Oldest();
        EvictOldest(latest, gwEnforce, b, oldest);
        gwEnforce := gwEnforce - {oldest};
        assert gwEnforce[b.id := b] == Evicted(old(gwEnforce), oldest, b);
      } else if b.id in gwEnforce {
        UpdateInPlace(latest, gwEnforce, b);
      } else {
        AddWithRoom(latest, gwEnforce, b);
      }
      gwEnforce := gwEnforce[b.id := b];
      history := history + [b];
    }

    predicate Lists(id: string, vendor: string, capability: string)
      requires id in gwEnforce
      reads this
    {
      vendor in gwEnforce[id].vendors && capability in gwEnforce[id].vendors[vendor]
    }

    /**
     * Whether a gateway enforces the capability now (fresh: a listing heartbeat younger than
     * the cutoff) or ever did; the id returned is one that lists it.
     */
    method GatewayEnforcement(vendor: string, capability: string, cutoff: int)
      returns (gatewayId: string, isFresh: bool, everSeen: bool)
      ensures everSeen <==> exists id :: id in gwEnforce && Lists(id, vendor, capability)
      ensures isFresh <==> exists id :: id in gwEnforce && Lists(id, vendor, capability) && gwEnforce[id].at > cutoff
      ensures everSeen ==> gatewayId in gwEnforce && Lists(gatewayId, vendor, capability)
      ensures isFresh ==> everSeen && gwEnforce[gatewayId].at > cutoff
    {
      gatewayId, isFresh, everSeen := "", false, false;
      var todo := gwEnforce.Keys;
      while todo != {}
        invariant todo <= gwEnforce.Keys && !isFresh
        invariant everSeen <==> exists id :: id in gwEnforce && id !in todo && Lists(id, vendor, capability)
        invariant everSeen ==> gatewayId in gwEnforce && Lists(gatewayId, vendor, capability)
        invariant forall id :: id in gwEnforce && id !in todo && Lists(id, vendor, capability)
                    ==> gwEnforce[id].at <= cutoff
      {
        var id :| id in todo;
        todo := todo - {id};
        if !Lists(id, vendor, capability) {
          continue;
        }
        everSeen := true;
        if gwEnforce[id].at > cutoff {
          return id, true, true;
        }
        gatewayId := id;
      }
    }
  }

  lemma Grow(h: seq<Beat>, r: Beat)
    requires Clocked(h + [r])
    ensures Latest(h + [r]) == Latest(h)[r.id := r]
    ensures Newest(Latest(h), r) && DistinctStamps(Latest(h)) && "" !in Latest(h)
  {
    ClockedSnoc(h, r);
    LatestSnoc(h, r);
    LatestIsYoungest(h);
    LatestDistinct(h);
  }
}
