// The per-node limiter: user limits, online devices and cached rate buckets.
module Limiter {
  import opened Bytes
  import opened Wrappers

  datatype UserInfo = UserInfo(id: int64, uuid: string, speedLimit: int, deviceLimit: int)

  datatype UserLimitInfo = UserLimitInfo(
    uid: int64, speedLimit: int, deviceLimit: int, dynamicSpeedLimit: int, expireTime: int, overLimit: bool)

  // format.UserTag
  function UserTag(tag: string, uuid: string): string { tag + "|" + uuid }

  lemma UserTagInjective(tag: string, uuid: string, uuid': string)
    ensures UserTag(tag, uuid) == UserTag(tag, uuid') <==> uuid == uuid'
  {
    assert UserTag(tag, uuid)[|tag| + 1..] == uuid;
    assert UserTag(tag, uuid')[|tag| + 1..] == uuid';
  }

  // ---------- Rates ----------

  function DetermineSpeedLimit(limit1: int, limit2: int): int {
    if limit1 == 0 || limit2 == 0 then
      if limit1 > limit2 then limit1 else if limit1 < limit2 then limit2 else 0
    else
      if limit1 > limit2 then limit2 else limit1
  }

  // The least of the limits that are not zero, and zero when both are.
  predicate IsLeastNonZero(r: int, a: int, b: int) {
    && (r == 0 <==> a == 0 && b == 0)
    && (r != 0 ==> (r == a || r == b) && (a != 0 ==> r <= a) && (b != 0 ==> r <= b))
  }

  // The order does not matter. The result is the least non-zero limit unless a
  // negative limit meets none at all: then it is zero, which means no limit.
  lemma LeastNonZero(a: int, b: int)
    ensures DetermineSpeedLimit(a, b) == DetermineSpeedLimit(b, a)
    ensures IsLeastNonZero(DetermineSpeedLimit(a, b), a, b) <==> !((a < 0 && b == 0) || (a == 0 && b < 0))
    ensures (a < 0 && b == 0) || (a == 0 && b < 0) ==> DetermineSpeedLimit(a, b) == 0
  {
  }

  lemma NegativeMeetsNone()
    ensures DetermineSpeedLimit(-3, 0) == 0 && !IsLeastNonZero(DetermineSpeedLimit(-3, 0), -3, 0)
  {
  }

  // Bytes per second for a limit in megabits per second.
  function ByteRate(limit: int): int { limit * 1000000 / 8 }

  function CurrentLimit(nodeLimit: int, u: UserLimitInfo): int {
    DetermineSpeedLimit(nodeLimit, DetermineSpeedLimit(u.speedLimit, u.dynamicSpeedLimit))
  }

  // A user entry as sync rounds create it: no temporary limit, no expiry.
  function FreshInfo(u: UserInfo): UserLimitInfo {
    UserLimitInfo(u.id, u.speedLimit, u.deviceLimit, 0, 0, false)
  }

  predicate Permanent(u: UserLimitInfo) { u.dynamicSpeedLimit == 0 && u.expireTime == 0 }

  // Without a node limit a negative limit counts as none.
  lemma PermanentRate(u: UserLimitInfo)
    requires Permanent(u)
    ensures ByteRate(CurrentLimit(0, u)) == 125000 * if u.speedLimit > 0 then u.speedLimit else 0
  {
  }

  // ---------- Specification ----------

  // What a limiter holds; buckets are their rates.
  datatype View = View(
    limits: map<string, UserLimitInfo>,
    online: map<string, map<string, int64>>,
    oldOnline: map<string, int64>,
    buckets: map<string, int>,
    uids: map<string, int64>,
    alive: map<int64, int>)

  function Tags(tag: string, users: seq<UserInfo>): set<string> { set u | u in users :: UserTag(tag, u.uuid) }

  function Uuids(users: seq<UserInfo>): set<string> { set u | u in users :: u.uuid }

  function Ids(users: seq<UserInfo>): set<int64> { set u | u in users :: u.id }

  function StoreLimits(limits: map<string, UserLimitInfo>, tag: string, users: seq<UserInfo>): map<string, UserLimitInfo> {
    if users == [] then limits
    else
      var u := users[|users| - 1];
      StoreLimits(limits, tag, users[..|users| - 1])[UserTag(tag, u.uuid) := FreshInfo(u)]
  }

  function StoreUids(uids: map<string, int64>, users: seq<UserInfo>): map<string, int64> {
    if users == [] then uids
    else
      var u := users[|users| - 1];
      StoreUids(uids, users[..|users| - 1])[u.uuid := u.id]
  }

  function Removed(v: View, tag: string, deleted: seq<UserInfo>): View {
    var tags := Tags(tag, deleted);
    v.(limits := v.limits - tags, online := v.online - tags, buckets := v.buckets - tags,
       uids := v.uids - Uuids(deleted), alive := v.alive - Ids(deleted))
  }

  function Updated(v: View, tag: string, added: seq<UserInfo>, deleted: seq<UserInfo>): View {
    var r := Removed(v, tag, deleted);
    r.(limits := StoreLimits(r.limits, tag, added), uids := StoreUids(r.uids, added))
  }

  predicate DistinctUuids(users: seq<UserInfo>) {
    forall i, j :: 0 <= i < j < |users| ==> users[i].uuid != users[j].uuid
  }

  lemma {:induction false} StoredInfo(limits: map<string, UserLimitInfo>, tag: string, users: seq<UserInfo>, j: nat)
    requires DistinctUuids(users) && j < |users|
    ensures UserTag(tag, users[j].uuid) in StoreLimits(limits, tag, users)
    ensures StoreLimits(limits, tag, users)[UserTag(tag, users[j].uuid)] == FreshInfo(users[j])
  {
    var n := |users| - 1;
    if j < n {
      StoredInfo(limits, tag, users[..n], j);
      UserTagInjective(tag, users[j].uuid, users[n].uuid);
    }
  }

  lemma {:induction false} OtherKey(limits: map<string, UserLimitInfo>, tag: string, users: seq<UserInfo>, key: string)
    requires key !in Tags(tag, users)
    ensures key in StoreLimits(limits, tag, users) <==> key in limits
    ensures key in limits ==> StoreLimits(limits, tag, users)[key] == limits[key]
  {
    if users != [] {
      var n := |users| - 1;
      assert users[n] in users && forall u :: u in users[..n] ==> u in users;
      OtherKey(limits, tag, users[..n], key);
    }
  }

  lemma StoreLimitsAt(limits: map<string, UserLimitInfo>, tag: string, users: seq<UserInfo>)
    requires DistinctUuids(users)
    ensures var r := StoreLimits(limits, tag, users);
            && r.Keys == limits.Keys + Tags(tag, users)
            && (forall u :: u in users ==> r[UserTag(tag, u.uuid)] == FreshInfo(u))
            && (forall k :: k in limits && k !in Tags(tag, users) ==> r[k] == limits[k])
  {
    hide StoreLimits, FreshInfo;
    forall j | 0 <= j < |users|
      ensures UserTag(tag, users[j].uuid) in StoreLimits(limits, tag, users)
      ensures StoreLimits(limits, tag, users)[UserTag(tag, users[j].uuid)] == FreshInfo(users[j])
    {
      StoredInfo(limits, tag, users, j);
    }
    forall k | k !in Tags(tag, users)
      ensures k in StoreLimits(limits, tag, users) <==> k in limits
      ensures k in limits ==> StoreLimits(limits, tag, users)[k] == limits[k]
    {
      OtherKey(limits, tag, users, k);
    }
  }

  // Field by field: a stored user has the ID and limits of the list, no temporary
  // limit and no expiry.
  lemma StoredAs(limits: map<string, UserLimitInfo>, tag: string, users: seq<UserInfo>, u: UserInfo)
    requires DistinctUuids(users) && u in users
    ensures UserTag(tag, u.uuid) in StoreLimits(limits, tag, users)
    ensures var info := StoreLimits(limits, tag, users)[UserTag(tag, u.uuid)];
            && info.uid == u.id && info.speedLimit == u.speedLimit && info.deviceLimit == u.deviceLimit
            && info.dynamicSpeedLimit == 0 && info.expireTime == 0 && !info.overLimit
  {
    StoreLimitsAt(limits, tag, users);
    assert UserTag(tag, u.uuid) in Tags(tag, users);
  }

  // Every stored UUID leads to its ID, and the others to what they led to.
  lemma {:induction false} StoreUidsAt(uids: map<string, int64>, users: seq<UserInfo>)
    requires DistinctUuids(users)
    ensures var r := StoreUids(uids, users);
            && (forall u :: u in users ==> u.uuid in r && r[u.uuid] == u.id)
            && (forall k :: k !in Uuids(users) ==> (k in r <==> k in uids) && (k in r ==> r[k] == uids[k]))
  {
    if users != [] {
      var n := |users| - 1;
      StoreUidsAt(uids, users[..n]);
      assert users == users[..n] + [users[n]];
      assert Uuids(users) == Uuids(users[..n]) + {users[n].uuid};
      forall u | u in users ensures u.uuid in StoreUids(uids, users) && StoreUids(uids, users)[u.uuid] == u.id {
        assert u in users[..n] || u == users[n];
      }
    }
  }

  // Nothing of the deleted users is left, and nothing of anybody else is touched.
  lemma RemovedMeans(v: View, tag: string, deleted: seq<UserInfo>, u: UserInfo, key: string)
    ensures var r := Removed(v, tag, deleted);
            && (u in deleted ==>
                  && UserTag(tag, u.uuid) !in r.limits && UserTag(tag, u.uuid) !in r.online
                  && UserTag(tag, u.uuid) !in r.buckets && u.uuid !in r.uids && u.id !in r.alive)
            && (key !in Tags(tag, deleted) ==>
                  && (key in r.limits <==> key in v.limits) && (key in r.limits ==> r.limits[key] == v.limits[key])
                  && (key in r.online <==> key in v.online) && (key in r.online ==> r.online[key] == v.online[key])
                  && (key in r.buckets <==> key in v.buckets) && (key in r.buckets ==> r.buckets[key] == v.buckets[key]))
            && r.oldOnline == v.oldOnline
  {
  }

  lemma {:induction false} StoreUidsKeys(uids: map<string, int64>, users: seq<UserInfo>)
    ensures StoreUids(uids, users).Keys == uids.Keys + Uuids(users)
  {
    if users != [] {
      var n := |users| - 1;
      StoreUidsKeys(uids, users[..n]);
      assert users == users[..n] + [users[n]];
    }
  }

  // ---------- Coherence ----------

  // The limiter knows exactly the users of the list, with their speed limits.
  ghost predicate Synced(v: View, tag: string, users: seq<UserInfo>) {
    && v.limits.Keys == Tags(tag, users)
    && v.uids.Keys == Uuids(users)
    && forall u :: u in users ==>
         && UserTag(tag, u.uuid) in v.limits
         && v.limits[UserTag(tag, u.uuid)].speedLimit == u.speedLimit
         && Permanent(v.limits[UserTag(tag, u.uuid)])
  }

  // Every cached bucket is that of a known user, at the user's current rate.
  ghost predicate CacheCoherent(v: View, nodeLimit: int) {
    forall k :: k in v.buckets ==>
      && k in v.limits
      && v.buckets[k] == ByteRate(CurrentLimit(nodeLimit, v.limits[k])) > 0
  }

  // ---------- One admission check ----------

  datatype Verdict = Rejected | Admitted(bucket: Option<int>)

  // Whether admitting one more address would exceed the device limit.
  predicate Full(v: View, u: UserLimitInfo) {
    u.deviceLimit > 0 && u.deviceLimit <= if u.uid in v.alive then v.alive[u.uid] else 0
  }

  // Whether this address needs a free device slot: it is not online for the
  // user already, and it is not the first address of a user coming back from
  // the previous reporting round.
  predicate NeedsSlot(v: View, key: string, ip: string) {
    if key in v.online then ip !in v.online[key] else ip !in v.oldOnline
  }

  // What a check of a known user u with the given user limit leaves behind and
  // answers. A rejected check leaves no trace; an admitted one records the
  // address where devices are tracked, and caches a bucket where there is a limit
  // and none is cached yet.
  ghost predicate Checked(
      v: View, v': View, key: string, u: UserLimitInfo, rate: int, ip: string, tracked: bool, r: Verdict)
  {
    if tracked && NeedsSlot(v, key, ip) && Full(v, u) then
      r == Rejected && v' == v
    else
      && r.Admitted?
      && v'.limits == v.limits && v'.uids == v.uids && v'.alive == v.alive
      && Recorded(v, v', key, u.uid, ip, tracked)
      && (r, v'.buckets) == Bucketed(v.buckets, key, rate)
  }

  // The answer for an admitted user and the cache afterwards.
  function Bucketed(buckets: map<string, int>, key: string, rate: int): (Verdict, map<string, int>) {
    if rate <= 0 then (Admitted(None), buckets)
    else if key in buckets then (Admitted(Some(buckets[key])), buckets)
    else (Admitted(Some(rate)), buckets[key := rate])
  }

  // An address is turned away exactly when the user has a device limit, the panel
  // has seen that many devices or more, and the address is neither online nor, for a
  // user who is not, one of the previous round.
  lemma RejectedIff(v: View, v': View, key: string, u: UserLimitInfo, rate: int, ip: string, tracked: bool, r: Verdict)
    requires Checked(v, v', key, u, rate, ip, tracked, r)
    ensures r == Rejected <==>
      && tracked && u.deviceLimit > 0
      && u.uid in v.alive && v.alive[u.uid] >= u.deviceLimit
      && !(key in v.online && ip in v.online[key])
      && !(key !in v.online && ip in v.oldOnline)
    ensures r.Admitted? && tracked ==> key in v'.online && ip in v'.online[key]
    ensures forall k :: k != key ==> (k in v'.online <==> k in v.online) && (k in v.online ==> v'.online[k] == v.online[k])
    ensures key in v.online ==> key in v'.online && v.online[key].Items <= v'.online[key].Items
  {
  }

  // What an admitted check records where devices are tracked: the address joins
  // those of the user; a user who was not online gives the address up in the
  // previous round, if it was theirs there.
  lemma AdmittedRecords(
      v: View, v': View, key: string, u: UserLimitInfo, rate: int, ip: string, tracked: bool, r: Verdict)
    requires Checked(v, v', key, u, rate, ip, tracked, r) && r.Admitted?
    ensures !tracked ==> v'.online == v.online && v'.oldOnline == v.oldOnline
    ensures tracked ==> key in v'.online && v'.online.Keys == v.online.Keys + {key}
    ensures tracked && key in v.online ==>
      v'.online[key] == map[ip := u.uid] + v.online[key] && v'.oldOnline == v.oldOnline
    ensures tracked && key !in v.online ==> v'.online[key] == map[ip := u.uid]
    ensures tracked && key !in v.online ==>
      forall a :: a in v'.oldOnline <==> a in v.oldOnline && !(a == ip && v.oldOnline[a] == u.uid)
    ensures forall a :: a in v'.oldOnline ==> a in v.oldOnline && v'.oldOnline[a] == v.oldOnline[a]
  {
  }

  datatype OnlineUser = OnlineUser(uid: int64, ip: string)

  predicate Has(addresses: map<string, int64>, d: OnlineUser) {
    d.ip in addresses && addresses[d.ip] == d.uid
  }

  ghost predicate IsOnline(online: map<string, map<string, int64>>, d: OnlineUser) {
    exists key :: key in online && Has(online[key], d)
  }

  // The devices are the online ones, in any order.
  ghost predicate Lists(devices: seq<OnlineUser>, online: map<string, map<string, int64>>) {
    forall d :: d in devices <==> IsOnline(online, d)
  }

  ghost predicate ListsUser(devices: seq<OnlineUser>, addresses: map<string, int64>) {
    forall d :: d in devices <==> Has(addresses, d)
  }

  lemma NothingListed(before: map<string, int64>)
    ensures Lists([], map[]) && Remembers(before, before, [])
  {
  }

  lemma ListsMore(
      devices: seq<OnlineUser>, more: seq<OnlineUser>, online: map<string, map<string, int64>>, rest: set<string>, key: string)
    requires key in online && key in rest
    requires Lists(devices, online - rest) && ListsUser(more, online[key])
    ensures Lists(devices + more, online - (rest - {key}))
  {
    var less, all := online - rest, online - (rest - {key});
    forall d ensures d in devices + more <==> IsOnline(all, d) {
      if IsOnline(all, d) {
        var k :| k in all && Has(all[k], d);
        assert k == key || k in less;
      }
      if IsOnline(less, d) {
        var k :| k in less && Has(less[k], d);
        assert k in all;
      }
      assert key in all;
    }
  }

  // So every online address is reported, with its user, and nothing else is.
  lemma ReportedIff(devices: seq<OnlineUser>, online: map<string, map<string, int64>>, uid: int64, ip: string)
    requires Lists(devices, online)
    ensures OnlineUser(uid, ip) in devices <==>
      exists key :: key in online && ip in online[key] && online[key][ip] == uid
  {
    assert OnlineUser(uid, ip) in devices <==> IsOnline(online, OnlineUser(uid, ip));
  }

  // The addresses of the previous round are the older ones and the reported ones,
  // each with a user it was seen with.
  ghost predicate Remembers(before: map<string, int64>, after: map<string, int64>, devices: seq<OnlineUser>) {
    && (forall ip :: ip in before ==> ip in after)
    && (forall d :: d in devices ==> d.ip in after)
    && (forall ip :: ip in after ==>
          OnlineUser(after[ip], ip) in devices || (ip in before && after[ip] == before[ip]))
  }

  lemma RemembersMore(
      before: map<string, int64>, middle: map<string, int64>, devices: seq<OnlineUser>,
      after: map<string, int64>, more: seq<OnlineUser>)
    ensures Remembers(before, middle, devices) && Remembers(middle, after, more) ==>
      Remembers(before, after, devices + more)
  {
  }

  function OneAddress(ip: string, uid: int64): map<string, int64> { map[ip := uid] }

  // The address is online for the user; a user who comes back with an address of
  // the previous round gives it up there; nothing else is touched.
  ghost predicate Recorded(v: View, v': View, key: string, uid: int64, ip: string, tracked: bool) {
    if !tracked then v'.online == v.online && v'.oldOnline == v.oldOnline
    else if key in v.online then
      && v'.online == v.online[key := if ip in v.online[key] then v.online[key] else v.online[key][ip := uid]]
      && v'.oldOnline == v.oldOnline
    else
      && v'.online == v.online[key := OneAddress(ip, uid)]
      && v'.oldOnline == if ip in v.oldOnline && v.oldOnline[ip] == uid then v.oldOnline - {ip} else v.oldOnline
  }

  predicate Expired(u: UserLimitInfo, now: int) { u.expireTime < now && u.expireTime != 0 }

  // The user's own limit, and the table once a temporary limit that has expired
  // is cleared: an expired user without a limit of their own is forgotten.
  function OwnLimit(u: UserLimitInfo, now: int): int {
    if Expired(u, now) then u.speedLimit else DetermineSpeedLimit(u.speedLimit, u.dynamicSpeedLimit)
  }

  function Cleared(v: View, key: string, now: int): View
    requires key in v.limits
  {
    var u := v.limits[key];
    if !Expired(u, now) then v
    else if u.speedLimit != 0 then v.(limits := v.limits[key := u.(dynamicSpeedLimit := 0, expireTime := 0)])
    else v.(limits := v.limits - {key})
  }

  // A temporary limit counts until its time is over, and then is gone. A user without
  // a limit of their own is forgotten, after one last check without a user limit. For
  // others the check that clears the limit answers the rate that holds from then on,
  // unless a negative limit of their own meets a node limit.
  lemma TemporaryLimitEnds(v: View, key: string, now: int, nodeLimit: int)
    requires key in v.limits
    ensures var u, v' := v.limits[key], Cleared(v, key, now);
            && (u.expireTime == 0 || now <= u.expireTime ==> v' == v)
            && (key !in v'.limits <==> u.expireTime != 0 && u.expireTime < now && u.speedLimit == 0)
            && (key !in v'.limits ==> OwnLimit(u, now) == 0)
            && (key in v'.limits ==>
                  && (DetermineSpeedLimit(nodeLimit, OwnLimit(u, now)) == CurrentLimit(nodeLimit, v'.limits[key])
                      <==> v' == v || u.speedLimit > 0 || nodeLimit == 0)
                  && (v'.limits[key] != u ==> Permanent(v'.limits[key]) && v'.limits[key].speedLimit == u.speedLimit)
                  && (v'.limits[key].expireTime == 0 || now <= v'.limits[key].expireTime))
            && v' == v.(limits := v'.limits) && v'.limits - {key} == v.limits - {key}
  {
  }

  // A check keeps both kinds of coherence, and what it answers is the user's
  // current rate, or no bucket exactly when there is no limit.
  lemma CheckKeepsCoherence(
      v: View, v': View, nodeLimit: int, key: string, now: int, ip: string, tracked: bool, r: Verdict,
      tag: string, users: seq<UserInfo>)
    requires Synced(v, tag, users) && CacheCoherent(v, nodeLimit) && key in v.limits
    requires Checked(Cleared(v, key, now), v', key, v.limits[key],
                     ByteRate(DetermineSpeedLimit(nodeLimit, OwnLimit(v.limits[key], now))), ip, tracked, r)
    ensures Synced(v', tag, users) && CacheCoherent(v', nodeLimit) && v'.limits == v.limits
    ensures r.Admitted? ==>
      var rate := ByteRate(CurrentLimit(nodeLimit, v.limits[key]));
      r.bucket == if rate > 0 then Some(rate) else None
  {
  }

  // ---------- Implementation ----------

  const MAPPED_PREFIX := "::ffff:"

  // strings.TrimPrefix(ip, "::ffff:")
  function TrimMapped(ip: string): string {
    if MAPPED_PREFIX <= ip then ip[|MAPPED_PREFIX|..] else ip
  }

  predicate TracksDevices(nodeType: string, noUDPSource: bool) {
    noUDPSource || nodeType == "hysteria" || nodeType == "hysteria2" || nodeType == "tuic"
  }

  // Devices are counted where the source address is that of the user, and for the
  // protocols over QUIC.
  lemma TrackedIff(nodeType: string, noUDPSource: bool)
    ensures TracksDevices(nodeType, noUDPSource) <==> noUDPSource || nodeType in ["hysteria", "hysteria2", "tuic"]
  {
  }

  // An IPv4 address mapped to IPv6 counts as the IPv4 address; other addresses are
  // left as they are.
  lemma TrimmedIff(ip: string)
    ensures TrimMapped("::ffff:" + ip) == ip
    ensures TrimMapped(ip) != ip <==> |ip| >= 7 && ip[..7] == "::ffff:"
  {
    assert ("::ffff:" + ip)[7..] == ip;
  }

  class Limiter {
    const nodeType: string
    var speedLimit: int
    var userOnlineIP: map<string, map<string, int64>>
    var oldUserOnline: map<string, int64>
    var uuidToUID: map<string, int64>
    var userLimitInfo: map<string, UserLimitInfo>
    var speedLimiter: map<string, int>
    var aliveList: map<int64, int>

    ghost function V(): View
      reads this
    {
      View(userLimitInfo, userOnlineIP, oldUserOnline, speedLimiter, uuidToUID, aliveList)
    }

    // Manager.Add
    constructor (tag: string, users: seq<UserInfo>, aliveList: map<int64, int>, nodeType: string)
      ensures V() == Updated(View(map[], map[], map[], map[], map[], aliveList), tag, users, [])
      ensures speedLimit == 0 && this.nodeType == nodeType
      ensures DistinctUuids(users) ==> Synced(V(), tag, users)
      ensures CacheCoherent(V(), speedLimit)
    {
      this.nodeType := nodeType;
      speedLimit := 0;
      userOnlineIP, oldUserOnline, speedLimiter := map[], map[], map[];
      this.aliveList := aliveList;
      userLimitInfo, uuidToUID := map[], map[];
      new;
      for i := 0 to |users|
        invariant V() == View(StoreLimits(map[], tag, users[..i]), map[], map[], map[], StoreUids(map[], users[..i]), aliveList)
        invariant speedLimit == 0
      {
        assert users[..i + 1][..i] == users[..i];
        uuidToUID := uuidToUID[users[i].uuid := users[i].id];
        var info := UserLimitInfo(0, 0, 0, 0, 0, false);
        info := info.(uid := users[i].id);
        if users[i].speedLimit != 0 {
          info := info.(speedLimit := users[i].speedLimit);
        }
        if users[i].deviceLimit != 0 {
          info := info.(deviceLimit := users[i].deviceLimit);
        }
        userLimitInfo := userLimitInfo[UserTag(tag, users[i].uuid) := info];
      }
      assert users[..|users|] == users;
      UpdateOfEmpty(tag, users, aliveList);
    }

    method UpdateUser(tag: string, added: seq<UserInfo>, deleted: seq<UserInfo>)
      modifies this
      ensures V() == Updated(old(V()), tag, added, deleted)
      ensures speedLimit == old(speedLimit)
    {
      hide StoreLimits, StoreUids, Removed;
      RemoveUsers(tag, deleted);
      StoreUsers(tag, added);
    }

    method RemoveUsers(tag: string, deleted: seq<UserInfo>)
      modifies this
      ensures V() == Removed(old(V()), tag, deleted)
      ensures speedLimit == old(speedLimit)
    {
      ghost var before := V();
      for i := 0 to |deleted|
        invariant V() == Removed(before, tag, deleted[..i]) && speedLimit == old(speedLimit)
      {
        assert deleted[..i + 1] == deleted[..i] + [deleted[i]];
        RemovedStep(before, tag, deleted[..i], deleted[i]);
        hide Removed;
        userLimitInfo := userLimitInfo - {UserTag(tag, deleted[i].uuid)};
        userOnlineIP := userOnlineIP - {UserTag(tag, deleted[i].uuid)};
        speedLimiter := speedLimiter - {UserTag(tag, deleted[i].uuid)};
        uuidToUID := uuidToUID - {deleted[i].uuid};
        aliveList := aliveList - {deleted[i].id};
      }
      assert deleted[..|deleted|] == deleted;
    }

    method StoreUsers(tag: string, added: seq<UserInfo>)
      modifies this`userLimitInfo, this`uuidToUID
      ensures userLimitInfo == StoreLimits(old(userLimitInfo), tag, added)
      ensures uuidToUID == StoreUids(old(uuidToUID), added)
    {
      for i := 0 to |added|
        invariant userLimitInfo == StoreLimits(old(userLimitInfo), tag, added[..i])
        invariant uuidToUID == StoreUids(old(uuidToUID), added[..i])
      {
        assert added[..i + 1][..i] == added[..i];
        var info := UserLimitInfo(added[i].id, 0, 0, 0, 0, false);
        if added[i].speedLimit != 0 {
          info := info.(speedLimit := added[i].speedLimit, expireTime := 0);
        }
        if added[i].deviceLimit != 0 {
          info := info.(deviceLimit := added[i].deviceLimit);
        }
        userLimitInfo := userLimitInfo[UserTag(tag, added[i].uuid) := info];
        uuidToUID := uuidToUID[added[i].uuid := added[i].id];
      }
      assert added[..|added|] == added;
    }

    // The clock is a parameter. An unknown user is rejected.
    method CheckLimit(tagUuid: string, address: string, noUDPSource: bool, now: int) returns (r: Verdict)
      modifies this
      ensures speedLimit == old(speedLimit)
      ensures tagUuid !in old(userLimitInfo) ==> r == Rejected && V() == old(V())
      ensures tagUuid in old(userLimitInfo) ==>
        var u := old(userLimitInfo)[tagUuid];
        Checked(Cleared(old(V()), tagUuid, now), V(), tagUuid, u,
                ByteRate(DetermineSpeedLimit(speedLimit, OwnLimit(u, now))),
                TrimMapped(address), TracksDevices(nodeType, noUDPSource), r)
    {
      hide NeedsSlot, Full, DetermineSpeedLimit, ByteRate;
      var ip := TrimMapped(address);
      if tagUuid !in userLimitInfo {
        return Rejected;
      }
      var u := userLimitInfo[tagUuid];
      var userLimit := 0;
      if u.expireTime < now && u.expireTime != 0 {
        if u.speedLimit != 0 {
          userLimit := u.speedLimit;
          userLimitInfo := userLimitInfo[tagUuid := u.(dynamicSpeedLimit := 0, expireTime := 0)];
        } else {
          userLimitInfo := userLimitInfo - {tagUuid};
        }
      } else {
        userLimit := DetermineSpeedLimit(u.speedLimit, u.dynamicSpeedLimit);
      }
      if noUDPSource || nodeType == "hysteria" || nodeType == "hysteria2" || nodeType == "tuic" {
        var rejected := RecordAddress(tagUuid, u, ip);
        if rejected {
          return Rejected;
        }
      }
      r := TakeBucket(tagUuid, ByteRate(DetermineSpeedLimit(speedLimit, userLimit)));
    }

    // The cached bucket, or a new one that is cached; none without a limit.
    method TakeBucket(tagUuid: string, limit: int) returns (r: Verdict)
      modifies this`speedLimiter
      ensures (r, speedLimiter) == Bucketed(old(speedLimiter), tagUuid, limit)
    {
      if limit > 0 {
        if tagUuid in speedLimiter {
          return Admitted(Some(speedLimiter[tagUuid]));
        }
        speedLimiter := speedLimiter[tagUuid := limit];
        return Admitted(Some(limit));
      }
      return Admitted(None);
    }

    // Reports every online address with its user, makes the reported addresses
    // the previous round, and starts a new round.
    method GetOnlineDevice() returns (devices: seq<OnlineUser>)
      modifies this`userOnlineIP, this`oldUserOnline
      ensures userOnlineIP == map[]
      ensures Lists(devices, old(userOnlineIP))
      ensures Remembers(old(oldUserOnline), oldUserOnline, devices)
    {
      NothingListed(oldUserOnline);
      hide Lists, ListsUser, Remembers, Has, IsOnline;
      ghost var all, before := userOnlineIP, oldUserOnline;
      devices := [];
      var keys := userOnlineIP.Keys;
      assert all - keys == map[];
      while keys != {}
        invariant keys <= all.Keys && keys == userOnlineIP.Keys
        invariant forall k :: k in keys ==> userOnlineIP[k] == all[k]
        invariant Lists(devices, all - keys)
        invariant Remembers(before, oldUserOnline, devices)
      {
        var key :| key in keys;
        ghost var round := oldUserOnline;
        var some := Report(userOnlineIP[key]);
        ListsMore(devices, some, all, keys, key);
        RemembersMore(before, round, devices, oldUserOnline, some);
        devices := devices + some;
        userOnlineIP := userOnlineIP - {key};
        keys := keys - {key};
      }
      assert all - {} == all;
    }

    // One user's addresses, each once.
    method Report(addresses: map<string, int64>) returns (devices: seq<OnlineUser>)
      modifies this`oldUserOnline
      ensures |devices| == |addresses|
      ensures ListsUser(devices, addresses)
      ensures Remembers(old(oldUserOnline), oldUserOnline, devices)
    {
      devices := [];
      var ips := addresses.Keys;
      while ips != {}
        invariant ips <= addresses.Keys
        invariant |devices| + |ips| == |addresses.Keys|
        invariant forall d :: d in devices <==> Has(addresses, d) && d.ip !in ips
        invariant Remembers(old(oldUserOnline), oldUserOnline, devices)
      {
        var ip :| ip in ips;
        ips := ips - {ip};
        oldUserOnline := oldUserOnline[ip := addresses[ip]];
        devices := devices + [OnlineUser(addresses[ip], ip)];
      }
    }

    // The device limit. The address is stored first and taken back on rejection.
    method RecordAddress(tagUuid: string, u: UserLimitInfo, ip: string) returns (rejected: bool)
      modifies this`userOnlineIP, this`oldUserOnline
      ensures rejected == (NeedsSlot(old(V()), tagUuid, ip) && Full(old(V()), u))
      ensures if rejected then V() == old(V()) else Recorded(old(V()), V(), tagUuid, u.uid, ip, true)
    {
      var aliveIP := if u.uid in aliveList then aliveList[u.uid] else 0;
      if tagUuid in userOnlineIP {
        var ipMap := userOnlineIP[tagUuid];
        if ip !in ipMap {
          userOnlineIP := userOnlineIP[tagUuid := ipMap[ip := u.uid]];
          if u.deviceLimit > 0 {
            if u.deviceLimit <= aliveIP {
              assert userOnlineIP[tagUuid] - {ip} == ipMap;
              userOnlineIP := userOnlineIP[tagUuid := userOnlineIP[tagUuid] - {ip}];
              assert userOnlineIP == old(userOnlineIP);
              return true;
            }
          }
        }
      } else {
        userOnlineIP := userOnlineIP[tagUuid := OneAddress(ip, u.uid)];
        if ip in oldUserOnline {
          if oldUserOnline[ip] == u.uid {
            oldUserOnline := oldUserOnline - {ip};
          }
        } else if u.deviceLimit > 0 {
          if u.deviceLimit <= aliveIP {
            userOnlineIP := userOnlineIP - {tagUuid};
            assert userOnlineIP == old(userOnlineIP);
            return true;
          }
        }
      }
      return false;
    }
  }

  lemma {:induction false} UpdateOfEmpty(tag: string, users: seq<UserInfo>, alive: map<int64, int>)
    ensures var v := View(map[], map[], map[], map[], map[], alive);
            && Updated(v, tag, users, []) ==
                 v.(limits := StoreLimits(map[], tag, users), uids := StoreUids(map[], users))
            && (DistinctUuids(users) ==> Synced(Updated(v, tag, users, []), tag, users))
  {
    if DistinctUuids(users) {
      StoreLimitsAt(map[], tag, users);
    }
    StoreUidsKeys(map[], users);
  }

  lemma RemovedStep(v: View, tag: string, deleted: seq<UserInfo>, u: UserInfo)
    ensures var r := Removed(v, tag, deleted);
            Removed(v, tag, deleted + [u]) ==
              r.(limits := r.limits - {UserTag(tag, u.uuid)}, online := r.online - {UserTag(tag, u.uuid)},
                 buckets := r.buckets - {UserTag(tag, u.uuid)}, uids := r.uids - {u.uuid}, alive := r.alive - {u.id})
  {
    assert Tags(tag, deleted + [u]) == Tags(tag, deleted) + {UserTag(tag, u.uuid)};
    assert Uuids(deleted + [u]) == Uuids(deleted) + {u.uuid};
    assert Ids(deleted + [u]) == Ids(deleted) + {u.id};
  }
}
