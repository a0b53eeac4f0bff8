// Rounds of the user list monitor, which keep the panel's list, the limiter and
// the core's user table in step.
module UserSync {
  import opened Bytes
  import opened Executions
  import opened L = Limiter
  import opened UserDiff
  import opened Wrappers

  // A panel request: it failed, it had nothing new, or it answered.
  datatype Fetched<+T> = Failed | Absent | Got(value: T)

  // How the core answers: how many users it removes before the first failure, and
  // whether it takes new users.
  datatype Outcome = Outcome(removable: nat, addOk: bool)

  // The core's user table maps user tags to user ids.
  datatype State = State(view: View, users: seq<UserInfo>, core: map<string, int64>)

  // ---------- Specification ----------

  function StoreTags(core: map<string, int64>, tag: string, users: seq<UserInfo>): map<string, int64> {
    if users == [] then core
    else
      var u := users[|users| - 1];
      StoreTags(core, tag, users[..|users| - 1])[UserTag(tag, u.uuid) := u.id]
  }

  // The user list monitor once it has compared its list with a new one.
  function Applied(
      tag: string, s: State, users: seq<UserInfo>, out: Outcome, deleted: seq<UserInfo>, added: seq<UserInfo>): State
  {
    if deleted != [] && out.removable < |deleted| then
      s.(core := s.core - Tags(tag, deleted[..out.removable]))
    else
      var core := StoreTags(s.core - Tags(tag, deleted), tag, added);
      if added != [] && !out.addOk then s.(core := core)
      else State(Updated(s.view, tag, added, deleted), users, core)
  }

  predicate Completes(out: Outcome, deleted: seq<UserInfo>, added: seq<UserInfo>) {
    (deleted == [] || |deleted| <= out.removable) && (added == [] || out.addOk)
  }

  ghost predicate Round(
      tag: string, s: State, s': State,
      users: Fetched<seq<UserInfo>>, alive: Fetched<map<int64, int>>, out: Outcome)
  {
    if users.Failed? || alive.Failed? then s' == s
    else
      var heard := if alive.Got? then s.(view := s.view.(alive := alive.value)) else s;
      if users.Absent? then s' == heard
      else
        exists deleted, added ::
          && Compared(s.users, users.value, deleted, added)
          && s' == Applied(tag, heard, users.value, out, deleted, added)
  }

  // ---------- Implementation ----------

  // The part of the core that holds users.
  class Server {
    var uidMap: map<string, int64>

    method DelUsers(users: seq<UserInfo>, tag: string, removable: nat) returns (ok: bool)
      modifies this
      ensures ok == (|users| <= removable)
      ensures uidMap == old(uidMap) - Tags(tag, if ok then users else users[..removable])
    {
      for i := 0 to |users|
        invariant i <= removable
        invariant uidMap == old(uidMap) - Tags(tag, users[..i])
      {
        if i == removable {
          return false;
        }
        assert users[..i + 1] == users[..i] + [users[i]];
        assert Tags(tag, users[..i + 1]) == Tags(tag, users[..i]) + {UserTag(tag, users[i].uuid)};
        uidMap := uidMap - {UserTag(tag, users[i].uuid)};
      }
      assert users[..|users|] == users;
      ok := true;
    }

    // The table takes all users before anything can fail.
    method AddUsers(users: seq<UserInfo>, tag: string, addOk: bool) returns (ok: bool)
      modifies this
      ensures ok == addOk
      ensures uidMap == StoreTags(old(uidMap), tag, users)
    {
      for i := 0 to |users|
        invariant uidMap == StoreTags(old(uidMap), tag, users[..i])
      {
        assert users[..i + 1][..i] == users[..i];
        uidMap := uidMap[UserTag(tag, users[i].uuid) := users[i].id];
      }
      assert users[..|users|] == users;
      ok := addOk;
    }
  }

  class Controller {
    const tag: string
    const server: Server
    const limiter: L.Limiter
    var userList: seq<UserInfo>

    constructor (tag: string, server: Server, limiter: L.Limiter, users: seq<UserInfo>)
      ensures this.tag == tag && this.server == server && this.limiter == limiter && userList == users
    {
      this.tag, this.server, this.limiter, userList := tag, server, limiter, users;
    }

    ghost function S(): State
      reads this, server, limiter
    {
      State(limiter.V(), userList, server.uidMap)
    }

    method UserListMonitor(users: Fetched<seq<UserInfo>>, alive: Fetched<map<int64, int>>, out: Outcome)
      modifies this, server, limiter
      ensures Round(tag, old(S()), S(), users, alive, out)
      ensures limiter.speedLimit == old(limiter.speedLimit)
    {
      if users.Failed? {
        return;
      }
      if alive.Failed? {
        return;
      }
      if alive.Got? {
        limiter.aliveList := alive.value;
      }
      if users.Absent? {
        return;
      }
      var deleted, added := CompareUserList(userList, users.value);
      hide Compared, StoreTags, Updated, Tags;
      Apply(users.value, out, deleted, added);
    }

    method Apply(newU: seq<UserInfo>, out: Outcome, deleted: seq<UserInfo>, added: seq<UserInfo>)
      modifies this, server, limiter
      ensures S() == Applied(tag, old(S()), newU, out, deleted, added)
      ensures limiter.speedLimit == old(limiter.speedLimit)
    {
      NothingRemoved(S().core, tag);
      NothingUpdated(limiter.V(), tag);
      hide Tags, Updated;
      if |deleted| > 0 {
        var ok := server.DelUsers(deleted, tag, out.removable);
        if !ok {
          return;
        }
      }
      if |added| > 0 {
        var ok := server.AddUsers(added, tag, out.addOk);
        if !ok {
          return;
        }
      }
      if |added| > 0 || |deleted| > 0 {
        limiter.UpdateUser(tag, added, deleted);
      }
      userList := newU;
    }
  }

  lemma NothingRemoved(core: map<string, int64>, tag: string)
    ensures core - Tags(tag, []) == core
  {
  }

  lemma NothingUpdated(v: View, tag: string)
    ensures Updated(v, tag, [], []) == v
  {
  }

  // ---------- What every round keeps ----------

  // The limiter holds exactly the users of the controller's list with their
  // limits, and no bucket of a stale rate.
  ghost predicate Agreement(tag: string, nodeLimit: int, s: State) {
    DistinctUuids(s.users) && Synced(s.view, tag, s.users) && CacheCoherent(s.view, nodeLimit)
  }

  // A list of users with distinct UUIDs, which the key comparison can tell apart
  // from the present list.
  ghost predicate Acceptable(s: State, users: Fetched<seq<UserInfo>>) {
    users.Got? ==> DistinctUuids(users.value) && Unambiguous(s.users, users.value)
  }

  lemma {:induction false} AddedStaysDistinct(oldKeys: set<string>, users: seq<UserInfo>)
    requires DistinctUuids(users)
    ensures DistinctUuids(Added(oldKeys, users))
  {
    if users != [] {
      var n := |users| - 1;
      AddedStaysDistinct(oldKeys, users[..n]);
      var before := Added(oldKeys, users[..n]);
      forall i | 0 <= i < |before| ensures before[i].uuid != users[n].uuid {
        var j := AddedIsUnmatched(oldKeys, users[..n], before[i]);
      }
    }
  }

  // An old user kept by the difference has the same uuid in both lists and is
  // neither deleted nor added.
  lemma KeptUser(
      before: seq<UserInfo>, after: seq<UserInfo>, deleted: seq<UserInfo>, added: seq<UserInfo>, u: UserInfo)
    requires DistinctUuids(before) && DistinctUuids(after) && Exact(before, after, deleted, added)
    requires u in before && u !in deleted
    ensures u.uuid !in Uuids(deleted) && u.uuid !in Uuids(added) && u.uuid in Uuids(after)
  {
  }

  // A new user is added, or is an old user with the same limit.
  lemma NewUser(
      before: seq<UserInfo>, after: seq<UserInfo>, deleted: seq<UserInfo>, added: seq<UserInfo>, v: UserInfo)
    requires DistinctUuids(before) && DistinctUuids(after) && Exact(before, after, deleted, added)
    requires v in after && v !in added
    ensures exists u :: u in before && u !in deleted && Same(u, v)
  {
  }

  lemma TagIn(tag: string, users: seq<UserInfo>, uuid: string)
    ensures UserTag(tag, uuid) in Tags(tag, users) <==> uuid in Uuids(users)
  {
    if UserTag(tag, uuid) in Tags(tag, users) {
      var u :| u in users && UserTag(tag, u.uuid) == UserTag(tag, uuid);
      UserTagInjective(tag, u.uuid, uuid);
    }
  }

  // Deleting and adding the difference turns the old keys into the new ones.
  lemma DifferenceOfUuids(before: seq<UserInfo>, after: seq<UserInfo>, deleted: seq<UserInfo>, added: seq<UserInfo>)
    requires DistinctUuids(before) && DistinctUuids(after) && Exact(before, after, deleted, added)
    ensures Uuids(before) - Uuids(deleted) + Uuids(added) == Uuids(after)
    ensures (Uuids(before) - Uuids(deleted)) !! Uuids(added)
  {
  }

  lemma DifferenceOfTags(tag: string, before: seq<UserInfo>, after: seq<UserInfo>, deleted: seq<UserInfo>, added: seq<UserInfo>)
    requires DistinctUuids(before) && DistinctUuids(after) && Exact(before, after, deleted, added)
    ensures Tags(tag, before) - Tags(tag, deleted) + Tags(tag, added) == Tags(tag, after)
    ensures (Tags(tag, before) - Tags(tag, deleted)) !! Tags(tag, added)
  {
    DifferenceOfUuids(before, after, deleted, added);
    hide Exact, DistinctUuids;
    TagsOfUuids(tag, before);
    TagsOfUuids(tag, after);
    TagsOfUuids(tag, deleted);
    TagsOfUuids(tag, added);
  }

  lemma TagsOfUuids(tag: string, users: seq<UserInfo>)
    ensures forall uuid :: UserTag(tag, uuid) in Tags(tag, users) <==> uuid in Uuids(users)
    ensures forall t :: t in Tags(tag, users) ==> exists uuid :: uuid in Uuids(users) && t == UserTag(tag, uuid)
  {
    forall uuid ensures UserTag(tag, uuid) in Tags(tag, users) <==> uuid in Uuids(users) {
      TagIn(tag, users, uuid);
    }
    forall t | t in Tags(tag, users) ensures exists uuid :: uuid in Uuids(users) && t == UserTag(tag, uuid) {
      var u :| u in users && t == UserTag(tag, u.uuid);
      assert u.uuid in Uuids(users);
    }
  }

  lemma UpdateKeepsSync(
      v: View, tag: string, before: seq<UserInfo>, after: seq<UserInfo>, deleted: seq<UserInfo>, added: seq<UserInfo>)
    requires DistinctUuids(before) && DistinctUuids(after) && DistinctUuids(added)
    requires Exact(before, after, deleted, added) && Synced(v, tag, before)
    ensures Synced(Updated(v, tag, added, deleted), tag, after)
  {
    var r := Removed(v, tag, deleted);
    StoreLimitsAt(r.limits, tag, added);
    StoreUidsKeys(r.uids, added);
    DifferenceOfUuids(before, after, deleted, added);
    DifferenceOfTags(tag, before, after, deleted, added);
    var limits := StoreLimits(r.limits, tag, added);
    forall n | n in after
      ensures UserTag(tag, n.uuid) in limits
      ensures limits[UserTag(tag, n.uuid)].speedLimit == n.speedLimit && Permanent(limits[UserTag(tag, n.uuid)])
    {
      if n !in added {
        NewUser(before, after, deleted, added, n);
        var u :| u in before && u !in deleted && Same(u, n);
        KeptUser(before, after, deleted, added, u);
        TagIn(tag, deleted, u.uuid);
        TagIn(tag, added, u.uuid);
      }
    }
  }

  lemma UpdateKeepsCache(
      v: View, nodeLimit: int, tag: string,
      before: seq<UserInfo>, after: seq<UserInfo>, deleted: seq<UserInfo>, added: seq<UserInfo>)
    requires DistinctUuids(before) && DistinctUuids(after) && DistinctUuids(added)
    requires Exact(before, after, deleted, added) && Synced(v, tag, before) && CacheCoherent(v, nodeLimit)
    ensures CacheCoherent(Updated(v, tag, added, deleted), nodeLimit)
  {
    StoreLimitsAt(Removed(v, tag, deleted).limits, tag, added);
    DifferenceOfTags(tag, before, after, deleted, added);
    hide Exact, DistinctUuids, Tags, StoreLimits, ByteRate, CurrentLimit, StoreUids, Uuids, Ids;
    var u := Updated(v, tag, added, deleted);
    forall k | k in u.buckets
      ensures k in u.limits && u.buckets[k] == ByteRate(CurrentLimit(nodeLimit, u.limits[k])) > 0
    {
      assert k in v.limits && k in Tags(tag, before) - Tags(tag, deleted);
      assert k !in Tags(tag, added);
    }
  }

  // ---------- Exactly when limiter and list agree ----------

  // The comparison leaves an old user where it is.
  predicate Stays(before: seq<UserInfo>, after: seq<UserInfo>, u: UserInfo) {
    u in before && !IsLastOf(LastByKey(before), Keys(before) - Keys(after), u)
  }

  // Old users that stay are in the new list, and new users that are taken for old
  // ones are old ones. Adding a user who stays is harmless.
  ghost predicate Harmless(before: seq<UserInfo>, after: seq<UserInfo>) {
    && (forall u :: Stays(before, after, u) ==> u.uuid in Uuids(after))
    && (forall j {:trigger Matched(Keys(before), after, j)} ::
          0 <= j < |after| && Matched(Keys(before), after, j) ==> HasSame(before, after[j]))
  }

  lemma HarmlessUuids(before: seq<UserInfo>, after: seq<UserInfo>, deleted: seq<UserInfo>, added: seq<UserInfo>)
    requires DistinctUuids(before) && DistinctUuids(after)
    requires Compared(before, after, deleted, added) && Harmless(before, after)
    ensures Uuids(before) - Uuids(deleted) + Uuids(added) == Uuids(after)
  {
    forall uuid | uuid in Uuids(before) - Uuids(deleted) ensures uuid in Uuids(after) {
      var u :| u in before && u.uuid == uuid;
      assert Stays(before, after, u);
    }
    forall uuid | uuid in Uuids(added) ensures uuid in Uuids(after) {
      var u :| u in added && u.uuid == uuid;
      var j := AddedIsUnmatched(Keys(before), after, u);
    }
    forall j | 0 <= j < |after| && after[j] !in added ensures after[j].uuid in Uuids(before) - Uuids(deleted) {
      MatchedStays(before, after, deleted, added, j);
    }
  }

  // A matched new user that has the same old one: the old one stays, and is the
  // only one of its uuid.
  lemma MatchedStays(
      before: seq<UserInfo>, after: seq<UserInfo>, deleted: seq<UserInfo>, added: seq<UserInfo>, j: nat)
    requires DistinctUuids(before) && DistinctUuids(after)
    requires Compared(before, after, deleted, added) && Harmless(before, after)
    requires j < |after| && after[j] !in added
    ensures after[j].uuid in Uuids(before) && after[j].uuid !in Uuids(deleted)
    ensures exists u :: u in before && Same(u, after[j])
  {
    AddedIffUnmatched(Keys(before), after, j);
    var u :| u in before && Same(u, after[j]);
    SameKey(u, after[j]);
    assert Key(u) in Keys(after);
    DeletedKeys(before, after, deleted, added, u);
    forall d | d in deleted ensures d.uuid != u.uuid {
      DeletedKeys(before, after, deleted, added, d);
    }
  }

  lemma HarmlessSyncs(
      v: View, tag: string, before: seq<UserInfo>, after: seq<UserInfo>, deleted: seq<UserInfo>, added: seq<UserInfo>)
    requires DistinctUuids(before) && DistinctUuids(after) && Synced(v, tag, before)
    requires Compared(before, after, deleted, added) && Harmless(before, after)
    ensures Synced(Updated(v, tag, added, deleted), tag, after)
  {
    var r := Removed(v, tag, deleted);
    AddedStaysDistinct(Keys(before), after);
    StoreLimitsAt(r.limits, tag, added);
    StoreUidsKeys(r.uids, added);
    HarmlessUuids(before, after, deleted, added);
    TagsByUuids(tag, before, after, deleted, added);
    var limits := StoreLimits(r.limits, tag, added);
    forall j | 0 <= j < |after|
      ensures UserTag(tag, after[j].uuid) in limits
      ensures limits[UserTag(tag, after[j].uuid)].speedLimit == after[j].speedLimit
      ensures Permanent(limits[UserTag(tag, after[j].uuid)])
    {
      if after[j] !in added {
        MatchedStays(before, after, deleted, added, j);
        var u :| u in before && Same(u, after[j]);
        NotAddedTag(tag, Keys(before), after, j);
        TagIn(tag, deleted, u.uuid);
      }
    }
  }

  lemma {:induction false} NotAddedTag(tag: string, oldKeys: set<string>, after: seq<UserInfo>, j: nat)
    requires DistinctUuids(after) && j < |after| && after[j] !in Added(oldKeys, after)
    ensures UserTag(tag, after[j].uuid) !in Tags(tag, Added(oldKeys, after))
  {
    TagIn(tag, Added(oldKeys, after), after[j].uuid);
    forall u | u in Added(oldKeys, after) ensures u.uuid != after[j].uuid {
      var i := AddedIsUnmatched(oldKeys, after, u);
    }
  }

  lemma TagsByUuids(tag: string, before: seq<UserInfo>, after: seq<UserInfo>, deleted: seq<UserInfo>, added: seq<UserInfo>)
    requires Uuids(before) - Uuids(deleted) + Uuids(added) == Uuids(after)
    ensures Tags(tag, before) - Tags(tag, deleted) + Tags(tag, added) == Tags(tag, after)
  {
    TagsOfUuids(tag, before);
    TagsOfUuids(tag, after);
    TagsOfUuids(tag, deleted);
    TagsOfUuids(tag, added);
  }

  lemma SyncedIsHarmless(
      v: View, tag: string, before: seq<UserInfo>, after: seq<UserInfo>, deleted: seq<UserInfo>, added: seq<UserInfo>)
    requires DistinctUuids(before) && DistinctUuids(after) && Synced(v, tag, before)
    requires Compared(before, after, deleted, added) && Synced(Updated(v, tag, added, deleted), tag, after)
    ensures Harmless(before, after)
  {
    var r := Removed(v, tag, deleted);
    AddedStaysDistinct(Keys(before), after);
    StoreLimitsAt(r.limits, tag, added);
    forall u | Stays(before, after, u) ensures u.uuid in Uuids(after) {
      StayingTag(tag, before, after, deleted, added, u);
      TagIn(tag, after, u.uuid);
      assert UserTag(tag, u.uuid) in v.limits;
    }
    forall j | 0 <= j < |after| && Matched(Keys(before), after, j) ensures HasSame(before, after[j]) {
      AddedIffUnmatched(Keys(before), after, j);
      NotAddedTag(tag, Keys(before), after, j);
      var key := UserTag(tag, after[j].uuid);
      assert after[j] in after;
      assert key in v.limits && key in Tags(tag, before);
      TagIn(tag, before, after[j].uuid);
      var u :| u in before && u.uuid == after[j].uuid;
      assert Same(u, after[j]);
    }
  }

  lemma StayingTag(
      tag: string, before: seq<UserInfo>, after: seq<UserInfo>, deleted: seq<UserInfo>, added: seq<UserInfo>, u: UserInfo)
    requires DistinctUuids(before) && Compared(before, after, deleted, added) && Stays(before, after, u)
    ensures UserTag(tag, u.uuid) !in Tags(tag, deleted)
  {
    StayingUuid(before, after, deleted, added, u);
    TagIn(tag, deleted, u.uuid);
    hide *;
  }

  lemma StayingUuid(before: seq<UserInfo>, after: seq<UserInfo>, deleted: seq<UserInfo>, added: seq<UserInfo>, u: UserInfo)
    requires DistinctUuids(before) && Compared(before, after, deleted, added) && Stays(before, after, u)
    ensures u.uuid !in Uuids(deleted)
  {
    hide IsLastOf, Keys, LastByKey, Added, DistinctKeys, Key;
    assert u in before && u !in deleted;
    forall d | d in deleted ensures d in before {
      DeletedKeys(before, after, deleted, added, d);
    }
  }

  // After a completed round limiter and list agree if and only if the comparison
  // was harmless. That is less than being exact.
  lemma SyncedIffHarmless(
      v: View, tag: string, before: seq<UserInfo>, after: seq<UserInfo>, deleted: seq<UserInfo>, added: seq<UserInfo>)
    requires DistinctUuids(before) && DistinctUuids(after) && Synced(v, tag, before)
    requires Compared(before, after, deleted, added)
    ensures Synced(Updated(v, tag, added, deleted), tag, after) <==> Harmless(before, after)
  {
    hide Synced, Updated, Harmless, Compared, DistinctUuids;
    if Harmless(before, after) {
      HarmlessSyncs(v, tag, before, after, deleted, added);
    }
    if Synced(Updated(v, tag, added, deleted), tag, after) {
      SyncedIsHarmless(v, tag, before, after, deleted, added);
    }
  }

  // Completed or not, a round keeps the agreement.
  lemma RoundKeepsAgreement(
      tag: string, nodeLimit: int, s: State, s': State,
      users: Fetched<seq<UserInfo>>, alive: Fetched<map<int64, int>>, out: Outcome)
    requires Agreement(tag, nodeLimit, s) && Acceptable(s, users)
    requires Round(tag, s, s', users, alive, out)
    ensures Agreement(tag, nodeLimit, s')
  {
    AliveIsApart(s.view, nodeLimit, tag, s.users);
    hide Synced, CacheCoherent, Exact, Updated, Unambiguous, StoreTags, Tags;
    if users.Got? && !alive.Failed? {
      var v := if alive.Got? then s.view.(alive := alive.value) else s.view;
      var deleted, added :| Compared(s.users, users.value, deleted, added)
        && s' == Applied(tag, s.(view := v), users.value, out, deleted, added);
      UnambiguousIsExact(s.users, users.value, deleted, added);
      AddedStaysDistinct(Keys(s.users), users.value);
      hide Compared, DistinctUuids;
      if Completes(out, deleted, added) {
        UpdateKeepsSync(v, tag, s.users, users.value, deleted, added);
        UpdateKeepsCache(v, nodeLimit, tag, s.users, users.value, deleted, added);
      }
    }
  }

  lemma AliveIsApart(v: View, nodeLimit: int, tag: string, users: seq<UserInfo>)
    ensures forall alive :: Synced(v, tag, users) ==> Synced(v.(alive := alive), tag, users)
    ensures forall alive :: CacheCoherent(v, nodeLimit) ==> CacheCoherent(v.(alive := alive), nodeLimit)
  {
  }

  // ---------- The core's user table ----------

  lemma {:induction false} StoreTagsKeys(core: map<string, int64>, tag: string, users: seq<UserInfo>)
    ensures StoreTags(core, tag, users).Keys == core.Keys + Tags(tag, users)
  {
    if users != [] {
      var n := |users| - 1;
      StoreTagsKeys(core, tag, users[..n]);
      assert users == users[..n] + [users[n]];
      assert Tags(tag, users) == Tags(tag, users[..n]) + {UserTag(tag, users[n].uuid)};
    }
  }

  lemma {:induction false} StoredId(core: map<string, int64>, tag: string, users: seq<UserInfo>, j: nat)
    requires DistinctUuids(users) && j < |users|
    ensures UserTag(tag, users[j].uuid) in StoreTags(core, tag, users)
    ensures StoreTags(core, tag, users)[UserTag(tag, users[j].uuid)] == users[j].id
  {
    var n := |users| - 1;
    if j < n {
      StoredId(core, tag, users[..n], j);
      UserTagInjective(tag, users[j].uuid, users[n].uuid);
    }
  }

  lemma {:induction false} OtherTag(core: map<string, int64>, tag: string, users: seq<UserInfo>, key: string)
    requires key !in Tags(tag, users)
    ensures key in StoreTags(core, tag, users) <==> key in core
    ensures key in core ==> StoreTags(core, tag, users)[key] == core[key]
  {
    if users != [] {
      var n := |users| - 1;
      assert users[n] in users && forall u :: u in users[..n] ==> u in users;
      OtherTag(core, tag, users[..n], key);
    }
  }

  // Storing users maps exactly their tags to their IDs and leaves all others.
  lemma StoreTagsAt(core: map<string, int64>, tag: string, users: seq<UserInfo>)
    requires DistinctUuids(users)
    ensures var r := StoreTags(core, tag, users);
            && (forall u :: u in users ==> UserTag(tag, u.uuid) in r && r[UserTag(tag, u.uuid)] == u.id)
            && (forall k :: k !in Tags(tag, users) ==> (k in r <==> k in core) && (k in r ==> r[k] == core[k]))
  {
    hide StoreTags;
    forall j | 0 <= j < |users|
      ensures UserTag(tag, users[j].uuid) in StoreTags(core, tag, users)
      ensures StoreTags(core, tag, users)[UserTag(tag, users[j].uuid)] == users[j].id
    {
      StoredId(core, tag, users, j);
    }
    forall k | k !in Tags(tag, users)
      ensures k in StoreTags(core, tag, users) <==> k in core
      ensures k in core ==> StoreTags(core, tag, users)[k] == core[k]
    {
      OtherTag(core, tag, users, k);
    }
  }

  // A round without a list changes nothing, or no more than the devices that are
  // online elsewhere.
  lemma NoListNoChange(
      tag: string, s: State, s': State, users: Fetched<seq<UserInfo>>, alive: Fetched<map<int64, int>>, out: Outcome)
    requires Round(tag, s, s', users, alive, out) && !users.Got?
    ensures s' == s.(view := s.view.(alive := s'.view.alive))
    ensures s'.view.alive == if users.Absent? && alive.Got? then alive.value else s.view.alive
  {
  }

  // A round that fails keeps list and limiter, and never takes away a user that it
  // would have kept. If removing users fails, those before the failure are gone and
  // everybody else is still there; if adding fails, the table has the new users.
  lemma FailedRound(
      tag: string, s: State, users: seq<UserInfo>, out: Outcome, deleted: seq<UserInfo>, added: seq<UserInfo>, u: UserInfo)
    requires DistinctUuids(s.users) && DistinctUuids(users) && Exact(s.users, users, deleted, added)
    requires DistinctUuids(added) && !Completes(out, deleted, added)
    ensures var s', key := Applied(tag, s, users, out, deleted, added), UserTag(tag, u.uuid);
            && s'.users == s.users && s'.view == s.view
            && (u in s.users && HasSame(users, u) ==>
                  (key in s'.core <==> key in s.core) && (key in s.core ==> s'.core[key] == s.core[key]))
            && (out.removable < |deleted| ==>
                  && (u.uuid in Uuids(deleted[..out.removable]) ==> key !in s'.core)
                  && (u.uuid !in Uuids(deleted[..out.removable]) ==>
                        (key in s'.core <==> key in s.core) && (key in s.core ==> s'.core[key] == s.core[key])))
            && (out.removable >= |deleted| && u in added ==> key in s'.core && s'.core[key] == u.id)
  {
    StoreTagsAt(s.core - Tags(tag, deleted), tag, added);
    KeptTags(tag, s.users, users, deleted, added);
    if u in s.users && HasSame(users, u) {
      assert Same(u, u);
      KeptIsNotAdded(tag, s.users, users, deleted, added, u);
    }
    PrefixTags(tag, deleted, out.removable);
    if out.removable <= |deleted| {
      TagIn(tag, deleted[..out.removable], u.uuid);
    }
    hide Exact, DistinctUuids, HasSame, Tags, UserTag, StoreTags, Updated, Uuids;
  }

  // So after a completed round the core maps every added user to the ID in the new
  // list, and every kept one to the ID it had.
  lemma IdsAfterRound(
      tag: string, s: State, users: seq<UserInfo>, out: Outcome, deleted: seq<UserInfo>, added: seq<UserInfo>)
    requires DistinctUuids(s.users) && DistinctUuids(users) && Exact(s.users, users, deleted, added)
    requires DistinctUuids(added) && Completes(out, deleted, added)
    ensures var core := Applied(tag, s, users, out, deleted, added).core;
            && (forall u :: u in added ==> UserTag(tag, u.uuid) in core && core[UserTag(tag, u.uuid)] == u.id)
            && (forall u :: u in s.users && HasSame(users, u) && UserTag(tag, u.uuid) in s.core ==>
                  UserTag(tag, u.uuid) in core && core[UserTag(tag, u.uuid)] == s.core[UserTag(tag, u.uuid)])
  {
    StoreTagsAt(s.core - Tags(tag, deleted), tag, added);
    KeptTags(tag, s.users, users, deleted, added);
    forall u | u in s.users && HasSame(users, u) ensures UserTag(tag, u.uuid) !in Tags(tag, added) {
      assert Same(u, u);
      KeptIsNotAdded(tag, s.users, users, deleted, added, u);
    }
    hide Exact, DistinctUuids, HasSame, Tags, UserTag, StoreTags, Updated;
  }

  // Every old user that the new list keeps is in the core's table, and the table
  // holds nobody who is in neither list.
  ghost predicate CoreServes(tag: string, s: State, users: seq<UserInfo>) {
    && (forall u :: u in s.users && HasSame(users, u) ==> UserTag(tag, u.uuid) in s.core)
    && s.core.Keys <= Tags(tag, s.users) + Tags(tag, users)
  }

  // After a completed round the core serves exactly the new list if and only if it
  // served the kept users, and no strangers, before.
  lemma CoreAfterRound(
      tag: string, s: State, users: seq<UserInfo>, out: Outcome, deleted: seq<UserInfo>, added: seq<UserInfo>)
    requires DistinctUuids(s.users) && DistinctUuids(users) && Exact(s.users, users, deleted, added)
    requires Completes(out, deleted, added)
    ensures Applied(tag, s, users, out, deleted, added).core.Keys == Tags(tag, users) <==> CoreServes(tag, s, users)
  {
    StoreTagsKeys(s.core - Tags(tag, deleted), tag, added);
    DifferenceOfTags(tag, s.users, users, deleted, added);
    KeptTags(tag, s.users, users, deleted, added);
    KeptInCore(tag, s, users, deleted);
    hide Exact, DistinctUuids, StoreTags, Updated, Tags;
    assert Applied(tag, s, users, out, deleted, added).core.Keys
        == s.core.Keys - Tags(tag, deleted) + Tags(tag, added);
    SwapInCore(s.core.Keys, Tags(tag, s.users), Tags(tag, users), Tags(tag, deleted), Tags(tag, added));
  }

  lemma KeptTags(tag: string, before: seq<UserInfo>, after: seq<UserInfo>, deleted: seq<UserInfo>, added: seq<UserInfo>)
    requires DistinctUuids(before) && DistinctUuids(after) && Exact(before, after, deleted, added)
    ensures Tags(tag, deleted) <= Tags(tag, before)
    ensures forall u :: u in before ==> (HasSame(after, u) <==> UserTag(tag, u.uuid) !in Tags(tag, deleted))
  {
    forall u | u in before ensures HasSame(after, u) <==> UserTag(tag, u.uuid) !in Tags(tag, deleted) {
      TagIn(tag, deleted, u.uuid);
      if u !in deleted {
        KeptUser(before, after, deleted, added, u);
      } else {
        assert u.uuid in Uuids(deleted);
      }
    }
  }

  lemma KeptInCore(tag: string, s: State, users: seq<UserInfo>, deleted: seq<UserInfo>)
    requires Tags(tag, deleted) <= Tags(tag, s.users)
    requires forall u :: u in s.users ==> (HasSame(users, u) <==> UserTag(tag, u.uuid) !in Tags(tag, deleted))
    ensures (forall u :: u in s.users && HasSame(users, u) ==> UserTag(tag, u.uuid) in s.core) <==>
      Tags(tag, s.users) - Tags(tag, deleted) <= s.core.Keys
  {
  }

  lemma SwapInCore(core: set<string>, before: set<string>, after: set<string>, gone: set<string>, more: set<string>)
    requires before - gone + more == after && (before - gone) !! more && gone <= before
    ensures core - gone + more == after <==> before - gone <= core <= before + after
  {
  }

  // A failed round can be repaired by a completed one with the same list.
  lemma RetryRepairs(
      tag: string, s: State, users: seq<UserInfo>, out: Outcome, out': Outcome,
      deleted: seq<UserInfo>, added: seq<UserInfo>, deleted': seq<UserInfo>)
    requires DistinctUuids(s.users) && DistinctUuids(users) && s.core.Keys == Tags(tag, s.users)
    requires Exact(s.users, users, deleted, added) && Exact(s.users, users, deleted', added)
    requires !Completes(out, deleted, added) && Completes(out', deleted', added)
    ensures var failed := Applied(tag, s, users, out, deleted, added);
            && failed.users == s.users
            && Applied(tag, failed, users, out', deleted', added).core.Keys == Tags(tag, users)
  {
    var failed := Applied(tag, s, users, out, deleted, added);
    StoreTagsKeys(s.core - Tags(tag, deleted), tag, added);
    DifferenceOfTags(tag, s.users, users, deleted, added);
    KeptTags(tag, s.users, users, deleted, added);
    KeptInCore(tag, s, users, deleted);
    KeptInCore(tag, failed, users, deleted);
    PrefixTags(tag, deleted, out.removable);
    CoreAfterRound(tag, failed, users, out', deleted', added);
    hide Exact, DistinctUuids, StoreTags, Updated, Tags, HasSame;
    assert Tags(tag, s.users) - Tags(tag, deleted) <= failed.core.Keys <= Tags(tag, s.users) + Tags(tag, users);
  }

  lemma PrefixTags(tag: string, users: seq<UserInfo>, n: nat)
    ensures n <= |users| ==> Tags(tag, users[..n]) <= Tags(tag, users)
  {
  }

  // A failed round with one list followed by a round with the former list again:
  // users that were removed before the failure stay out of the core although they
  // are in the controller's list and in the limiter.
  lemma ReinstatedUsersAreMissing(
      tag: string, nodeLimit: int, s: State, users: seq<UserInfo>, out: Outcome, deleted: seq<UserInfo>, added: seq<UserInfo>,
      s'': State, alive: Fetched<map<int64, int>>, out': Outcome, d: UserInfo)
    requires Agreement(tag, nodeLimit, s) && DistinctUuids(users) && Unambiguous(s.users, users)
    requires Compared(s.users, users, deleted, added)
    requires |deleted| <= out.removable && added != [] && !out.addOk
    requires Round(tag, Applied(tag, s, users, out, deleted, added), s'', Got(s.users), alive, out') && !alive.Failed?
    requires d in deleted && d.uuid !in Uuids(added)
    ensures s''.users == s.users && d in s''.users
    ensures UserTag(tag, d.uuid) in s''.view.limits && UserTag(tag, d.uuid) !in s''.core
  {
    var failed := Applied(tag, s, users, out, deleted, added);
    UnambiguousIsExact(s.users, users, deleted, added);
    StoreTagsKeys(s.core - Tags(tag, deleted), tag, added);
    TagIn(tag, added, d.uuid);
    var heard := if alive.Got? then failed.(view := failed.view.(alive := alive.value)) else failed;
    var deleted', added' :| Compared(s.users, s.users, deleted', added')
      && s'' == Applied(tag, heard, s.users, out', deleted', added');
    SameListTwice(s.users, deleted', added');
    NothingRemoved(heard.core, tag);
    NothingUpdated(heard.view, tag);
  }

  lemma SeveralDiffer(users: seq<UserInfo>)
    ensures |users| > 1 && DistinctKeys(users) ==> exists u, v :: u in users && v in users && u != v
  {
    if |users| > 1 && DistinctKeys(users) {
      assert users[0] in users && users[1] in users && users[0] != users[1];
    }
  }

  // For example when the only user is replaced, the replacement cannot be added,
  // and the panel goes back to the former list.
  lemma LostUser(
      tag: string, s: State, deleted: seq<UserInfo>, added: seq<UserInfo>, s'': State, out: Outcome)
    requires Agreement(tag, 0, s) && s.users == [UserInfo(1, "a", 10, 0)]
    requires Compared(s.users, [UserInfo(2, "b", 10, 0)], deleted, added)
    requires Round(tag, Applied(tag, s, [UserInfo(2, "b", 10, 0)], Outcome(1, false), deleted, added), s'',
                   Got(s.users), Absent, out)
    ensures s''.users == s.users && UserTag(tag, "a") in s''.view.limits && UserTag(tag, "a") !in s''.core
  {
    var a, b := UserInfo(1, "a", 10, 0), UserInfo(2, "b", 10, 0);
    EqualLengthsAreUnambiguous(s.users, [b], 1);
    UnambiguousIsExact(s.users, [b], deleted, added);
    assert a in s.users && b in [b] && !HasSame([b], a) && !HasSame(s.users, b);
    SeveralDiffer(deleted);
    assert b in added && forall u :: u in added ==> u == b;
    ReinstatedUsersAreMissing(tag, 0, s, [b], Outcome(1, false), deleted, added, s'', Absent, out, a);
    assert s''.users[0] == a;
  }

  lemma SameListTwice(users: seq<UserInfo>, deleted: seq<UserInfo>, added: seq<UserInfo>)
    requires DistinctUuids(users) && DistinctKeys(users) && Compared(users, users, deleted, added)
    ensures deleted == [] && added == []
  {
    forall j | 0 <= j < |users| ensures StandsFor(users, users[j]) {
      hide Key;
      forall u | u in users && Key(u) == Key(users[j]) ensures Same(u, users[j]) {
        assert u == users[j];
      }
    }
    UnambiguousIsExact(users, users, deleted, added);
    hide Key, Compared;
    forall u | u in users ensures HasSame(users, u) {
      assert Same(u, u);
    }
    NoMembers(deleted);
    NoMembers(added);
  }

  // ---------- Buckets and rounds that do not fit ----------

  // A check looks up the limit of a user in one state and stores its bucket in
  // another one, each in agreement with its list.
  lemma StoreFromAnotherState(tag: string, s: State, s': State, u: UserInfo)
    requires Agreement(tag, 0, s) && Agreement(tag, 0, s') && u in s.users
    ensures var key := UserTag(tag, u.uuid);
            var rate := ByteRate(CurrentLimit(0, s.view.limits[key]));
            CacheCoherent(s'.view.(buckets := Bucketed(s'.view.buckets, key, rate).1), 0) <==>
              u.speedLimit <= 0 || key in s'.view.buckets || HasSame(s'.users, u)
  {
    var key := UserTag(tag, u.uuid);
    PermanentRate(s.view.limits[key]);
    TagIn(tag, s'.users, u.uuid);
    hide Tags, CurrentLimit, ByteRate;
    if key in s'.view.limits {
      var n :| n in s'.users && n.uuid == u.uuid;
      assert s'.view.limits[key].speedLimit == n.speedLimit;
      PermanentRate(s'.view.limits[key]);
      RateOfSame(s'.users, u, n);
    } else {
      AbsentIsNotSame(s'.users, u);
    }
    StoredBucket(s'.view, key, ByteRate(CurrentLimit(0, s.view.limits[key])));
  }

  // A round whose lists cannot be told apart by key loses the agreement.
  lemma UnnoticedReplacementBreaksSync(tag: string, nodeLimit: int, s: State, s': State, out: Outcome)
    requires Agreement(tag, nodeLimit, s) && s.users == [UserInfo(1, "a1", 2, 0)]
    requires Round(tag, s, s', Got([UserInfo(2, "a", 12, 0)]), Absent, out)
    ensures !Synced(s'.view, tag, s'.users)
  {
    var users := [UserInfo(2, "a", 12, 0)];
    var deleted, added :| Compared(s.users, users, deleted, added) && s' == Applied(tag, s, users, out, deleted, added);
    ReplacementUnnoticed(deleted, added);
    NothingUpdated(s.view, tag);
    assert users[0] in users && users[0].uuid in Uuids(users);
    assert "a" !in Uuids(s.users);
  }

  lemma RateOfSame(users: seq<UserInfo>, u: UserInfo, n: UserInfo)
    requires DistinctUuids(users) && n in users && n.uuid == u.uuid
    ensures HasSame(users, u) <==> n.speedLimit == u.speedLimit
  {
  }

  lemma AbsentIsNotSame(users: seq<UserInfo>, u: UserInfo)
    requires u.uuid !in Uuids(users)
    ensures !HasSame(users, u)
  {
  }

  lemma StoredBucket(v: View, key: string, rate: int)
    requires CacheCoherent(v, 0)
    ensures CacheCoherent(v.(buckets := Bucketed(v.buckets, key, rate).1), 0) <==>
      rate <= 0 || key in v.buckets || (key in v.limits && ByteRate(CurrentLimit(0, v.limits[key])) == rate)
  {
  }

  // ---------- Every run ----------

  datatype Step =
    | Monitor(users: Fetched<seq<UserInfo>>, alive: Fetched<map<int64, int>>, out: Outcome)
    | Check(key: string, ip: string, tracked: bool, now: int, verdict: Verdict)
    | ReportDevices

  ghost predicate Checking(s: State, s': State, key: string, ip: string, tracked: bool, now: int, verdict: Verdict) {
    && s'.users == s.users && s'.core == s.core
    && if key !in s.view.limits then verdict == Rejected && s'.view == s.view
       else
         Checked(Cleared(s.view, key, now), s'.view, key, s.view.limits[key],
                 ByteRate(DetermineSpeedLimit(0, OwnLimit(s.view.limits[key], now))), ip, tracked, verdict)
  }

  // The lists of one panel have UUIDs of one length.
  ghost predicate Takes(tag: string, n: nat, s: State, step: Step, s': State) {
    match step
    case Monitor(users, alive, out) =>
      && (users.Got? ==> DistinctUuids(users.value) && UuidLength(users.value, n))
      && Round(tag, s, s', users, alive, out)
    case Check(key, ip, tracked, now, verdict) => Checking(s, s', key, ip, tracked, now, verdict)
    case ReportDevices =>
      s' == s.(view := s.view.(online := s'.view.online, oldOnline := s'.view.oldOnline))
  }

  ghost predicate Init(tag: string, n: nat, s: State) {
    && DistinctUuids(s.users) && UuidLength(s.users, n)
    && s.view == Updated(View(map[], map[], map[], map[], map[], s.view.alive), tag, s.users, [])
  }

  ghost predicate Next(tag: string, n: nat, s: State, s': State) { exists step :: Takes(tag, n, s, step, s') }

  ghost predicate Run(tag: string, n: nat, states: seq<State>) {
    Execution(s => Init(tag, n, s), (s, s') => Next(tag, n, s, s'), states)
  }

  ghost predicate Inv(tag: string, n: nat, s: State) { Agreement(tag, 0, s) && UuidLength(s.users, n) }

  lemma RoundUsers(
      tag: string, s: State, s': State, users: Fetched<seq<UserInfo>>, alive: Fetched<map<int64, int>>, out: Outcome)
    requires Round(tag, s, s', users, alive, out)
    ensures s'.users == s.users || (users.Got? && s'.users == users.value)
  {
    hide Compared, Updated, StoreTags, Tags;
  }

  lemma StepKeepsInv(tag: string, n: nat, s: State, step: Step, s': State)
    requires Inv(tag, n, s) && Takes(tag, n, s, step, s')
    ensures Inv(tag, n, s')
  {
    hide Round, Checked, Unambiguous, Cleared;
    match step
    case Monitor(users, alive, out) =>
      hide Synced, CacheCoherent;
      if users.Got? {
        EqualLengthsAreUnambiguous(s.users, users.value, n);
      }
      RoundKeepsAgreement(tag, 0, s, s', users, alive, out);
      RoundUsers(tag, s, s', users, alive, out);
    case Check(key, ip, tracked, now, verdict) =>
      hide Synced, CacheCoherent;
      if key in s.view.limits {
        CheckKeepsCoherence(s.view, s'.view, 0, key, now, ip, tracked, verdict, tag, s.users);
      }
    case ReportDevices =>
  }

  lemma AlwaysInvariant(tag: string, n: nat, states: seq<State>, i: nat)
    requires Run(tag, n, states) && i < |states|
    ensures Inv(tag, n, states[i])
  {
    forall s | Init(tag, n, s) ensures Inv(tag, n, s) {
      UpdateOfEmpty(tag, s.users, s.view.alive);
    }
    forall s, s' | Inv(tag, n, s) && Next(tag, n, s, s') ensures Inv(tag, n, s') {
      var step :| Takes(tag, n, s, step, s');
      StepKeepsInv(tag, n, s, step, s');
    }
    Invariance(s => Init(tag, n, s), (s, s') => Next(tag, n, s, s'), s => Inv(tag, n, s), states);
  }

  // In every run of rounds, checks and reports the limiter agrees with the
  // controller's list, whatever fails.
  lemma AlwaysInAgreement(tag: string, n: nat, states: seq<State>, i: nat)
    requires Run(tag, n, states) && i < |states|
    ensures Agreement(tag, 0, states[i])
  {
    AlwaysInvariant(tag, n, states, i);
  }

  predicate Fits(bucket: Option<int>, u: UserInfo) {
    bucket == if u.speedLimit > 0 then Some(125000 * u.speedLimit) else None
  }

  // So a check never answers a bucket of a stale rate: it admits only users of the
  // list, at 125000 bytes per second for each unit of their present limit.
  lemma NeverAStaleRate(
      tag: string, n: nat, states: seq<State>, i: nat, s': State,
      key: string, ip: string, tracked: bool, now: int, verdict: Verdict)
    requires Run(tag, n, states) && i < |states|
    requires Checking(states[i], s', key, ip, tracked, now, verdict) && verdict.Admitted?
    ensures exists u :: u in states[i].users && key == UserTag(tag, u.uuid) && Fits(verdict.bucket, u)
  {
    var s := states[i];
    AlwaysInAgreement(tag, n, states, i);
    var u :| u in s.users && key == UserTag(tag, u.uuid);
    CheckKeepsCoherence(s.view, s'.view, 0, key, now, ip, tracked, verdict, tag, s.users);
    PermanentRate(s.view.limits[key]);
  }

  // ---------- A check that rounds overtake ----------

  // A check looks up the limit of a user, any number of rounds, checks and reports
  // come in between, and only then does it store its bucket. The cache stays
  // coherent if and only if there is no limit, a bucket was cached in between, or
  // the list still has the user with that limit.
  lemma LateStore(tag: string, n: nat, states: seq<State>, i: nat, j: nat, u: UserInfo)
    requires Run(tag, n, states) && i <= j < |states| && u in states[i].users
    ensures var key := UserTag(tag, u.uuid);
            && key in states[i].view.limits
            && var rate := ByteRate(CurrentLimit(0, states[i].view.limits[key]));
            var later := states[j].view;
            CacheCoherent(later.(buckets := Bucketed(later.buckets, key, rate).1), 0) <==>
              u.speedLimit <= 0 || key in later.buckets || HasSame(states[j].users, u)
  {
    AlwaysInAgreement(tag, n, states, i);
    AlwaysInAgreement(tag, n, states, j);
    StoreFromAnotherState(tag, states[i], states[j], u);
  }

  // For example when the limit of the user goes from 10 to 20 in a round right
  // before the store.
  lemma OvertakenCheck(tag: string, s: State, out: Outcome, deleted: seq<UserInfo>, added: seq<UserInfo>)
    requires Agreement(tag, 0, s) && s.users == [UserInfo(1, "a", 10, 0)]
    requires Compared(s.users, [UserInfo(1, "a", 20, 0)], deleted, added) && Completes(out, deleted, added)
    ensures var view := Applied(tag, s, [UserInfo(1, "a", 20, 0)], out, deleted, added).view;
            var key := UserTag(tag, "a");
            !CacheCoherent(view.(buckets := Bucketed(view.buckets, key, ByteRate(CurrentLimit(0, s.view.limits[key]))).1), 0)
  {
    var u, v := UserInfo(1, "a", 10, 0), UserInfo(1, "a", 20, 0);
    var s' := Applied(tag, s, [v], out, deleted, added);
    assert u in s.users;
    EqualLengthsAreUnambiguous(s.users, [v], 1);
    assert Round(tag, s, s', Got([v]), Absent, out);
    RoundKeepsAgreement(tag, 0, s, s', Got([v]), Absent, out);
    StoreFromAnotherState(tag, s, s', u);
    assert !HasSame([v], u);
    NoBucketOfChanged(tag, s, [v], out, deleted, added, u);
  }

  // A round leaves no bucket of a user whom it changes.
  lemma NoBucketOfChanged(
      tag: string, s: State, users: seq<UserInfo>, out: Outcome, deleted: seq<UserInfo>, added: seq<UserInfo>, u: UserInfo)
    requires DistinctUuids(s.users) && DistinctUuids(users) && Unambiguous(s.users, users)
    requires Compared(s.users, users, deleted, added) && Completes(out, deleted, added)
    requires u in s.users && !HasSame(users, u)
    ensures UserTag(tag, u.uuid) !in Applied(tag, s, users, out, deleted, added).view.buckets
  {
    UnambiguousIsExact(s.users, users, deleted, added);
    assert u in deleted && u.uuid in Uuids(deleted);
    TagIn(tag, deleted, u.uuid);
  }

  // ---------- A user whom the core has lost ----------

  // The list has the user with that limit, and the core's table does not.
  ghost predicate Missing(tag: string, s: State, u: UserInfo) {
    HasSame(s.users, u) && UserTag(tag, u.uuid) !in s.core
  }

  predicate Keeps(step: Step, u: UserInfo) {
    step.Monitor? && step.users.Got? ==> HasSame(step.users.value, u)
  }

  // A list that keeps the user does not bring the user back, whatever the outcome.
  lemma StaysMissing(tag: string, n: nat, s: State, step: Step, s': State, u: UserInfo)
    requires Inv(tag, n, s) && Takes(tag, n, s, step, s')
    requires Missing(tag, s, u) && Keeps(step, u)
    ensures Missing(tag, s', u)
  {
    hide Missing, Synced, CacheCoherent, Applied, Exact, Unambiguous, Compared, Checked, HasSame;
    if step.Monitor? && step.users.Got? && !step.alive.Failed? {
      var users := step.users.value;
      var v := if step.alive.Got? then s.view.(alive := step.alive.value) else s.view;
      var deleted, added :| Compared(s.users, users, deleted, added)
        && s' == Applied(tag, s.(view := v), users, step.out, deleted, added);
      EqualLengthsAreUnambiguous(s.users, users, n);
      UnambiguousIsExact(s.users, users, deleted, added);
      SameMissing(tag, s, s.(view := v), u);
      NotAddedBack(tag, s.(view := v), users, step.out, deleted, added, u);
    } else {
      SameMissing(tag, s, s', u);
    }
  }

  lemma SameMissing(tag: string, s: State, s': State, u: UserInfo)
    requires Missing(tag, s, u) && s'.users == s.users && s'.core == s.core
    ensures Missing(tag, s', u)
  {
  }

  lemma NotAddedBack(
      tag: string, s: State, users: seq<UserInfo>, out: Outcome, deleted: seq<UserInfo>, added: seq<UserInfo>, u: UserInfo)
    requires DistinctUuids(s.users) && DistinctUuids(users) && Exact(s.users, users, deleted, added)
    requires Missing(tag, s, u) && HasSame(users, u)
    ensures Missing(tag, Applied(tag, s, users, out, deleted, added), u)
  {
    KeptIsNotAdded(tag, s.users, users, deleted, added, u);
    StoreTagsKeys(s.core - Tags(tag, deleted), tag, added);
    hide Exact, DistinctUuids, HasSame, Tags, UserTag, StoreTags, Updated;
  }

  lemma KeptIsNotAdded(
      tag: string, before: seq<UserInfo>, after: seq<UserInfo>, deleted: seq<UserInfo>, added: seq<UserInfo>, u: UserInfo)
    requires DistinctUuids(before) && DistinctUuids(after) && Exact(before, after, deleted, added)
    requires HasSame(before, u) && HasSame(after, u)
    ensures UserTag(tag, u.uuid) !in Tags(tag, added)
  {
    var o :| o in before && Same(u, o);
    var v :| v in after && Same(u, v);
    assert Same(o, v) && Same(v, o);
    KeptUser(before, after, deleted, added, o);
    TagIn(tag, added, u.uuid);
    hide *;
  }

  ghost predicate KeepsAt(tag: string, n: nat, states: seq<State>, k: nat, u: UserInfo)
    requires k + 1 < |states|
  {
    exists step :: Takes(tag, n, states[k], step, states[k + 1]) && Keeps(step, u)
  }

  // So a listed user who is missing from the core stays missing for as long as
  // the lists keep the user.
  lemma {:induction false} MissingForGood(tag: string, n: nat, states: seq<State>, i: nat, j: nat, u: UserInfo)
    requires Run(tag, n, states) && i <= j < |states|
    requires Missing(tag, states[i], u) && forall k :: i <= k < j ==> KeepsAt(tag, n, states, k, u)
    ensures Missing(tag, states[j], u)
    decreases j
  {
    if i < j {
      MissingForGood(tag, n, states, i, j - 1, u);
      assert KeepsAt(tag, n, states, j - 1, u);
      var step :| Takes(tag, n, states[j - 1], step, states[j]) && Keeps(step, u);
      AlwaysInvariant(tag, n, states, j - 1);
      StaysMissing(tag, n, states[j - 1], step, states[j], u);
    }
  }
}
