// The queue of traffic reports that waits for acknowledgement by the panel.
module TrafficQueue {
  import opened Bytes

  datatype NodeClient = NodeClient(apiHost: string, secretKey: string, nodeType: string, nodeId: int64, useProtobuf: bool)

  datatype TrafficDestination = TrafficDestination(host: string, secret: string, protocol: string, id: int64)

  datatype UserTraffic = UserTraffic(uid: int64, upload: int, download: int)

  function KeyOf(client: NodeClient): TrafficDestination {
    TrafficDestination(client.apiHost, client.secretKey, client.nodeType, client.nodeId)
  }

  // Clients share a batch exactly when they agree in host, secret, protocol and node
  // ID; the encoding does not matter.
  lemma SameKeyIff(a: NodeClient, b: NodeClient)
    ensures KeyOf(a) == KeyOf(b) <==>
      a.apiHost == b.apiHost && a.secretKey == b.secretKey && a.nodeType == b.nodeType && a.nodeId == b.nodeId
  {
  }

  // ---------- Specification ----------

  type Users = map<int64, UserTraffic>
  type Pending = map<TrafficDestination, Users>

  function Entry(users: Users, uid: int64): UserTraffic {
    if uid in users then users[uid] else UserTraffic(uid, 0, 0)
  }

  function Merge(users: Users, traffic: seq<UserTraffic>): Users {
    if traffic == [] then users
    else
      var before := Merge(users, traffic[..|traffic| - 1]);
      var delta := traffic[|traffic| - 1];
      var value := Entry(before, delta.uid);
      before[delta.uid := UserTraffic(delta.uid, value.upload + delta.upload, value.download + delta.download)]
  }

  function UsersOf(p: Pending, key: TrafficDestination): Users {
    if key in p then p[key] else map[]
  }

  function Added(p: Pending, key: TrafficDestination, traffic: seq<UserTraffic>): Pending {
    if traffic == [] then p else p[key := Merge(UsersOf(p, key), traffic)]
  }

  // The amount of one direction in an entry.
  function Amount(t: UserTraffic, up: bool): int { if up then t.upload else t.download }

  function Sum(traffic: seq<UserTraffic>, uid: int64, up: bool): int {
    if traffic == [] then 0
    else
      var last := traffic[|traffic| - 1];
      Sum(traffic[..|traffic| - 1], uid, up) + if last.uid == uid then Amount(last, up) else 0
  }

  // Every user is filed under their own UID.
  predicate FiledByUID(users: Users) {
    forall uid :: uid in users ==> users[uid].uid == uid
  }

  // Merging adds, for every user and both directions, exactly the sum of the
  // user's deltas, and keeps users filed under their own UID.
  lemma {:induction false} MergeAdds(users: Users, traffic: seq<UserTraffic>, uid: int64, up: bool)
    ensures Amount(Entry(Merge(users, traffic), uid), up) == Amount(Entry(users, uid), up) + Sum(traffic, uid, up)
    ensures FiledByUID(users) ==> FiledByUID(Merge(users, traffic))
    ensures Merge(users, traffic).Keys == users.Keys + set t | t in traffic :: t.uid
  {
    if traffic != [] {
      MergeAdds(users, traffic[..|traffic| - 1], uid, up);
      assert traffic == traffic[..|traffic| - 1] + [traffic[|traffic| - 1]];
    }
  }

  // A report lists each user of a batch exactly once, with the batch's amounts.
  ghost predicate Lists(traffic: seq<UserTraffic>, users: Users) {
    && (forall i :: 0 <= i < |traffic| ==> traffic[i].uid in users && users[traffic[i].uid] == traffic[i])
    && (forall uid :: uid in users ==> users[uid] in traffic)
    && (forall i, j :: 0 <= i < j < |traffic| ==> traffic[i].uid != traffic[j].uid)
  }

  // So a report carries, for every user, exactly the amounts of the batch.
  lemma {:induction false} ListsSum(traffic: seq<UserTraffic>, users: Users, uid: int64, up: bool)
    requires Lists(traffic, users) && FiledByUID(users)
    ensures Sum(traffic, uid, up) == Amount(Entry(users, uid), up)
  {
    if traffic != [] {
      var n := |traffic| - 1;
      var rest, last := traffic[..n], traffic[n];
      assert Lists(rest, users - {last.uid}) by {
        forall u | u in users - {last.uid} ensures users[u] in rest {
          var i :| 0 <= i <= n && traffic[i] == users[u];
          assert i != n && rest[i] == traffic[i];
        }
      }
      ListsSum(rest, users - {last.uid}, uid, up);
    }
  }

  // ---------- The panel, as seen by a report ----------

  datatype Request = Request(key: TrafficDestination, traffic: seq<UserTraffic>)

  // A request may be refused, accepted, or accepted with its reply lost; arrived
  // says whether the panel got it.
  method ReportUserTraffic(client: NodeClient, traffic: seq<UserTraffic>) returns (acked: bool, ghost arrived: bool)
    ensures acked ==> arrived
  {
    acked := *;
    arrived := *;
    if acked {
      arrived := true;
    }
  }

  // ---------- Implementation ----------

  class TrafficBatch {
    var client: NodeClient
    var users: map<int64, UserTraffic>

    constructor (client: NodeClient)
      ensures this.client == client && users == map[]
    {
      this.client := client;
      users := map[];
    }

    // The latest client wins; the deltas are added up.
    method Accumulate(client: NodeClient, traffic: seq<UserTraffic>)
      modifies this
      ensures this.client == client
      ensures users == Merge(old(users), traffic)
      ensures FiledByUID(old(users)) ==> FiledByUID(users)
    {
      this.client := client;
      for i := 0 to |traffic|
        invariant this.client == client
        invariant users == Merge(old(users), traffic[..i])
        invariant FiledByUID(old(users)) ==> FiledByUID(users)
      {
        assert traffic[..i + 1][..i] == traffic[..i];
        var delta := traffic[i];
        var value := if delta.uid in users then users[delta.uid] else UserTraffic(0, 0, 0);
        value := value.(uid := delta.uid);
        value := value.(upload := value.upload + delta.upload);
        value := value.(download := value.download + delta.download);
        users := users[delta.uid := value];
      }
      assert traffic[..|traffic|] == traffic;
    }

    // The users in some order.
    method List() returns (traffic: seq<UserTraffic>)
      requires FiledByUID(users)
      ensures Lists(traffic, users)
    {
      traffic := [];
      var left := users.Keys;
      while left != {}
        invariant left <= users.Keys
        invariant forall t :: t in traffic ==> t.uid in users && t.uid !in left && users[t.uid] == t
        invariant forall uid :: uid in users && uid !in left ==> users[uid] in traffic
        invariant forall i, j :: 0 <= i < j < |traffic| ==> traffic[i].uid != traffic[j].uid
      {
        var uid :| uid in left;
        ghost var before := traffic;
        traffic := traffic + [users[uid]];
        left := left - {uid};
        assert forall t :: t in traffic <==> t in before || t == users[uid];
      }
    }
  }

  // What one report has sent: whole batches of the old queue, each at most once.
  ghost predicate Delivery(old_: Pending, sent: seq<Request>) {
    && (forall i :: 0 <= i < |sent| ==> sent[i].key in old_ && Lists(sent[i].traffic, old_[sent[i].key]))
    && (forall i, j :: 0 <= i < j < |sent| ==> sent[i].key != sent[j].key)
  }

  ghost predicate WasSent(key: TrafficDestination, sent: seq<Request>) {
    exists i :: 0 <= i < |sent| && sent[i].key == key
  }

  // What a round does to the queue: exactly the acknowledged batches are gone, and
  // those have been sent; all others are still there unchanged.
  ghost predicate Reported(old_: Pending, view: Pending, sent: seq<Request>, acked: set<TrafficDestination>) {
    && view == old_ - acked
    && (forall k :: k in acked ==> k in old_ && WasSent(k, sent))
    && Delivery(old_, sent)
  }

  // In the middle of a round: keys are still to be visited.
  ghost predicate RoundSoFar(
      old_: Pending, view: Pending, keys: set<TrafficDestination>, sent: seq<Request>, acked: set<TrafficDestination>)
  {
    && Reported(old_, view, sent, acked)
    && keys <= view.Keys
    && (forall i :: 0 <= i < |sent| ==> sent[i].key !in keys)
  }

  lemma RoundStarts(view: Pending)
    ensures RoundSoFar(view, view, view.Keys, [], {})
  {
    assert view - {} == view;
  }

  lemma RoundOver(
      old_: Pending, view: Pending, keys: set<TrafficDestination>, sent: seq<Request>, acked: set<TrafficDestination>)
    requires RoundSoFar(old_, view, keys, sent, acked)
    ensures Reported(old_, view, sent, acked)
  {
  }

  lemma RoundContinues(
      old_: Pending, view: Pending, keys: set<TrafficDestination>, sent: seq<Request>, acked: set<TrafficDestination>,
      key: TrafficDestination, more: seq<Request>, ok: bool)
    requires key !in keys && RoundSoFar(old_, view, keys + {key}, sent, acked) && key in view
    requires |more| <= 1 && (more != [] ==> more[0].key == key && Lists(more[0].traffic, view[key]))
    requires ok ==> WasSent(key, more)
    ensures RoundSoFar(old_, if ok then view - {key} else view, keys, sent + more, if ok then acked + {key} else acked)
    ensures keys <= (if ok then view - {key} else view).Keys
  {
    hide Lists;
    assert old_ - acked - {key} == old_ - (acked + {key});
    forall k | WasSent(k, sent) || WasSent(k, more) ensures WasSent(k, sent + more) {
      if WasSent(k, sent) {
        var i :| 0 <= i < |sent| && sent[i].key == k;
        assert (sent + more)[i].key == k;
      } else {
        var i :| 0 <= i < |more| && more[i].key == k;
        assert (sent + more)[|sent| + i].key == k;
      }
    }
  }

  class TrafficQueue {
    var pending: map<TrafficDestination, TrafficBatch>
    ghost var view: Pending
    ghost var repr: set<TrafficBatch>

    // Each destination has its own batch, filed under the key of its client and
    // with its users filed under their UIDs.
    ghost predicate Valid()
      reads this, repr
    {
      && view.Keys == pending.Keys
      && (forall k :: k in pending ==>
            && pending[k] in repr
            && KeyOf(pending[k].client) == k
            && pending[k].users == view[k]
            && FiledByUID(view[k]))
    }

    constructor ()
      ensures Valid() && view == map[] && fresh(repr)
    {
      pending := map[];
      view := map[];
      repr := {};
    }

    method Add(client: NodeClient, traffic: seq<UserTraffic>)
      requires Valid()
      modifies this, repr
      ensures Valid() && fresh(repr - old(repr))
      ensures view == Added(old(view), KeyOf(client), traffic)
    {
      if traffic == [] {
        return;
      }
      if KeyOf(client) !in pending {
        NewBatch(client);
      }
      Extend(client, traffic);
    }

    method Extend(client: NodeClient, traffic: seq<UserTraffic>)
      requires Valid() && KeyOf(client) in pending
      modifies this`view, pending[KeyOf(client)]
      ensures Valid()
      ensures view == old(view)[KeyOf(client) := Merge(old(view)[KeyOf(client)], traffic)]
    {
      hide FiledByUID, Merge;
      var batch := pending[KeyOf(client)];
      batch.Accumulate(client, traffic);
      view := view[KeyOf(client) := batch.users];
    }

    method NewBatch(client: NodeClient)
      requires Valid() && KeyOf(client) !in pending
      modifies this
      ensures Valid() && fresh(repr - old(repr))
      ensures view == old(view)[KeyOf(client) := map[]]
    {
      var batch := new TrafficBatch(client);
      pending := pending[KeyOf(client) := batch];
      view := view[KeyOf(client) := map[]];
      repr := repr + {batch};
    }

    // One round over the queue, in any order, until the context is cancelled.
    // A batch leaves the queue whole, exactly on an acknowledgement; any other
    // batch stays as it was, also when the panel got it and the reply was lost.
    method Report() returns (ok: bool, ghost received: seq<Request>, ghost acked: set<TrafficDestination>)
      requires Valid()
      modifies this`pending, this`view
      ensures Valid()
      ensures Reported(old(view), view, received, acked)
      ensures ok ==> view == map[]
      ensures ok <==> acked == old(view).Keys
    {
      hide *;
      ok, received, acked := true, [], {};
      var keys := Keys();
      RoundStarts(view);
      while keys != {}
        invariant Valid()
        invariant ok ==> view.Keys == keys && acked == old(view).Keys - keys
        invariant !ok ==> !(old(view).Keys <= acked + keys)
        invariant keys !! acked
        invariant keys <= view.Keys && RoundSoFar(old(view), view, keys, received, acked)
      {
        var cancelled: bool := *;
        if cancelled {
          RoundOver(old(view), view, keys, received, acked);
          return false, received, acked;
        }
        ghost var left := keys;
        var key :| key in keys;
        keys := keys - {key};
        ghost var before := view;
        var answered;
        ghost var more;
        answered, more := Push(key);
        if !answered {
          ok := false;
        }
        assert keys + {key} == left;
        RoundContinues(old(view), before, keys, received, acked, key, more, answered);
        received := received + more;
        acked := if answered then acked + {key} else acked;
      }
      RoundOver(old(view), view, keys, received, acked);
    }

    method Keys() returns (keys: set<TrafficDestination>)
      requires Valid()
      ensures keys == view.Keys
    {
      keys := pending.Keys;
    }

    // One batch of the round.
    method Push(key: TrafficDestination) returns (acked: bool, ghost received: seq<Request>)
      requires Valid() && key in view
      modifies this`pending, this`view
      ensures Valid()
      ensures view == if acked then old(view) - {key} else old(view)
      ensures |received| <= 1 && (received != [] ==> received[0].key == key && Lists(received[0].traffic, old(view)[key]))
      ensures acked ==> WasSent(key, received)
    {
      hide FiledByUID, Lists;
      var batch := pending[key];
      var traffic := batch.List();
      ghost var arrived;
      acked, arrived := ReportUserTraffic(batch.client, traffic);
      received := if arrived then [Request(KeyOf(batch.client), traffic)] else [];
      if acked {
        assert received[0].key == key;
        pending := pending - {key};
        view := view - {key};
      }
    }
  }
}
