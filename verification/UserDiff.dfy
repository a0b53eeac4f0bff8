// What changed between two user lists, compared by a concatenated string key.
module UserDiff {
  import opened Limiter

  // ---------- strconv.Itoa ----------

  predicate IsDigit(c: char) { '0' <= c <= '9' }

  predicate AllDigits(s: string) { forall i :: 0 <= i < |s| ==> IsDigit(s[i]) }

  function Digits(n: nat): (s: string)
    ensures s != [] && AllDigits(s)
  {
    if n < 10 then ['0' + n as char] else Digits(n / 10) + ['0' + (n % 10) as char]
  }

  function Itoa(n: int): string { if n < 0 then "-" + Digits(-n) else Digits(n) }

  function Value(s: string): nat
    requires AllDigits(s)
  {
    if s == [] then 0 else Value(s[..|s| - 1]) * 10 + (s[|s| - 1] - '0') as nat
  }

  lemma {:induction false} ValueOfDigits(n: nat)
    ensures Value(Digits(n)) == n
  {
    if n >= 10 {
      ValueOfDigits(n / 10);
      assert Digits(n)[..|Digits(n)| - 1] == Digits(n / 10);
    } else {
      assert Digits(n)[..0] == [];
    }
  }

  lemma SignsDiffer(m: int, n: int)
    requires m < 0 <= n
    ensures Itoa(m) != Itoa(n)
  {
    assert Itoa(n)[0] != '-';
  }

  lemma ItoaInjective(m: int, n: int)
    ensures Itoa(m) == Itoa(n) <==> m == n
  {
    hide Digits, Value, AllDigits;
    if m < 0 <= n {
      SignsDiffer(m, n);
    } else if n < 0 <= m {
      SignsDiffer(n, m);
    } else if Itoa(m) == Itoa(n) && m < 0 {
      assert Digits(-m) == Itoa(m)[1..] == Itoa(n)[1..] == Digits(-n);
      ValueOfDigits(-m);
      ValueOfDigits(-n);
    } else if Itoa(m) == Itoa(n) {
      ValueOfDigits(m);
      ValueOfDigits(n);
    }
  }

  // ---------- Keys ----------

  function Key(u: UserInfo): string { u.uuid + Itoa(u.speedLimit) }

  // The pair the key is meant to stand for.
  predicate Same(u: UserInfo, v: UserInfo) { u.uuid == v.uuid && u.speedLimit == v.speedLimit }

  lemma KeyOfEqualLength(u: UserInfo, v: UserInfo)
    requires |u.uuid| == |v.uuid|
    ensures Key(u) == Key(v) <==> Same(u, v)
  {
    ItoaInjective(u.speedLimit, v.speedLimit);
    if Key(u) == Key(v) {
      assert u.uuid == Key(u)[..|u.uuid|] == v.uuid;
      assert Itoa(u.speedLimit) == Key(u)[|u.uuid|..] == Itoa(v.speedLimit);
    }
  }

  lemma SameKey(u: UserInfo, v: UserInfo)
    ensures Same(u, v) ==> Key(u) == Key(v)
  {
  }

  function Keys(users: seq<UserInfo>): set<string> { set u | u in users :: Key(u) }

  // ---------- Specification ----------

  // The last user of each key.
  function LastByKey(users: seq<UserInfo>): map<string, UserInfo> {
    if users == [] then map[]
    else
      var u := users[|users| - 1];
      LastByKey(users[..|users| - 1])[Key(u) := u]
  }

  // The new users that are not the first one to match a key of the old list.
  function Added(oldKeys: set<string>, users: seq<UserInfo>): seq<UserInfo> {
    if users == [] then []
    else
      var before, u := users[..|users| - 1], users[|users| - 1];
      Added(oldKeys, before) + if Key(u) in oldKeys && Key(u) !in Keys(before) then [] else [u]
  }

  // What the comparison answers: the deleted users come in no particular order.
  ghost predicate Compared(before: seq<UserInfo>, after: seq<UserInfo>, deleted: seq<UserInfo>, added: seq<UserInfo>) {
    && added == Added(Keys(before), after)
    && (forall u :: u in deleted <==> IsLastOf(LastByKey(before), Keys(before) - Keys(after), u))
    && DistinctKeys(deleted)
  }

  predicate IsLastOf(last: map<string, UserInfo>, keys: set<string>, u: UserInfo) {
    exists k :: k in keys && k in last && last[k] == u
  }

  ghost predicate DistinctKeys(users: seq<UserInfo>) {
    forall i, j :: 0 <= i < j < |users| ==> Key(users[i]) != Key(users[j])
  }

  // ---------- Implementation ----------

  method CompareUserList(before: seq<UserInfo>, after: seq<UserInfo>)
    returns (deleted: seq<UserInfo>, added: seq<UserInfo>)
    ensures Compared(before, after, deleted, added)
  {
    LastByKeyHasKey(before);
    var oldMap := IndexByKey(before);
    hide Added, Keys, Key, LastByKey, Indexes, DistinctKeys, IsLastOf;
    oldMap, added := TakeMatched(before, LastByKey(before), oldMap, after);
    deleted := Collect(before, LastByKey(before), oldMap);
  }

  // The second loop: matched keys leave the table, the other users are added.
  method TakeMatched(
      ghost before: seq<UserInfo>, ghost last: map<string, UserInfo>, indices: map<string, int>, after: seq<UserInfo>)
    returns (rest: map<string, int>, added: seq<UserInfo>)
    requires Indexes(indices, before, last)
    ensures added == Added(indices.Keys, after)
    ensures rest.Keys == indices.Keys - Keys(after)
    ensures Indexes(rest, before, last)
  {
    assert Added(indices.Keys, []) == [] && Keys([]) == {};
    hide *;
    rest, added := indices, [];
    for i := 0 to |after|
      invariant added == Added(indices.Keys, after[..i])
      invariant rest.Keys == indices.Keys - Keys(after[..i])
      invariant Indexes(rest, before, last)
    {
      KeysOfPrefix(after, i);
      AddedStep(indices.Keys, after, i);
      TakeKey(indices, rest, Keys(after[..i]), Key(after[i]));
      if Key(after[i]) !in rest {
        added := added + [after[i]];
      } else {
        IndexesLess(rest, before, last, Key(after[i]));
        rest := rest - {Key(after[i])};
      }
    }
    assert after[..|after|] == after;
  }

  lemma TakeKey(indices: map<string, int>, rest: map<string, int>, taken: set<string>, key: string)
    requires rest.Keys == indices.Keys - taken
    ensures (rest - {key}).Keys == indices.Keys - (taken + {key})
    ensures key !in rest ==> rest.Keys == indices.Keys - (taken + {key})
  {
  }

  // Positions of the users of a table.
  ghost predicate Indexes(indices: map<string, int>, users: seq<UserInfo>, last: map<string, UserInfo>) {
    forall k :: k in indices ==>
      k in last && 0 <= indices[k] < |users| && users[indices[k]] == last[k] && Key(last[k]) == k
  }

  lemma IndexesLess(indices: map<string, int>, users: seq<UserInfo>, last: map<string, UserInfo>, key: string)
    requires Indexes(indices, users, last)
    ensures Indexes(indices - {key}, users, last)
  {
  }

  lemma {:induction false} AddedStep(oldKeys: set<string>, users: seq<UserInfo>, i: nat)
    requires i < |users|
    ensures Added(oldKeys, users[..i + 1]) ==
      Added(oldKeys, users[..i]) + if Key(users[i]) in oldKeys - Keys(users[..i]) then [] else [users[i]]
  {
    assert users[..i + 1][..i] == users[..i];
  }

  lemma KeysOfPrefix(users: seq<UserInfo>, i: nat)
    requires i < |users|
    ensures Keys(users[..i + 1]) == Keys(users[..i]) + {Key(users[i])}
  {
    hide Key;
    assert users[..i + 1] == users[..i] + [users[i]];
  }

  method IndexByKey(users: seq<UserInfo>) returns (indices: map<string, int>)
    ensures indices.Keys == LastByKey(users).Keys
    ensures Indexes(indices, users, LastByKey(users))
  {
    indices := map[];
    for i := 0 to |users|
      invariant indices.Keys == LastByKey(users[..i]).Keys
      invariant Indexes(indices, users, LastByKey(users[..i]))
    {
      assert users[..i + 1][..i] == users[..i];
      indices := indices[Key(users[i]) := i];
    }
    assert users[..|users|] == users;
  }

  // The users picked so far are those of the keys visited.
  ghost predicate Picked(picked: seq<UserInfo>, last: map<string, UserInfo>, keys: set<string>) {
    && (forall u :: u in picked <==> IsLastOf(last, keys, u))
    && (forall i :: 0 <= i < |picked| ==> Key(picked[i]) in keys)
    && DistinctKeys(picked)
  }

  lemma OneMorePicked(picked: seq<UserInfo>, last: map<string, UserInfo>, keys: set<string>, key: string)
    requires Picked(picked, last, keys)
    requires key !in keys && key in last && Key(last[key]) == key
    ensures Picked(picked + [last[key]], last, keys + {key})
  {
    hide Key;
    OneMoreLast(last, keys, key);
    hide IsLastOf;
  }

  lemma OneMoreLast(last: map<string, UserInfo>, keys: set<string>, key: string)
    requires key in last
    ensures forall u :: IsLastOf(last, keys + {key}, u) <==> IsLastOf(last, keys, u) || u == last[key]
  {
  }

  // The order in which a map is visited is arbitrary.
  method Collect(users: seq<UserInfo>, ghost last: map<string, UserInfo>, indices: map<string, int>)
    returns (picked: seq<UserInfo>)
    requires Indexes(indices, users, last)
    ensures forall u :: u in picked <==> IsLastOf(last, indices.Keys, u)
    ensures DistinctKeys(picked)
  {
    picked := [];
    var rest := indices.Keys;
    while rest != {}
      invariant rest <= indices.Keys
      invariant Picked(picked, last, indices.Keys - rest)
    {
      var k :| k in rest;
      assert users[indices[k]] == last[k] && Key(last[k]) == k;
      OneMorePicked(picked, last, indices.Keys - rest, k);
      assert indices.Keys - (rest - {k}) == indices.Keys - rest + {k};
      hide *;
      rest := rest - {k};
      picked := picked + [users[indices[k]]];
    }
  }

  lemma {:induction false} LastByKeyHasKey(users: seq<UserInfo>)
    ensures LastByKey(users).Keys == Keys(users)
    ensures forall k :: k in LastByKey(users) ==> LastByKey(users)[k] in users && Key(LastByKey(users)[k]) == k
  {
    if users != [] {
      var n := |users| - 1;
      LastByKeyHasKey(users[..n]);
      assert users == users[..n] + [users[n]];
      assert Keys(users) == Keys(users[..n]) + {Key(users[n])};
    }
  }

  // ---------- When the comparison is exact ----------

  predicate HasSame(users: seq<UserInfo>, u: UserInfo) { exists v :: v in users && Same(u, v) }

  // Exactly the differences in (uuid, speed).
  ghost predicate Exact(before: seq<UserInfo>, after: seq<UserInfo>, deleted: seq<UserInfo>, added: seq<UserInfo>) {
    && (forall u :: u in deleted <==> u in before && !HasSame(after, u))
    && (forall u :: u in added <==> u in after && !HasSame(before, u))
  }

  predicate FirstOfKey(users: seq<UserInfo>, i: nat)
    requires i < |users|
  {
    Key(users[i]) !in Keys(users[..i])
  }

  // No two old users share a key, and the first new user with the key of an old
  // one has its uuid and speed.
  ghost predicate Unambiguous(before: seq<UserInfo>, after: seq<UserInfo>) {
    && DistinctKeys(before)
    && forall j {:trigger FirstOfKey(after, j)} :: 0 <= j < |after| && FirstOfKey(after, j) ==> StandsFor(before, after[j])
  }

  ghost predicate StandsFor(before: seq<UserInfo>, v: UserInfo) {
    forall u :: u in before && Key(u) == Key(v) ==> Same(u, v)
  }

  // The new user at i takes the key of an old one and is not added.
  predicate Matched(oldKeys: set<string>, users: seq<UserInfo>, i: nat)
    requires i < |users|
  {
    Key(users[i]) in oldKeys && FirstOfKey(users, i)
  }

  lemma MatchedInPrefix(oldKeys: set<string>, users: seq<UserInfo>, n: nat, i: nat)
    requires i < n <= |users|
    ensures Matched(oldKeys, users[..n], i) == Matched(oldKeys, users, i)
  {
    assert users[..n][..i] == users[..i];
  }

  lemma {:induction false} UnmatchedIsAdded(oldKeys: set<string>, users: seq<UserInfo>, i: nat)
    requires i < |users| && !Matched(oldKeys, users, i)
    ensures users[i] in Added(oldKeys, users)
  {
    var n := |users| - 1;
    var before, last := users[..n], users[n];
    assert i == n ==> Key(last) !in oldKeys - Keys(before);
    assert users[..n + 1] == users;
    AddedStep(oldKeys, users, n);
    if i < n {
      MatchedInPrefix(oldKeys, users, n, i);
      hide *;
      UnmatchedIsAdded(oldKeys, before, i);
      assert before[i] == users[i];
    }
    hide *;
  }

  lemma {:induction false} AddedIsUnmatched(oldKeys: set<string>, users: seq<UserInfo>, u: UserInfo) returns (i: nat)
    requires u in Added(oldKeys, users)
    ensures i < |users| && users[i] == u && !Matched(oldKeys, users, i)
  {
    var n := |users| - 1;
    if u in Added(oldKeys, users[..n]) {
      i := AddedIsUnmatched(oldKeys, users[..n], u);
      MatchedInPrefix(oldKeys, users, n, i);
    } else {
      i := n;
    }
  }

  // A matched key has a first position.
  lemma {:induction false} FirstWithKey(users: seq<UserInfo>, key: string) returns (i: nat)
    requires key in Keys(users)
    ensures i < |users| && Key(users[i]) == key && FirstOfKey(users, i)
  {
    assert Keys([]) == {};
    var n := |users| - 1;
    assert users[..n + 1] == users;
    KeysOfPrefix(users, n);
    hide Key, Keys;
    if key in Keys(users[..n]) {
      i := FirstWithKey(users[..n], key);
      assert users[..n][..i] == users[..i];
    } else {
      i := n;
    }
  }

  // A deleted user has a key of its own, missing from the new list.
  lemma DeletedKeys(before: seq<UserInfo>, after: seq<UserInfo>, deleted: seq<UserInfo>, added: seq<UserInfo>, u: UserInfo)
    requires Compared(before, after, deleted, added)
    ensures u in deleted ==> u in before && Key(u) !in Keys(after)
    ensures DistinctKeys(before) && u in before && Key(u) !in Keys(after) ==> u in deleted
  {
    LastByKeyHasKey(before);
    if DistinctKeys(before) && u in before && Key(u) !in Keys(after) {
      assert LastByKey(before)[Key(u)] == u;
    }
  }

  lemma UnambiguousIsExact(before: seq<UserInfo>, after: seq<UserInfo>, deleted: seq<UserInfo>, added: seq<UserInfo>)
    requires DistinctUuids(before) && DistinctUuids(after)
    requires Compared(before, after, deleted, added) && Unambiguous(before, after)
    ensures Exact(before, after, deleted, added)
  {
    forall u ensures u in deleted <==> u in before && !HasSame(after, u) {
      DeletedKeys(before, after, deleted, added, u);
      if u in before && Key(u) in Keys(after) {
        var j := FirstWithKey(after, Key(u));
        assert Same(after[j], u);
      }
    }
    forall v ensures v in added <==> v in after && !HasSame(before, v) {
      if v in added {
        var _ := AddedIsUnmatched(Keys(before), after, v);
      }
      if v in after {
        var j :| 0 <= j < |after| && after[j] == v;
        NewIsAddedIff(before, after, added, j);
      }
    }
  }

  lemma {:induction false} NewIsAddedIff(before: seq<UserInfo>, after: seq<UserInfo>, added: seq<UserInfo>, j: nat)
    requires DistinctUuids(after) && Unambiguous(before, after)
    requires j < |after| && added == Added(Keys(before), after)
    ensures after[j] in added <==> !HasSame(before, after[j])
  {
    AddedIffUnmatched(Keys(before), after, j);
    if HasSame(before, after[j]) {
      SameIsMatched(before, after, j);
    }
  }

  lemma {:induction false} AddedIffUnmatched(oldKeys: set<string>, users: seq<UserInfo>, j: nat)
    requires DistinctUuids(users) && j < |users|
    ensures users[j] in Added(oldKeys, users) <==> !Matched(oldKeys, users, j)
  {
    hide Added;
    if users[j] in Added(oldKeys, users) {
      var i := AddedIsUnmatched(oldKeys, users, users[j]);
      assert i == j;
    } else if !Matched(oldKeys, users, j) {
      UnmatchedIsAdded(oldKeys, users, j);
    }
  }

  lemma SameIsMatched(before: seq<UserInfo>, after: seq<UserInfo>, j: nat)
    requires DistinctUuids(after) && Unambiguous(before, after)
    requires j < |after| && HasSame(before, after[j])
    ensures Matched(Keys(before), after, j)
  {
    var u :| u in before && Same(u, after[j]);
    SameKey(u, after[j]);
    assert Key(u) in Keys(before) && Key(after[j]) in Keys(after);
    hide Key, Keys, DistinctKeys, FirstOfKey;
    var i := FirstWithKey(after, Key(u));
    assert StandsFor(before, after[i]);
    assert Same(u, after[i]);
    assert i == j;
  }

  lemma ExactIsUnambiguous(before: seq<UserInfo>, after: seq<UserInfo>, deleted: seq<UserInfo>, added: seq<UserInfo>)
    requires DistinctUuids(before) && DistinctUuids(after)
    requires Compared(before, after, deleted, added) && Exact(before, after, deleted, added)
    ensures Unambiguous(before, after)
  {
    hide Key, Keys, Compared, Exact;
    forall i, j | 0 <= i < j < |before| ensures Key(before[i]) != Key(before[j]) {
      if Key(before[i]) == Key(before[j]) {
        SharedKeyIsMissed(before, after, deleted, added, before[i], before[j]);
      }
    }
    forall j | 0 <= j < |after| && FirstOfKey(after, j) ensures StandsFor(before, after[j]) {
      MatchedStandsFor(before, after, deleted, added, j);
    }
  }

  lemma MatchedStandsFor(before: seq<UserInfo>, after: seq<UserInfo>, deleted: seq<UserInfo>, added: seq<UserInfo>, j: nat)
    requires DistinctUuids(after) && DistinctKeys(before)
    requires Compared(before, after, deleted, added) && Exact(before, after, deleted, added)
    requires j < |after| && FirstOfKey(after, j)
    ensures StandsFor(before, after[j])
  {
    forall u | u in before && Key(u) == Key(after[j]) ensures Same(u, after[j]) {
      assert Matched(Keys(before), after, j);
      MatchedIsOld(before, after, deleted, added, j);
      hide Keys, Compared, Exact, FirstOfKey;
      var v :| v in before && Same(v, after[j]);
      SameKey(v, after[j]);
      hide Key;
      assert v == u;
    }
  }

  lemma MatchedIsOld(before: seq<UserInfo>, after: seq<UserInfo>, deleted: seq<UserInfo>, added: seq<UserInfo>, j: nat)
    requires DistinctUuids(after)
    requires Compared(before, after, deleted, added) && Exact(before, after, deleted, added)
    requires j < |after| && Matched(Keys(before), after, j)
    ensures HasSame(before, after[j])
  {
    AddedIffUnmatched(Keys(before), after, j);
  }

  lemma OneIsUnmatched(oldKeys: set<string>, users: seq<UserInfo>, i: nat, j: nat)
    requires i < |users| && j < |users| && i != j && Key(users[i]) == Key(users[j])
    ensures !Matched(oldKeys, users, i) || !Matched(oldKeys, users, j)
  {
  }

  lemma {:induction false} SharedKeyIsAdded(before: seq<UserInfo>, after: seq<UserInfo>, u: UserInfo, v: UserInfo)
    requires u in before && v in before && Key(u) == Key(v) && u.uuid != v.uuid
    requires HasSame(after, u) && HasSame(after, v)
    ensures exists w :: w in Added(Keys(before), after) && HasSame(before, w)
  {
    SameAt(after, u);
    SameAt(after, v);
    hide Key, Keys, Added, HasSame;
    var i :| 0 <= i < |after| && Same(after[i], u);
    var j :| 0 <= j < |after| && Same(after[j], v);
    SameKey(after[i], u);
    SameKey(after[j], v);
    SameHere(before, u, after[i]);
    SameHere(before, v, after[j]);
    OneIsUnmatched(Keys(before), after, i, j);
    var unmatched := if Matched(Keys(before), after, i) then j else i;
    UnmatchedIsAdded(Keys(before), after, unmatched);
  }

  lemma SameAt(users: seq<UserInfo>, u: UserInfo)
    ensures HasSame(users, u) ==> exists i :: 0 <= i < |users| && Same(users[i], u)
  {
  }

  lemma SameHere(users: seq<UserInfo>, u: UserInfo, v: UserInfo)
    ensures u in users && Same(v, u) ==> HasSame(users, v)
  {
  }

  // Two old users with one key: the comparison sees only one of them.
  lemma SharedKeyIsMissed(
      before: seq<UserInfo>, after: seq<UserInfo>, deleted: seq<UserInfo>, added: seq<UserInfo>, u: UserInfo, v: UserInfo)
    requires DistinctUuids(after) && Compared(before, after, deleted, added)
    requires u in before && v in before && Key(u) == Key(v) && u.uuid != v.uuid
    ensures !Exact(before, after, deleted, added)
  {
    if Exact(before, after, deleted, added) {
      if Key(u) in Keys(after) {
        DeletedKeys(before, after, deleted, added, u);
        DeletedKeys(before, after, deleted, added, v);
        SharedKeyIsAdded(before, after, u, v);
      } else {
        assert u in deleted && v in deleted;
        LastByKeyHasKey(before);
      }
    }
  }

  // The comparison answers exactly the differences in (uuid, speed) if and only
  // if the keys of the two lists are unambiguous.
  lemma ExactIffUnambiguous(before: seq<UserInfo>, after: seq<UserInfo>, deleted: seq<UserInfo>, added: seq<UserInfo>)
    requires DistinctUuids(before) && DistinctUuids(after)
    requires Compared(before, after, deleted, added)
    ensures Exact(before, after, deleted, added) <==> Unambiguous(before, after)
  {
    if Unambiguous(before, after) {
      UnambiguousIsExact(before, after, deleted, added);
    }
    if Exact(before, after, deleted, added) {
      ExactIsUnambiguous(before, after, deleted, added);
    }
  }

  predicate UuidLength(users: seq<UserInfo>, n: nat) { forall u :: u in users ==> |u.uuid| == n }

  // UUIDs of one length never make the keys ambiguous.
  lemma EqualLengthsAreUnambiguous(before: seq<UserInfo>, after: seq<UserInfo>, n: nat)
    requires DistinctUuids(before) && UuidLength(before, n) && UuidLength(after, n)
    ensures Unambiguous(before, after)
  {
    hide Key;
    forall i, j | 0 <= i < j < |before| ensures Key(before[i]) != Key(before[j]) {
      KeyOfEqualLength(before[i], before[j]);
    }
    forall j | 0 <= j < |after| ensures StandsFor(before, after[j]) {
      forall u | u in before && Key(u) == Key(after[j]) ensures Same(u, after[j]) {
        KeyOfEqualLength(u, after[j]);
      }
    }
  }

  lemma NoMembers(users: seq<UserInfo>)
    ensures (forall u :: u !in users) ==> users == []
  {
    if users != [] {
      assert users[0] in users;
    }
  }

  // Without that, a replaced user can go unnoticed: "a1" with limit 2 and "a"
  // with limit 12 have the same key.
  lemma ReplacementUnnoticed(deleted: seq<UserInfo>, added: seq<UserInfo>)
    ensures var before, after := [UserInfo(1, "a1", 2, 0)], [UserInfo(2, "a", 12, 0)];
            Compared(before, after, deleted, added) ==>
              deleted == [] && added == [] && !Exact(before, after, deleted, added)
  {
    var u, v := UserInfo(1, "a1", 2, 0), UserInfo(2, "a", 12, 0);
    assert Digits(12) == Digits(1) + "2";
    assert Key(u) == "a12" == Key(v);
    assert Keys([v]) == {Key(v)};
    assert FirstOfKey([v], 0);
    assert Added(Keys([u]), [v]) == [] by {
      assert u in [u];
      assert Key(u) in Keys([u]);
    }
    LastByKeyHasKey([u]);
    NoMembers(deleted);
    assert Compared([u], [v], deleted, added) ==> forall w :: w !in deleted;
    assert u in [u] && !HasSame([v], u);
  }
}
