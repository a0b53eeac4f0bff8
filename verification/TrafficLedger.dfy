// Traffic accounting as a whole: counters that links add to, concurrent drains,
// user removal, core shutdown, the report queue and its retries, at the
// granularity of single atomic loads and swaps.
module TrafficLedger {
  import Executions
  import opened Bytes
  import opened TrafficQueue

  // A node of one core, with the panel destination its traffic is reported to.
  datatype Node = Node(core: nat, key: TrafficDestination)

  // A user tag, with the ID the panel gave this user.
  datatype User = User(node: Node, uuid: string, uid: int64)

  // A counter pair. live means that the tag still leads to it; a link may keep
  // adding to one that is not.
  datatype Storage = Storage(user: User, up: int, down: int, live: bool)

  // Where a drain is. From the start of its range until Unlocked it holds the
  // read lock of the user map.
  datatype Phase =
    | Ranging
    | LoadingUp(user: User, storage: nat)
    | LoadingDown(user: User, storage: nat, seenUp: int)
    | SwappingUp(user: User, storage: nat)
    | SwappingDown(user: User, storage: nat, up: int)
    | Settling(user: User, up: int, down: int)
    | Unlocked
    | Queued

  datatype Drain = Drain(node: Node, min: int, phase: Phase, slice: seq<UserTraffic>) {
    predicate Locks() { phase != Unlocked && phase != Queued }
  }

  // Bytes of one user, and a whole batch that was acknowledged.
  datatype Bill = Bill(user: User, up: int, down: int)
  datatype Batch = Batch(key: TrafficDestination, users: Users)

  // The last five fields record history: everything ever added, swapped out but
  // thrown away, acknowledged, received by the panel, and received without an
  // acknowledgement.
  datatype State = State(
    storages: seq<Storage>,
    counters: map<User, nat>,
    known: set<User>,
    closed: set<nat>,
    drains: seq<Drain>,
    pending: Pending,
    added: seq<Bill>,
    dropped: seq<Bill>,
    acked: seq<Batch>,
    received: seq<Request>,
    lost: seq<Request>)

  datatype Outcome = Acked | Lost | Refused

  datatype Step =
    | GetCounter(user: User)
    | Add(storage: nat, up: bool, n: nat)
    | StartDrain(node: Node, min: int)
    | Visit(d: nat, user: User)
    | LoadUp(d: nat)
    | LoadDown(d: nat)
    | SwapUp(d: nat)
    | SwapDown(d: nat)
    | Settle(d: nat)
    | EndRange(d: nat)
    | QueueAdd(d: nat)
    | AddUser(user: User)
    | DelUser(user: User)
    | CloseCore(core: nat)
    | Push(key: TrafficDestination, traffic: seq<UserTraffic>, outcome: Outcome)

  predicate Init(s: State) { s == State([], map[], {}, {}, [], map[], [], [], [], [], []) }

  // The write lock of a core's user map is free for a writer.
  predicate NoDrain(s: State, core: nat) {
    forall d :: 0 <= d < |s.drains| && s.drains[d].node.core == core ==> !s.drains[d].Locks()
  }

  ghost predicate Enabled(s: State, step: Step) {
    match step
    case GetCounter(user) => user.node.core !in s.closed
    case Add(st, _, _) => st < |s.storages|
    case StartDrain(node, _) => node.core !in s.closed
    case Visit(d, user) =>
      && d < |s.drains| && s.drains[d].phase == Ranging
      && user in s.counters && user.node == s.drains[d].node
    case LoadUp(d) =>
      d < |s.drains| && s.drains[d].phase.LoadingUp? && s.drains[d].phase.storage < |s.storages|
    case LoadDown(d) =>
      d < |s.drains| && s.drains[d].phase.LoadingDown? && s.drains[d].phase.storage < |s.storages|
    case SwapUp(d) =>
      d < |s.drains| && s.drains[d].phase.SwappingUp? && s.drains[d].phase.storage < |s.storages|
    case SwapDown(d) =>
      d < |s.drains| && s.drains[d].phase.SwappingDown? && s.drains[d].phase.storage < |s.storages|
    case Settle(d) => d < |s.drains| && s.drains[d].phase.Settling?
    case EndRange(d) => d < |s.drains| && s.drains[d].phase == Ranging
    case QueueAdd(d) => d < |s.drains| && s.drains[d].phase == Unlocked
    case AddUser(user) => NoDrain(s, user.node.core)
    case DelUser(user) => NoDrain(s, user.node.core)
    // Closing a core takes no lock; it happens when the tasks that drain it have
    // ended.
    case CloseCore(core) => NoDrain(s, core)
    case Push(key, traffic, _) => key in s.pending && Lists(traffic, s.pending[key])
  }

  // uidMap[email] != 0
  predicate Counted(s: State, user: User) { CountedIn(s.known, user) }

  predicate CountedIn(known: set<User>, user: User) { user in known && user.uid != 0 }

  // The tag no longer leads to its counters.
  function Forget(s: State, user: User): State {
    if user in s.counters then
      s.(counters := s.counters - {user},
         storages := var st := s.counters[user];
                     if st < |s.storages| then s.storages[st := s.storages[st].(live := false)] else s.storages)
    else s
  }

  function Kill(storages: seq<Storage>, core: nat): seq<Storage> {
    seq(|storages|, i requires 0 <= i < |storages| =>
      if storages[i].user.node.core == core then storages[i].(live := false) else storages[i])
  }

  function At(s: State, d: nat, phase: Phase): State
    requires d < |s.drains|
  {
    s.(drains := s.drains[d := s.drains[d].(phase := phase)])
  }

  function ApplyCounter(s: State, step: Step): State
    requires Enabled(s, step) && (step.GetCounter? || step.Add? || step.AddUser? || step.DelUser? || step.CloseCore?)
  {
    match step
    case GetCounter(user) =>
      if user in s.counters then s
      else s.(counters := s.counters[user := |s.storages|], storages := s.storages + [Storage(user, 0, 0, true)])
    case Add(st, up, n) =>
      var c := s.storages[st];
      s.(storages := s.storages[st := if up then c.(up := c.up + n) else c.(down := c.down + n)],
         added := s.added + [if up then Bill(c.user, n, 0) else Bill(c.user, 0, n)])
    case AddUser(user) => s.(known := s.known + {user})
    case DelUser(user) => Forget(s.(known := s.known - {user}), user)
    case CloseCore(core) =>
      s.(storages := Kill(s.storages, core),
         counters := map u | u in s.counters && u.node.core != core :: s.counters[u],
         closed := s.closed + {core})
  }

  function ApplyDrain(s: State, step: Step): State
    requires Enabled(s, step)
    requires step.StartDrain? || step.Visit? || step.LoadUp? || step.LoadDown? || step.SwapUp? || step.SwapDown? ||
             step.Settle? || step.EndRange?
  {
    match step
    case StartDrain(node, min) => s.(drains := s.drains + [Drain(node, min, Ranging, [])])
    case Visit(d, user) => At(s, d, LoadingUp(user, s.counters[user]))
    case LoadUp(d) =>
      var p := s.drains[d].phase;
      At(s, d, LoadingDown(p.user, p.storage, s.storages[p.storage].up))
    case LoadDown(d) =>
      var p := s.drains[d].phase;
      if p.seenUp + s.storages[p.storage].down > s.drains[d].min then At(s, d, SwappingUp(p.user, p.storage))
      else At(s, d, Ranging)
    case SwapUp(d) =>
      var p := s.drains[d].phase;
      var c := s.storages[p.storage];
      At(s, d, SwappingDown(p.user, p.storage, c.up)).(storages := s.storages[p.storage := c.(up := 0)])
    case SwapDown(d) =>
      var p := s.drains[d].phase;
      var c := s.storages[p.storage];
      At(s, d, Settling(p.user, p.up, c.down)).(storages := s.storages[p.storage := c.(down := 0)])
    case Settle(d) =>
      var p := s.drains[d].phase;
      if !Counted(s, p.user) then
        Forget(At(s, d, Ranging).(dropped := s.dropped + [Bill(p.user, p.up, p.down)]), p.user)
      else
        s.(drains := s.drains[d := s.drains[d].(
          phase := Ranging, slice := s.drains[d].slice + [UserTraffic(p.user.uid, p.up, p.down)])])
    case EndRange(d) => At(s, d, Unlocked)
  }

  function ApplyQueue(s: State, step: Step): State
    requires Enabled(s, step) && (step.QueueAdd? || step.Push?)
  {
    match step
    case QueueAdd(d) =>
      s.(drains := s.drains[d := s.drains[d].(phase := Queued, slice := [])],
         pending := Added(s.pending, s.drains[d].node.key, s.drains[d].slice))
    case Push(key, traffic, outcome) =>
      // The request lists the users of the batch; the acknowledgement removes the
      // batch itself.
      var request := Request(key, traffic);
      match outcome
      case Acked =>
        s.(pending := s.pending - {key}, acked := s.acked + [Batch(key, s.pending[key])],
           received := s.received + [request])
      case Lost => s.(received := s.received + [request], lost := s.lost + [request])
      case Refused => s
  }

  function Apply(s: State, step: Step): State
    requires Enabled(s, step)
  {
    match step
    case QueueAdd(_) => ApplyQueue(s, step)
    case Push(_, _, _) => ApplyQueue(s, step)
    case GetCounter(_) => ApplyCounter(s, step)
    case Add(_, _, _) => ApplyCounter(s, step)
    case AddUser(_) => ApplyCounter(s, step)
    case DelUser(_) => ApplyCounter(s, step)
    case CloseCore(_) => ApplyCounter(s, step)
    case _ => ApplyDrain(s, step)
  }

  ghost predicate Next(s: State, s': State) {
    exists step :: Enabled(s, step) && s' == Apply(s, step)
  }

  ghost predicate Execution(states: seq<State>) {
    Executions.Execution(Init, Next, states)
  }

  // ---------- Where the bytes of an account are ----------

  // One user's bytes in one direction, as the panel accounts for them.
  datatype Account = Account(key: TrafficDestination, uid: int64, up: bool) {
    predicate Owns(user: User) { user.node.key == key && user.uid == uid }
    function Part(user: User, amountUp: int, amountDown: int): int {
      if Owns(user) then if up then amountUp else amountDown else 0
    }
  }

  // In counters, live or not.
  function InCounters(storages: seq<Storage>, a: Account, live: bool): int {
    if storages == [] then 0
    else
      var c := storages[|storages| - 1];
      InCounters(storages[..|storages| - 1], a, live) + if c.live == live then a.Part(c.user, c.up, c.down) else 0
  }

  // Swapped out by a drain that has not settled them yet.
  function InHand(phase: Phase, a: Account): int {
    match phase
    case SwappingDown(user, _, up) => a.Part(user, up, 0)
    case Settling(user, up, down) => a.Part(user, up, down)
    case _ => 0
  }

  // In a drain: in hand or in its slice.
  function InDrain(d: Drain, a: Account): int {
    InHand(d.phase, a) + if d.node.key == a.key then Sum(d.slice, a.uid, a.up) else 0
  }

  function InFlight(drains: seq<Drain>, a: Account): int {
    if drains == [] then 0
    else InFlight(drains[..|drains| - 1], a) + InDrain(drains[|drains| - 1], a)
  }

  function InUsers(users: Users, a: Account): int { Amount(Entry(users, a.uid), a.up) }

  function InQueue(pending: Pending, a: Account): int { InUsers(UsersOf(pending, a.key), a) }

  function OnBills(bills: seq<Bill>, a: Account): int {
    if bills == [] then 0
    else
      var b := bills[|bills| - 1];
      OnBills(bills[..|bills| - 1], a) + a.Part(b.user, b.up, b.down)
  }

  function InBatches(batches: seq<Batch>, a: Account): int {
    if batches == [] then 0
    else
      var b := batches[|batches| - 1];
      InBatches(batches[..|batches| - 1], a) + if b.key == a.key then InUsers(b.users, a) else 0
  }

  // What requests carry.
  function InRequests(requests: seq<Request>, a: Account): int {
    if requests == [] then 0
    else
      var r := requests[|requests| - 1];
      InRequests(requests[..|requests| - 1], a) + Carried(r, a)
  }

  function Carried(r: Request, a: Account): int { if r.key == a.key then Sum(r.traffic, a.uid, a.up) else 0 }

  // added = in counters + in a drain in flight + pending + acknowledged + dropped
  ghost predicate Balanced(s: State, a: Account) {
    OnBills(s.added, a) ==
      InCounters(s.storages, a, true) + InCounters(s.storages, a, false) + InFlight(s.drains, a) +
      InQueue(s.pending, a) + InBatches(s.acked, a) + OnBills(s.dropped, a)
  }

  // received = acknowledged batches + requests received without an acknowledgement
  ghost predicate Delivered(s: State, a: Account) {
    InRequests(s.received, a) == InBatches(s.acked, a) + InRequests(s.lost, a)
  }

  lemma {:induction false} CounterUpdate(storages: seq<Storage>, i: nat, c: Storage, a: Account, live: bool)
    requires i < |storages|
    ensures InCounters(storages[i := c], a, live) ==
            InCounters(storages, a, live)
            - (if storages[i].live == live then a.Part(storages[i].user, storages[i].up, storages[i].down) else 0)
            + (if c.live == live then a.Part(c.user, c.up, c.down) else 0)
  {
    var n := |storages| - 1;
    if i == n {
      assert storages[i := c][..n] == storages[..n];
    } else {
      assert storages[i := c][..n] == storages[..n][i := c];
      CounterUpdate(storages[..n], i, c, a, live);
    }
  }

  lemma {:induction false} CounterAppend(storages: seq<Storage>, c: Storage, a: Account, live: bool)
    ensures InCounters(storages + [c], a, live) ==
            InCounters(storages, a, live) + if c.live == live then a.Part(c.user, c.up, c.down) else 0
  {
  }

  lemma {:induction false} KillMoves(storages: seq<Storage>, core: nat, a: Account)
    ensures InCounters(Kill(storages, core), a, true) + InCounters(Kill(storages, core), a, false)
         == InCounters(storages, a, true) + InCounters(storages, a, false)
  {
    if storages != [] {
      var n := |storages| - 1;
      assert Kill(storages, core)[..n] == Kill(storages[..n], core);
      KillMoves(storages[..n], core, a);
    }
  }

  lemma {:induction false} DrainUpdate(drains: seq<Drain>, i: nat, d: Drain, a: Account)
    requires i < |drains|
    ensures InFlight(drains[i := d], a) == InFlight(drains, a) - InDrain(drains[i], a) + InDrain(d, a)
  {
    var n := |drains| - 1;
    if i == n {
      assert drains[i := d][..n] == drains[..n];
    } else {
      assert drains[i := d][..n] == drains[..n][i := d];
      DrainUpdate(drains[..n], i, d, a);
    }
  }

  lemma {:induction false} DrainAppend(drains: seq<Drain>, d: Drain, a: Account)
    ensures InFlight(drains + [d], a) == InFlight(drains, a) + InDrain(d, a)
    ensures d.slice == [] ==> InDrain(d, a) == InHand(d.phase, a)
  {
  }

  lemma {:induction false} BillAppend(bills: seq<Bill>, b: Bill, a: Account)
    ensures OnBills(bills + [b], a) == OnBills(bills, a) + a.Part(b.user, b.up, b.down)
  {
  }

  lemma {:induction false} BatchAppend(batches: seq<Batch>, b: Batch, a: Account)
    ensures InBatches(batches + [b], a) == InBatches(batches, a) + if b.key == a.key then InUsers(b.users, a) else 0
  {
  }

  lemma {:induction false} SliceAppend(slice: seq<UserTraffic>, t: UserTraffic, uid: int64, up: bool)
    ensures Sum(slice + [t], uid, up) == Sum(slice, uid, up) + if t.uid == uid then Amount(t, up) else 0
  {
  }

  lemma {:induction false} ForgetMoves(s: State, user: User, a: Account)
    ensures var s' := Forget(s, user);
            && InCounters(s'.storages, a, true) + InCounters(s'.storages, a, false)
            == InCounters(s.storages, a, true) + InCounters(s.storages, a, false)
            && s' == s.(storages := s'.storages, counters := s'.counters)
  {
    if user in s.counters && s.counters[user] < |s.storages| {
      var i := s.counters[user];
      CounterUpdate(s.storages, i, s.storages[i].(live := false), a, true);
      CounterUpdate(s.storages, i, s.storages[i].(live := false), a, false);
    }
  }

  // ---------- Invariant ----------

  // A tag leads to its own live counters, and only live counters are led to.
  ghost predicate CountersInv(s: State) {
    && (forall u :: u in s.counters ==>
          s.counters[u] < |s.storages| && s.storages[s.counters[u]].user == u && s.storages[s.counters[u]].live)
    && (forall i :: 0 <= i < |s.storages| ==>
          && s.storages[i].up >= 0 && s.storages[i].down >= 0
          && (s.storages[i].live ==> s.storages[i].user in s.counters && s.counters[s.storages[i].user] == i))
  }

  // A drain works on a user of its node; counters that died under it belong to a
  // user that is no longer counted.
  ghost predicate PhaseOk(s: State, node: Node, p: Phase) {
    match p
    case LoadingUp(user, st) => HandleOk(s, node, user, st)
    case LoadingDown(user, st, _) => HandleOk(s, node, user, st)
    case SwappingUp(user, st) => HandleOk(s, node, user, st)
    case SwappingDown(user, st, up) => HandleOk(s, node, user, st) && up >= 0
    case Settling(user, up, down) => user.node == node && up >= 0 && down >= 0
    case _ => true
  }

  ghost predicate HandleOk(s: State, node: Node, user: User, st: nat) {
    && user.node == node
    && st < |s.storages| && s.storages[st].user == user
    && (!s.storages[st].live ==> !Counted(s, user))
  }

  ghost predicate DrainsInv(s: State) {
    forall d :: 0 <= d < |s.drains| ==>
      PhaseOk(s, s.drains[d].node, s.drains[d].phase) && (s.drains[d].phase == Queued ==> s.drains[d].slice == [])
  }

  // No amounts are negative, and batches file users under their UID.
  ghost predicate QueueInv(s: State) {
    && (forall d :: 0 <= d < |s.drains| ==> Positive(s.drains[d].slice))
    && (forall k :: k in s.pending ==> FiledByUID(s.pending[k]) && PositiveUsers(s.pending[k]))
    && (forall i :: 0 <= i < |s.lost| ==> Positive(s.lost[i].traffic))
  }

  predicate Positive(traffic: seq<UserTraffic>) {
    forall i :: 0 <= i < |traffic| ==> traffic[i].upload >= 0 && traffic[i].download >= 0
  }

  predicate PositiveUsers(users: Users) {
    forall uid :: uid in users ==> users[uid].upload >= 0 && users[uid].download >= 0
  }

  ghost predicate Books(s: State) { forall a :: Balanced(s, a) && Delivered(s, a) }

  ghost predicate Inv(s: State) { CountersInv(s) && DrainsInv(s) && QueueInv(s) && Books(s) }

  predicate IsCounterStep(step: Step) {
    step.GetCounter? || step.Add? || step.AddUser? || step.DelUser? || step.CloseCore?
  }

  predicate IsQueueStep(step: Step) { step.QueueAdd? || step.Push? }

  // What a state holds outside the counters, summed up for one account.
  function Outside(s: State, a: Account): int {
    InFlight(s.drains, a) + InQueue(s.pending, a) + InBatches(s.acked, a) + OnBills(s.dropped, a) - OnBills(s.added, a)
  }

  function Inside(s: State, a: Account): int {
    InCounters(s.storages, a, true) + InCounters(s.storages, a, false)
  }

  lemma CounterStepBalances(s: State, step: Step, a: Account)
    requires CountersInv(s) && Enabled(s, step) && IsCounterStep(step)
    ensures var s' := ApplyCounter(s, step); Inside(s', a) + Outside(s', a) == Inside(s, a) + Outside(s, a)
    ensures Delivered(s, a) ==> Delivered(ApplyCounter(s, step), a)
  {
    match step
    case GetCounter(user) =>
      CounterAppend(s.storages, Storage(user, 0, 0, true), a, true);
      CounterAppend(s.storages, Storage(user, 0, 0, true), a, false);
    case Add(st, up, n) => AddBalances(s, step, a);
    case AddUser(_) =>
    case DelUser(user) => ForgetMoves(s.(known := s.known - {user}), user, a);
    case CloseCore(core) => KillMoves(s.storages, core, a);
  }

  lemma AddBalances(s: State, step: Step, a: Account)
    requires Enabled(s, step) && step.Add?
    ensures var s' := ApplyCounter(s, step); Inside(s', a) + Outside(s', a) == Inside(s, a) + Outside(s, a)
    ensures Delivered(s, a) ==> Delivered(ApplyCounter(s, step), a)
  {
    hide InCounters, InFlight, InQueue, InBatches, OnBills;
    var c := s.storages[step.storage];
    if step.up {
      InsideUpdate(s.storages, step.storage, c.(up := c.up + step.n), a);
      BillAppend(s.added, Bill(c.user, step.n, 0), a);
    } else {
      InsideUpdate(s.storages, step.storage, c.(down := c.down + step.n), a);
      BillAppend(s.added, Bill(c.user, 0, step.n), a);
    }
  }

  // Replacing one counter pair, live or not as before.
  lemma InsideUpdate(storages: seq<Storage>, i: nat, c: Storage, a: Account)
    requires i < |storages| && c.live == storages[i].live && c.user == storages[i].user
    ensures InCounters(storages[i := c], a, true) + InCounters(storages[i := c], a, false)
         == InCounters(storages, a, true) + InCounters(storages, a, false)
            + a.Part(c.user, c.up - storages[i].up, c.down - storages[i].down)
  {
    CounterUpdate(storages, i, c, a, true);
    CounterUpdate(storages, i, c, a, false);
  }

  // A swap moves one direction of a counter into the drain's hand.
  lemma SwapBalances(s: State, step: Step, a: Account)
    requires DrainsInv(s) && Enabled(s, step) && (step.SwapUp? || step.SwapDown?)
    ensures var s' := ApplyDrain(s, step); Inside(s', a) + Outside(s', a) == Inside(s, a) + Outside(s, a)
    ensures Delivered(s, a) ==> Delivered(ApplyDrain(s, step), a)
  {
    hide InCounters, InFlight, InQueue, InBatches, OnBills;
    var p := s.drains[step.d].phase;
    var c := s.storages[p.storage];
    InsideUpdate(s.storages, p.storage, if step.SwapUp? then c.(up := 0) else c.(down := 0), a);
    DrainUpdate(s.drains, step.d, ApplyDrain(s, step).drains[step.d], a);
  }

  // Settling moves what is in hand into the slice, or drops it with its tag.
  lemma SettleBalances(s: State, step: Step, a: Account)
    requires DrainsInv(s) && Enabled(s, step) && step.Settle?
    ensures var s' := ApplyDrain(s, step); Inside(s', a) + Outside(s', a) == Inside(s, a) + Outside(s, a)
    ensures Delivered(s, a) ==> Delivered(ApplyDrain(s, step), a)
  {
    hide InCounters, InFlight, InQueue, InBatches, OnBills, Sum;
    var d, p := step.d, s.drains[step.d].phase;
    DrainUpdate(s.drains, d, ApplyDrain(s, step).drains[d], a);
    if !Counted(s, p.user) {
      BillAppend(s.dropped, Bill(p.user, p.up, p.down), a);
      ForgetMoves(At(s, d, Ranging).(dropped := s.dropped + [Bill(p.user, p.up, p.down)]), p.user, a);
    } else {
      SliceAppend(s.drains[d].slice, UserTraffic(p.user.uid, p.up, p.down), a.uid, a.up);
    }
  }

  lemma DrainStepBalances(s: State, step: Step, a: Account)
    requires DrainsInv(s) && Enabled(s, step) && !IsCounterStep(step) && !IsQueueStep(step)
    ensures var s' := ApplyDrain(s, step); Inside(s', a) + Outside(s', a) == Inside(s, a) + Outside(s, a)
    ensures Delivered(s, a) ==> Delivered(ApplyDrain(s, step), a)
  {
    hide DrainsInv, InCounters, InFlight, InQueue, InBatches, OnBills, Sum;
    match step
    case StartDrain(node, min) => DrainAppend(s.drains, Drain(node, min, Ranging, []), a);
    case SwapUp(_) => SwapBalances(s, step, a);
    case SwapDown(_) => SwapBalances(s, step, a);
    case Settle(_) => SettleBalances(s, step, a);
    case Visit(d, _) => DrainUpdate(s.drains, d, ApplyDrain(s, step).drains[d], a);
    case LoadUp(d) => DrainUpdate(s.drains, d, ApplyDrain(s, step).drains[d], a);
    case LoadDown(d) => DrainUpdate(s.drains, d, ApplyDrain(s, step).drains[d], a);
    case EndRange(d) => DrainUpdate(s.drains, d, ApplyDrain(s, step).drains[d], a);
  }

  lemma {:induction false} AddedAmount(p: Pending, key: TrafficDestination, traffic: seq<UserTraffic>, a: Account)
    ensures InQueue(Added(p, key, traffic), a) == InQueue(p, a) + if key == a.key then Sum(traffic, a.uid, a.up) else 0
  {
    hide Merge;
    MergeAdds(UsersOf(p, key), traffic, a.uid, a.up);
  }

  lemma QueueAddBalances(s: State, step: Step, a: Account)
    requires Enabled(s, step) && step.QueueAdd?
    ensures var s' := ApplyQueue(s, step); Inside(s', a) + Outside(s', a) == Inside(s, a) + Outside(s, a)
    ensures Delivered(s, a) ==> Delivered(ApplyQueue(s, step), a)
  {
    var drain := s.drains[step.d];
    DrainUpdate(s.drains, step.d, drain.(phase := Queued, slice := []), a);
    hide InQueue, Added;
    AddedAmount(s.pending, drain.node.key, drain.slice, a);
  }

  lemma RemovedAmount(p: Pending, key: TrafficDestination, a: Account)
    requires key in p
    ensures InQueue(p - {key}, a) == InQueue(p, a) - if key == a.key then InUsers(p[key], a) else 0
  {
  }

  lemma {:induction false} RequestAppend(requests: seq<Request>, r: Request, a: Account)
    ensures InRequests(requests + [r], a) == InRequests(requests, a) + Carried(r, a)
  {
    assert (requests + [r])[..|requests|] == requests;
  }

  // A request carries exactly the amounts of its batch.
  lemma CarriedIsBatch(s: State, step: Step, a: Account)
    requires QueueInv(s) && Enabled(s, step) && step.Push?
    ensures Carried(Request(step.key, step.traffic), a) ==
            if step.key == a.key then InUsers(s.pending[step.key], a) else 0
  {
    ListsSum(step.traffic, s.pending[step.key], a.uid, a.up);
  }

  lemma PushMoves(s: State, step: Step, a: Account)
    requires Enabled(s, step) && step.Push?
    ensures var s' := ApplyQueue(s, step); Inside(s', a) + Outside(s', a) == Inside(s, a) + Outside(s, a)
  {
    hide InQueue, InUsers, InCounters, InFlight, InBatches, OnBills, Lists;
    if step.outcome == Acked {
      RemovedAmount(s.pending, step.key, a);
      BatchAppend(s.acked, Batch(step.key, s.pending[step.key]), a);
    }
  }

  lemma PushDelivers(s: State, step: Step, a: Account)
    requires QueueInv(s) && Enabled(s, step) && step.Push?
    ensures Delivered(s, a) ==> Delivered(ApplyQueue(s, step), a)
  {
    CarriedIsBatch(s, step, a);
    hide InUsers, InBatches, InRequests, Carried, QueueInv, Lists;
    var request := Request(step.key, step.traffic);
    RequestAppend(s.received, request, a);
    if step.outcome == Acked {
      BatchAppend(s.acked, Batch(step.key, s.pending[step.key]), a);
    } else {
      RequestAppend(s.lost, request, a);
    }
  }

  // Every step keeps the books of every account balanced.
  lemma StepBalances(s: State, step: Step, a: Account)
    requires CountersInv(s) && DrainsInv(s) && QueueInv(s) && Enabled(s, step)
    ensures Balanced(s, a) ==> Balanced(Apply(s, step), a)
    ensures Delivered(s, a) ==> Delivered(Apply(s, step), a)
  {
    hide CountersInv, DrainsInv, QueueInv, ApplyCounter, ApplyDrain, ApplyQueue;
    hide InCounters, InFlight, InQueue, InBatches, OnBills, Delivered;
    if IsCounterStep(step) {
      CounterStepBalances(s, step, a);
    } else if step.QueueAdd? {
      QueueAddBalances(s, step, a);
    } else if step.Push? {
      PushMoves(s, step, a);
      PushDelivers(s, step, a);
    } else {
      DrainStepBalances(s, step, a);
    }
  }

  lemma CounterStepKeepsCounters(s: State, step: Step)
    requires CountersInv(s) && Enabled(s, step) && IsCounterStep(step)
    ensures CountersInv(ApplyCounter(s, step))
  {
    if step.DelUser? {
      ForgetKeepsCounters(s.(known := s.known - {step.user}), step.user);
    }
  }

  lemma ForgetKeepsCounters(s: State, user: User)
    requires CountersInv(s)
    ensures CountersInv(Forget(s, user))
  {
  }

  lemma DrainStepKeepsCounters(s: State, step: Step)
    requires CountersInv(s) && DrainsInv(s) && Enabled(s, step) && !IsCounterStep(step) && !IsQueueStep(step)
    ensures CountersInv(ApplyDrain(s, step))
  {
    if step.Settle? {
      var p := s.drains[step.d].phase;
      if !Counted(s, p.user) {
        ForgetKeepsCounters(At(s, step.d, Ranging).(dropped := s.dropped + [Bill(p.user, p.up, p.down)]), p.user);
      }
    }
  }

  // Storages keep their user and never come back to life.
  ghost predicate StoragesGrow(s: State, s': State) {
    && |s.storages| <= |s'.storages|
    && forall i :: 0 <= i < |s.storages| ==>
         s'.storages[i].user == s.storages[i].user && (s'.storages[i].live ==> s.storages[i].live)
  }

  // A handle stays good while its counters live or its user is not counted.
  lemma PhaseStaysOk(s: State, s': State, node: Node, p: Phase)
    requires PhaseOk(s, node, p) && StoragesGrow(s, s')
    requires forall i :: 0 <= i < |s.storages| && s.storages[i].user.node == node ==>
               s.storages[i].live && !s'.storages[i].live ==> !Counted(s', s.storages[i].user)
    requires forall u: User :: u.node == node && Counted(s', u) ==> Counted(s, u)
    ensures PhaseOk(s', node, p)
  {
  }

  lemma CounterStepKeepsDrains(s: State, step: Step)
    requires CountersInv(s) && DrainsInv(s) && Enabled(s, step) && IsCounterStep(step)
    ensures DrainsInv(ApplyCounter(s, step))
  {
    var s' := ApplyCounter(s, step);
    assert StoragesGrow(s, s');
    forall d | 0 <= d < |s.drains| ensures PhaseOk(s', s.drains[d].node, s.drains[d].phase) {
      if s.drains[d].Locks() {
        PhaseStaysOk(s, s', s.drains[d].node, s.drains[d].phase);
      }
    }
  }

  // The drain that takes the step.
  lemma MovedDrainOk(s: State, step: Step, d: nat)
    requires CountersInv(s) && DrainsInv(s) && Enabled(s, step) && !IsCounterStep(step) && !IsQueueStep(step) && !step.Settle?
    requires d < |ApplyDrain(s, step).drains|
    requires d < |s.drains| ==> ApplyDrain(s, step).drains[d] != s.drains[d]
    ensures var s' := ApplyDrain(s, step);
            PhaseOk(s', s'.drains[d].node, s'.drains[d].phase) && s'.drains[d].phase != Queued
  {
  }

  lemma SettledDrainOk(s: State, step: Step, d: nat)
    requires Enabled(s, step) && step.Settle? && d < |s.drains| && ApplyDrain(s, step).drains[d] != s.drains[d]
    ensures ApplyDrain(s, step).drains[d].phase == Ranging
  {
  }

  lemma DrainStepKeepsDrains(s: State, step: Step)
    requires CountersInv(s) && DrainsInv(s) && Enabled(s, step) && !IsCounterStep(step) && !IsQueueStep(step)
    ensures DrainsInv(ApplyDrain(s, step))
  {
    var s' := ApplyDrain(s, step);
    hide CountersInv, PhaseOk, ApplyDrain, Enabled;
    forall d | 0 <= d < |s'.drains|
      ensures PhaseOk(s', s'.drains[d].node, s'.drains[d].phase)
      ensures s'.drains[d].phase == Queued ==> s'.drains[d].slice == []
    {
      if d < |s.drains| && s'.drains[d] == s.drains[d] {
        DrainStepKeepsHandles(s, step, s.drains[d].node, s.drains[d].phase);
      } else if step.Settle? {
        SettledDrainOk(s, step, d);
      } else {
        MovedDrainOk(s, step, d);
      }
    }
  }

  lemma DrainStepKeepsHandles(s: State, step: Step, node: Node, p: Phase)
    requires CountersInv(s) && Enabled(s, step) && !IsCounterStep(step) && !IsQueueStep(step)
    requires PhaseOk(s, node, p)
    ensures PhaseOk(ApplyDrain(s, step), node, p)
  {
    PhaseStaysOk(s, ApplyDrain(s, step), node, p);
  }

  lemma QueueStepKeepsDrains(s: State, step: Step)
    requires DrainsInv(s) && Enabled(s, step) && IsQueueStep(step)
    ensures DrainsInv(ApplyQueue(s, step))
  {
  }

  lemma StepKeepsInv(s: State, step: Step)
    requires Inv(s) && Enabled(s, step)
    ensures Inv(Apply(s, step))
  {
    hide CountersInv, DrainsInv, QueueInv, Balanced, Delivered, ApplyCounter, ApplyDrain, ApplyQueue;
    StepKeepsQueue(s, step);
    forall a ensures Balanced(Apply(s, step), a) && Delivered(Apply(s, step), a) {
      assert Balanced(s, a);
      StepBalances(s, step, a);
    }
    if IsCounterStep(step) {
      CounterStepKeepsCounters(s, step);
      CounterStepKeepsDrains(s, step);
    } else if IsQueueStep(step) {
      QueueStepKeepsCounters(s, step);
      QueueStepKeepsDrains(s, step);
    } else {
      DrainStepKeepsCounters(s, step);
      DrainStepKeepsDrains(s, step);
    }
  }

  // Amounts stay non-negative.
  lemma StepKeepsQueue(s: State, step: Step)
    requires DrainsInv(s) && QueueInv(s) && Enabled(s, step)
    ensures QueueInv(Apply(s, step))
  {
    hide QueueInv, DrainsInv, ApplyCounter, ApplyDrain, ApplyQueue;
    if IsCounterStep(step) {
      CounterStepKeepsQueue(s, step);
    } else if step.QueueAdd? {
      QueueAddKeepsQueue(s, step);
    } else if step.Push? {
      PushKeepsQueue(s, step);
    } else {
      DrainStepKeepsQueue(s, step);
    }
  }

  lemma CounterStepKeepsQueue(s: State, step: Step)
    requires QueueInv(s) && Enabled(s, step) && IsCounterStep(step)
    ensures QueueInv(ApplyCounter(s, step))
  {
    hide FiledByUID, PositiveUsers, Positive;
  }

  lemma DrainStepKeepsQueue(s: State, step: Step)
    requires DrainsInv(s) && QueueInv(s) && Enabled(s, step) && !IsCounterStep(step) && !IsQueueStep(step)
    ensures QueueInv(ApplyDrain(s, step))
  {
    var s' := ApplyDrain(s, step);
    assert s'.pending == s.pending && s'.lost == s.lost;
    hide FiledByUID, PositiveUsers, CountersInv;
  }

  lemma PushKeepsQueue(s: State, step: Step)
    requires QueueInv(s) && Enabled(s, step) && step.Push?
    ensures QueueInv(ApplyQueue(s, step))
  {
    assert Positive(step.traffic);
    hide FiledByUID, PositiveUsers, Positive, Lists;
  }

  lemma QueueAddKeepsQueue(s: State, step: Step)
    requires QueueInv(s) && Enabled(s, step) && step.QueueAdd?
    ensures QueueInv(ApplyQueue(s, step))
  {
    var drain := s.drains[step.d];
    var users := UsersOf(s.pending, drain.node.key);
    assert FiledByUID(users) && PositiveUsers(users) && Positive([]);
    MergeKeepsFiled(users, drain.slice);
    MergePositive(users, drain.slice);
    hide FiledByUID, PositiveUsers, Positive, Merge;
  }

  lemma {:induction false} MergeKeepsFiled(users: Users, traffic: seq<UserTraffic>)
    requires FiledByUID(users)
    ensures FiledByUID(Merge(users, traffic))
  {
    MergeAdds(users, traffic, 0, true);
  }

  lemma {:induction false} MergePositive(users: Users, traffic: seq<UserTraffic>)
    requires PositiveUsers(users) && Positive(traffic)
    ensures PositiveUsers(Merge(users, traffic))
  {
    if traffic != [] {
      MergePositive(users, traffic[..|traffic| - 1]);
    }
  }

  lemma QueueStepKeepsCounters(s: State, step: Step)
    requires CountersInv(s) && Enabled(s, step) && IsQueueStep(step)
    ensures CountersInv(ApplyQueue(s, step))
  {
  }

  lemma ExecutionKeepsInv(states: seq<State>)
    requires Execution(states)
    ensures forall i :: 0 <= i < |states| ==> Inv(states[i])
  {
    hide CountersInv, DrainsInv, Balanced, Delivered;
    forall s | Init(s) ensures Inv(s) {
      InitEstablishes(s);
    }
    forall s, s' | Inv(s) && Next(s, s') ensures Inv(s') {
      var step :| Enabled(s, step) && s' == Apply(s, step);
      StepKeepsInv(s, step);
    }
    Executions.Invariance(Init, Next, Inv, states);
  }

  lemma InitEstablishes(s: State)
    requires Init(s)
    ensures Inv(s)
  {
  }

  // ---------- Main results ----------

  // Conservation: at every moment of every execution, whatever was ever added
  // for a user is in counters, in a drain, in the queue, acknowledged, or was
  // dropped together with a removed user's tag.
  lemma TrafficIsConserved(states: seq<State>, i: nat, a: Account)
    requires Execution(states) && i < |states|
    ensures Balanced(states[i], a)
  {
    ExecutionKeepsInv(states);
    assert Balanced(states[i], a);
  }

  // What the panel has received for a user is at least what it acknowledged, and
  // exactly that if and only if the requests whose reply was lost carried nothing
  // for the user. So bytes leave the node only by reaching the panel or by being
  // dropped.
  lemma {:induction false} DeliveredAtLeastOnce(states: seq<State>, i: nat, a: Account)
    requires Execution(states) && i < |states|
    ensures var s := states[i];
            && InRequests(s.received, a) >= InBatches(s.acked, a)
            && (InRequests(s.received, a) == InBatches(s.acked, a) <==> CarriesNothing(s.lost, a))
            && InRequests(s.received, a) >=
                 OnBills(s.added, a) - OnBills(s.dropped, a)
                 - InCounters(s.storages, a, true) - InCounters(s.storages, a, false)
                 - InFlight(s.drains, a) - InQueue(s.pending, a)
  {
    ExecutionKeepsInv(states);
    var s := states[i];
    assert Balanced(s, a) && Delivered(s, a);
    RequestsPositive(s.lost, a);
  }

  ghost predicate CarriesNothing(requests: seq<Request>, a: Account) {
    forall i :: 0 <= i < |requests| ==> Carried(requests[i], a) == 0
  }

  lemma {:induction false} SumPositive(traffic: seq<UserTraffic>, uid: int64, up: bool)
    requires Positive(traffic)
    ensures Sum(traffic, uid, up) >= 0
  {
    if traffic != [] {
      SumPositive(traffic[..|traffic| - 1], uid, up);
    }
  }

  lemma {:induction false} RequestsPositive(requests: seq<Request>, a: Account)
    requires forall i :: 0 <= i < |requests| ==> Positive(requests[i].traffic)
    ensures InRequests(requests, a) >= 0
    ensures InRequests(requests, a) == 0 <==> CarriesNothing(requests, a)
  {
    if requests != [] {
      var n := |requests| - 1;
      RequestsPositive(requests[..n], a);
      SumPositive(requests[n].traffic, a.uid, a.up);
    }
  }

  // ---------- What is discarded, and when ----------

  // In the hand of a drain that is about to throw it away.
  function DoomedHand(known: set<User>, p: Phase, a: Account): int {
    match p
    case SwappingDown(user, _, _) => if CountedIn(known, user) then 0 else InHand(p, a)
    case Settling(user, _, _) => if CountedIn(known, user) then 0 else InHand(p, a)
    case _ => 0
  }

  function Doomed(known: set<User>, drains: seq<Drain>, a: Account): int {
    if drains == [] then 0
    else Doomed(known, drains[..|drains| - 1], a) + DoomedHand(known, drains[|drains| - 1].phase, a)
  }

  // Bytes that will never be reported: in counters no tag leads to, dropped, or
  // about to be dropped.
  function Discarded(s: State, a: Account): int {
    InCounters(s.storages, a, false) + OnBills(s.dropped, a) + Doomed(s.known, s.drains, a)
  }

  // The steps that can discard bytes: they remove a counter entry, or take the
  // bytes of a user who is no longer counted, or add to counters whose entry is
  // gone already.
  predicate Discards(s: State, step: Step) {
    match step
    case Add(st, _, _) => st < |s.storages| && !s.storages[st].live
    case DelUser(user) => user in s.counters
    case CloseCore(_) => true
    case SwapUp(d) => d < |s.drains| && s.drains[d].phase.SwappingUp? && !Counted(s, s.drains[d].phase.user)
    case SwapDown(d) => d < |s.drains| && s.drains[d].phase.SwappingDown? && !Counted(s, s.drains[d].phase.user)
    case Settle(d) => d < |s.drains| && s.drains[d].phase.Settling? && !Counted(s, s.drains[d].phase.user)
    case _ => false
  }

  lemma {:induction false} DoomedUpdate(known: set<User>, drains: seq<Drain>, i: nat, d: Drain, a: Account)
    requires i < |drains|
    ensures Doomed(known, drains[i := d], a) ==
            Doomed(known, drains, a) - DoomedHand(known, drains[i].phase, a) + DoomedHand(known, d.phase, a)
  {
    var n := |drains| - 1;
    if i == n {
      assert drains[i := d][..n] == drains[..n];
    } else {
      assert drains[i := d][..n] == drains[..n][i := d];
      DoomedUpdate(known, drains[..n], i, d, a);
    }
  }

  lemma {:induction false} DoomedAppend(known: set<User>, drains: seq<Drain>, d: Drain, a: Account)
    ensures Doomed(known, drains + [d], a) == Doomed(known, drains, a) + DoomedHand(known, d.phase, a)
  {
  }

  // Users may come and go while no drain of their core holds the read lock.
  lemma {:induction false} DoomedUnmoved(s: State, drains: seq<Drain>, known: set<User>, user: User, a: Account)
    requires forall d :: d in drains ==> PhaseOk(s, d.node, d.phase)
    requires forall d :: d in drains && d.node.core == user.node.core ==> !d.Locks()
    requires known - {user} == s.known - {user}
    ensures Doomed(known, drains, a) == Doomed(s.known, drains, a)
  {
    if drains != [] {
      var n := |drains| - 1;
      DoomedUnmoved(s, drains[..n], known, user, a);
      assert drains[n] in drains;
      assert forall u: User :: u != user ==> (u in known - {user} <==> u in known);
      assert forall u: User :: u != user ==> (u in s.known - {user} <==> u in s.known);
    }
  }

  lemma {:induction false} ForgetDiscards(s: State, user: User, a: Account)
    requires CountersInv(s)
    ensures var s' := Forget(s, user);
            && InCounters(s'.storages, a, false) >= InCounters(s.storages, a, false)
            && (user !in s.counters ==> s' == s)
            && s' == s.(storages := s'.storages, counters := s'.counters)
  {
    if user in s.counters {
      CounterUpdate(s.storages, s.counters[user], s.storages[s.counters[user]].(live := false), a, false);
    }
  }

  lemma {:induction false} KillDiscards(storages: seq<Storage>, core: nat, a: Account)
    requires forall i :: 0 <= i < |storages| ==> storages[i].up >= 0 && storages[i].down >= 0
    ensures InCounters(Kill(storages, core), a, false) >= InCounters(storages, a, false)
  {
    if storages != [] {
      var n := |storages| - 1;
      assert Kill(storages, core)[..n] == Kill(storages[..n], core);
      KillDiscards(storages[..n], core, a);
    }
  }

  lemma CounterStepDiscards(s: State, step: Step, a: Account)
    requires CountersInv(s) && DrainsInv(s) && Enabled(s, step) && IsCounterStep(step)
    ensures Discarded(ApplyCounter(s, step), a) >= Discarded(s, a)
    ensures Discarded(ApplyCounter(s, step), a) > Discarded(s, a) ==> Discards(s, step)
  {
    hide InCounters, Doomed, OnBills;
    match step
    case GetCounter(user) => CounterAppend(s.storages, Storage(user, 0, 0, true), a, false);
    case Add(st, up, n) =>
      var c := s.storages[st];
      CounterUpdate(s.storages, st, if up then c.(up := c.up + n) else c.(down := c.down + n), a, false);
    case AddUser(user) => DoomedUnmoved(s, s.drains, s.known + {user}, user, a);
    case DelUser(user) =>
      DoomedUnmoved(s, s.drains, s.known - {user}, user, a);
      ForgetDiscards(s.(known := s.known - {user}), user, a);
    case CloseCore(core) => KillDiscards(s.storages, core, a);
  }

  lemma DrainStepDiscards(s: State, step: Step, a: Account)
    requires CountersInv(s) && DrainsInv(s) && Enabled(s, step) && !IsCounterStep(step) && !IsQueueStep(step)
    ensures Discarded(ApplyDrain(s, step), a) >= Discarded(s, a)
    ensures Discarded(ApplyDrain(s, step), a) > Discarded(s, a) ==> Discards(s, step)
  {
    hide InCounters, Doomed, OnBills;
    var s' := ApplyDrain(s, step);
    match step
    case StartDrain(node, min) => DoomedAppend(s.known, s.drains, Drain(node, min, Ranging, []), a);
    case SwapUp(d) => SwapDiscards(s, step, a);
    case SwapDown(d) => SwapDiscards(s, step, a);
    case Settle(d) => SettleDiscards(s, step, a);
    case Visit(d, _) => DoomedUpdate(s.known, s.drains, d, s'.drains[d], a);
    case LoadUp(d) => DoomedUpdate(s.known, s.drains, d, s'.drains[d], a);
    case LoadDown(d) => DoomedUpdate(s.known, s.drains, d, s'.drains[d], a);
    case EndRange(d) => DoomedUpdate(s.known, s.drains, d, s'.drains[d], a);
  }

  lemma SwapDiscards(s: State, step: Step, a: Account)
    requires CountersInv(s) && DrainsInv(s) && Enabled(s, step) && (step.SwapUp? || step.SwapDown?)
    ensures Discarded(ApplyDrain(s, step), a) >= Discarded(s, a)
    ensures Discarded(ApplyDrain(s, step), a) > Discarded(s, a) ==> Discards(s, step)
  {
    hide InCounters, Doomed, OnBills;
    var p := s.drains[step.d].phase;
    var c := s.storages[p.storage];
    CounterUpdate(s.storages, p.storage, if step.SwapUp? then c.(up := 0) else c.(down := 0), a, false);
    DoomedUpdate(s.known, s.drains, step.d, ApplyDrain(s, step).drains[step.d], a);
  }

  lemma SettleDiscards(s: State, step: Step, a: Account)
    requires CountersInv(s) && DrainsInv(s) && Enabled(s, step) && step.Settle?
    ensures Discarded(ApplyDrain(s, step), a) >= Discarded(s, a)
    ensures Discarded(ApplyDrain(s, step), a) > Discarded(s, a) ==> Discards(s, step)
  {
    var d, p := step.d, s.drains[step.d].phase;
    DoomedUpdate(s.known, s.drains, d, ApplyDrain(s, step).drains[d], a);
    if !Counted(s, p.user) {
      BillAppend(s.dropped, Bill(p.user, p.up, p.down), a);
      ForgetDiscards(At(s, d, Ranging).(dropped := s.dropped + [Bill(p.user, p.up, p.down)]), p.user, a);
    }
  }

  // Over any execution the discarded bytes never shrink, and they grow only in a
  // step that removes a counter entry, drains a user who is no longer counted,
  // or adds to counters whose entry is already gone.
  lemma DiscardedOnlyByRemoval(states: seq<State>, i: nat, a: Account)
    requires Execution(states) && i + 1 < |states|
    ensures Discarded(states[i + 1], a) >= Discarded(states[i], a)
    ensures Discarded(states[i + 1], a) > Discarded(states[i], a) ==>
              exists step :: Enabled(states[i], step) && states[i + 1] == Apply(states[i], step) && Discards(states[i], step)
  {
    ExecutionKeepsInv(states);
    assert Executions.StepsAt(Next, states, i);
    var s := states[i];
    var step :| Enabled(s, step) && states[i + 1] == Apply(s, step);
    hide CountersInv, DrainsInv, Balanced, Delivered, ApplyCounter, ApplyDrain, Discarded, Discards;
    if IsCounterStep(step) {
      CounterStepDiscards(s, step, a);
    } else if IsQueueStep(step) {
      QueueStepDiscards(s, step, a);
    } else {
      DrainStepDiscards(s, step, a);
    }
  }

  lemma QueueStepDiscards(s: State, step: Step, a: Account)
    requires Enabled(s, step) && IsQueueStep(step)
    ensures Discarded(ApplyQueue(s, step), a) == Discarded(s, a)
  {
    if step.QueueAdd? {
      DoomedUpdate(s.known, s.drains, step.d, s.drains[step.d].(phase := Queued, slice := []), a);
    }
  }

  // ---------- What a drain takes ----------

  // Steps taken one after the other, with nothing in between.
  ghost predicate Leads(s: State, steps: seq<Step>, s': State)
    decreases |steps|
  {
    if steps == [] then s' == s
    else Enabled(s, steps[0]) && Leads(Apply(s, steps[0]), steps[1..], s')
  }

  // The steps of a visit of drain d after its beginning.
  predicate Visiting(steps: seq<Step>, d: nat) {
    forall step :: step in steps ==> step in {LoadUp(d), LoadDown(d), SwapUp(d), SwapDown(d), Settle(d)}
  }

  // A visit that nobody interferes with takes both counters of a counted user to
  // the slice, and leaves zeros behind, if together they exceed the threshold. Then
  // the entry of an uncounted user is forgotten, and its bytes are dropped. At or
  // under the threshold nothing changes.
  lemma VisitTakes(s: State, d: nat, user: User, steps: seq<Step>, s': State)
    requires CountersInv(s) && Enabled(s, Visit(d, user))
    requires Visiting(steps, d) && Leads(Apply(s, Visit(d, user)), steps, s')
    requires d < |s'.drains| && s'.drains[d].phase == Ranging
    ensures var i := s.counters[user];
            var c := s.storages[i];
            if c.up + c.down <= s.drains[d].min then s' == s
            else if Counted(s, user) then
              s' == s.(storages := s.storages[i := c.(up := 0, down := 0)],
                       drains := s.drains[d := s.drains[d].(
                         slice := s.drains[d].slice + [UserTraffic(user.uid, c.up, c.down)])])
            else
              s' == s.(storages := s.storages[i := c.(up := 0, down := 0, live := false)],
                       counters := s.counters - {user}, dropped := s.dropped + [Bill(user, c.up, c.down)])
  {
    var i := s.counters[user];
    var s1 := Apply(s, Visit(d, user));
    VisitLoads(s, d, user);
    hide Apply, Enabled, Leads, Visiting, CountersInv;
    OneStep(s1, d, steps, s');
    var s2 := Apply(s1, LoadUp(d));
    OneStep(s2, d, steps[1..], s');
    var s3 := Apply(s2, LoadDown(d));
    if s.storages[i].up + s.storages[i].down <= s.drains[d].min {
      NothingMore(s3, d, steps[1..][1..], s');
    } else {
      KeepsCountersInv(s, s3);
      SwapsOut(s3, d, user, i, steps[1..][1..], s');
    }
  }

  lemma VisitLoads(s: State, d: nat, user: User)
    requires CountersInv(s) && Enabled(s, Visit(d, user))
    ensures var i := s.counters[user];
            var c, s1 := s.storages[i], Apply(s, Visit(d, user));
            && s1 == s.(drains := s.drains[d := s.drains[d].(phase := LoadingUp(user, i))])
            && Enabled(s1, LoadUp(d))
            && var s2 := Apply(s1, LoadUp(d));
            && s2 == s.(drains := s.drains[d := s.drains[d].(phase := LoadingDown(user, i, c.up))])
            && Enabled(s2, LoadDown(d))
            && Apply(s2, LoadDown(d)) ==
                 if c.up + c.down <= s.drains[d].min then s
                 else s.(drains := s.drains[d := s.drains[d].(phase := SwappingUp(user, i))])
  {
    assert s.drains[d := s.drains[d].(phase := Ranging)] == s.drains;
  }

  lemma KeepsCountersInv(s: State, s': State)
    requires CountersInv(s) && s' == s.(drains := s'.drains)
    ensures CountersInv(s')
  {
  }

  // In the middle of a visit the phase determines the next step.
  function NextOf(d: nat, p: Phase): Step {
    match p
    case LoadingUp(_, _) => LoadUp(d)
    case LoadingDown(_, _, _) => LoadDown(d)
    case SwappingUp(_, _) => SwapUp(d)
    case SwappingDown(_, _, _) => SwapDown(d)
    case _ => Settle(d)
  }

  lemma OneStep(s: State, d: nat, steps: seq<Step>, s': State)
    requires d < |s.drains| && s.drains[d].phase != Ranging
    requires Visiting(steps, d) && Leads(s, steps, s') && d < |s'.drains| && s'.drains[d].phase == Ranging
    ensures steps != [] && steps[0] == NextOf(d, s.drains[d].phase) && Enabled(s, steps[0])
    ensures Visiting(steps[1..], d) && Leads(Apply(s, steps[0]), steps[1..], s')
  {
    assert steps != [];
    var first := steps[0];
    assert first in steps;
    assert forall step :: step in steps[1..] ==> step in steps;
    hide Apply, Visiting, Leads;
  }

  lemma NothingMore(s: State, d: nat, steps: seq<Step>, s': State)
    requires d < |s.drains| && s.drains[d].phase == Ranging && Visiting(steps, d) && Leads(s, steps, s')
    ensures s' == s
  {
    assert forall step :: step in steps ==> !Enabled(s, step);
  }

  lemma SwapsOut(s: State, d: nat, user: User, i: nat, steps: seq<Step>, s': State)
    requires CountersInv(s) && d < |s.drains| && s.drains[d].phase == SwappingUp(user, i)
    requires user in s.counters && s.counters[user] == i
    requires Visiting(steps, d) && Leads(s, steps, s')
    requires d < |s'.drains| && s'.drains[d].phase == Ranging
    ensures var c := s.storages[i];
            var drain := s.drains[d].(phase := Ranging);
            if Counted(s, user) then
              s' == s.(storages := s.storages[i := c.(up := 0, down := 0)],
                       drains := s.drains[d := drain.(slice := drain.slice + [UserTraffic(user.uid, c.up, c.down)])])
            else
              s' == s.(storages := s.storages[i := c.(up := 0, down := 0, live := false)],
                       counters := s.counters - {user}, drains := s.drains[d := drain],
                       dropped := s.dropped + [Bill(user, c.up, c.down)])
  {
    SwapsSettle(s, d, user, i);
    hide Apply, Enabled, Leads, Visiting, CountersInv, Counted;
    OneStep(s, d, steps, s');
    var s1 := Apply(s, SwapUp(d));
    OneStep(s1, d, steps[1..], s');
    var s2 := Apply(s1, SwapDown(d));
    OneStep(s2, d, steps[1..][1..], s');
    NothingMore(Apply(s2, Settle(d)), d, steps[1..][1..][1..], s');
  }

  lemma SwapsSettle(s: State, d: nat, user: User, i: nat)
    requires CountersInv(s) && d < |s.drains| && s.drains[d].phase == SwappingUp(user, i)
    requires user in s.counters && s.counters[user] == i
    ensures var c, drain := s.storages[i], s.drains[d];
            && Enabled(s, SwapUp(d))
            && var s1 := Apply(s, SwapUp(d));
            && s1 == s.(storages := s.storages[i := c.(up := 0)],
                        drains := s.drains[d := drain.(phase := SwappingDown(user, i, c.up))])
            && Enabled(s1, SwapDown(d))
            && var s2 := Apply(s1, SwapDown(d));
            && s2 == s.(storages := s.storages[i := c.(up := 0, down := 0)],
                        drains := s.drains[d := drain.(phase := Settling(user, c.up, c.down))])
            && Settles(s, s2, d, user, i)
  {
    var c, drain := s.storages[i], s.drains[d];
    SwapUpTakes(s, d, user, i);
    var s1 := Apply(s, SwapUp(d));
    SwapDownTakes(s1, d, user, i);
    var s2 := s.(storages := s.storages[i := c.(up := 0, down := 0)],
                 drains := s.drains[d := drain.(phase := Settling(user, c.up, c.down))]);
    SettleTakes(s, s2, d, user, i);
    hide *;
  }

  lemma SwapUpTakes(s: State, d: nat, user: User, i: nat)
    requires d < |s.drains| && s.drains[d].phase == SwappingUp(user, i) && i < |s.storages|
    ensures Enabled(s, SwapUp(d))
    ensures Apply(s, SwapUp(d)) ==
      s.(storages := s.storages[i := s.storages[i].(up := 0)],
         drains := s.drains[d := s.drains[d].(phase := SwappingDown(user, i, s.storages[i].up))])
  {
  }

  lemma SwapDownTakes(s: State, d: nat, user: User, i: nat)
    requires d < |s.drains| && s.drains[d].phase.SwappingDown? && i < |s.storages|
    requires s.drains[d].phase.user == user && s.drains[d].phase.storage == i
    ensures Enabled(s, SwapDown(d))
    ensures Apply(s, SwapDown(d)) ==
      s.(storages := s.storages[i := s.storages[i].(down := 0)],
         drains := s.drains[d := s.drains[d].(phase := Settling(user, s.drains[d].phase.up, s.storages[i].down))])
  {
  }

  lemma SettleTakes(s: State, s2: State, d: nat, user: User, i: nat)
    requires CountersInv(s) && d < |s.drains| && user in s.counters && s.counters[user] == i
    requires var c := s.storages[i];
             s2 == s.(storages := s.storages[i := c.(up := 0, down := 0)],
                      drains := s.drains[d := s.drains[d].(phase := Settling(user, c.up, c.down))])
    ensures Settles(s, s2, d, user, i)
  {
  }

  // The end of a visit.
  ghost predicate Settles(s: State, s2: State, d: nat, user: User, i: nat)
    requires i < |s.storages| && d < |s.drains|
  {
    var c, drain := s.storages[i], s.drains[d].(phase := Ranging);
    && Enabled(s2, Settle(d))
    && Apply(s2, Settle(d)) ==
         if Counted(s, user) then
           s.(storages := s.storages[i := c.(up := 0, down := 0)],
              drains := s.drains[d := drain.(slice := drain.slice + [UserTraffic(user.uid, c.up, c.down)])])
         else
           s.(storages := s.storages[i := c.(up := 0, down := 0, live := false)],
              counters := s.counters - {user}, drains := s.drains[d := drain],
              dropped := s.dropped + [Bill(user, c.up, c.down)])
  }

  // What drain d has seen of the counters it visits, by the state at position i:
  // the up counter when it loaded that one, at an earlier position j.
  ghost predicate SawUp(states: seq<State>, i: nat, d: nat, st: nat, seen: int, j: nat) {
    && j < i < |states| && d < |states[j].drains|
    && states[j].drains[d].phase.LoadingUp? && states[j].drains[d].phase.storage == st
    && st < |states[j].storages| && states[j].storages[st].up == seen
  }

  // Both counters, the down counter at k after the up counter at j, came to more
  // than the threshold.
  ghost predicate SawEnough(states: seq<State>, i: nat, d: nat, st: nat, j: nat, k: nat) {
    && k < i < |states| && d < |states[i].drains|
    && st < |states[k].storages| && d < |states[k].drains| && states[k].drains[d].phase.LoadingDown?
    && states[k].drains[d].phase.storage == st
    && SawUp(states, k, d, st, states[k].drains[d].phase.seenUp, j)
    && states[j].storages[st].up + states[k].storages[st].down > states[i].drains[d].min
  }

  lemma {:induction false} LoadedBefore(states: seq<State>, i: nat, d: nat) returns (j: nat)
    requires Execution(states) && i < |states| && d < |states[i].drains| && states[i].drains[d].phase.LoadingDown?
    ensures SawUp(states, i, d, states[i].drains[d].phase.storage, states[i].drains[d].phase.seenUp, j)
    decreases i
  {
    var step := StepBefore(states, i);
    var s := states[i - 1];
    hide Execution;
    if step == LoadUp(d) {
      j := i - 1;
    } else {
      OtherDrainsStay(s, step, d);
      j := LoadedBefore(states, i - 1, d);
    }
  }

  lemma StepBefore(states: seq<State>, i: nat) returns (step: Step)
    requires Execution(states) && i < |states| && states[i].drains != []
    ensures i > 0 && Enabled(states[i - 1], step) && states[i] == Apply(states[i - 1], step)
  {
    assert i > 0;
    assert Executions.StepsAt(Next, states, i - 1);
    step :| Enabled(states[i - 1], step) && states[i] == Apply(states[i - 1], step);
  }

  // Only its own loads bring a drain to its next load or to its swaps.
  lemma OtherDrainsStay(s: State, step: Step, d: nat)
    requires Enabled(s, step) && d < |Apply(s, step).drains|
    requires var p := Apply(s, step).drains[d].phase;
             (p.LoadingDown? && step != LoadUp(d)) || (p.SwappingUp? && step != LoadDown(d))
    ensures d < |s.drains| && Apply(s, step).drains[d] == s.drains[d]
  {
  }

  // Over every execution, whatever links, other drains and user updates do in
  // between: a drain goes on to swap counters out only if what it loaded from them
  // came to more than its threshold.
  lemma {:induction false} SwapsOnlyAboveMin(states: seq<State>, i: nat, d: nat) returns (j: nat, k: nat)
    requires Execution(states) && i < |states| && d < |states[i].drains| && states[i].drains[d].phase.SwappingUp?
    ensures SawEnough(states, i, d, states[i].drains[d].phase.storage, j, k)
    decreases i
  {
    var step := StepBefore(states, i);
    var s := states[i - 1];
    hide Execution;
    if step == LoadDown(d) {
      k := i - 1;
      j := LoadedBefore(states, k, d);
    } else {
      OtherDrainsStay(s, step, d);
      j, k := SwapsOnlyAboveMin(states, i - 1, d);
    }
  }

  // A drain can start at any time on every core that is open, beside any others, and
  // starts with nothing.
  lemma DrainBegins(s: State, node: Node, min: int)
    ensures Enabled(s, StartDrain(node, min)) <==> node.core !in s.closed
    ensures Enabled(s, StartDrain(node, min)) ==>
      Apply(s, StartDrain(node, min)) == s.(drains := s.drains + [Drain(node, min, Ranging, [])])
  {
  }

  // A drain keeps the node and the threshold that it was started with.
  lemma {:induction false} AsStarted(states: seq<State>, i: nat, d: nat) returns (j: nat)
    requires Execution(states) && i < |states| && d < |states[i].drains|
    ensures j < i && |states[j].drains| == d
    ensures var drain := states[i].drains[d];
            && Enabled(states[j], StartDrain(drain.node, drain.min))
            && states[j + 1] == Apply(states[j], StartDrain(drain.node, drain.min))
    decreases i
  {
    var step := StepBefore(states, i);
    var s := states[i - 1];
    hide Execution;
    if d == |s.drains| {
      j := i - 1;
    } else {
      assert states[i].drains[d].node == s.drains[d].node && states[i].drains[d].min == s.drains[d].min;
      j := AsStarted(states, i - 1, d);
    }
  }

  // A drain is never stuck: in the middle of a visit its next step can be taken, in
  // between it can visit every entry of its node or end its range, and after that
  // its slice can be queued.
  lemma DrainGoesOn(states: seq<State>, i: nat, d: nat)
    requires Execution(states) && i < |states| && d < |states[i].drains|
    ensures var s, drain := states[i], states[i].drains[d];
            match drain.phase
            case Ranging => Enabled(s, EndRange(d)) &&
              forall user :: user in s.counters && user.node == drain.node ==> Enabled(s, Visit(d, user))
            case Unlocked => Enabled(s, QueueAdd(d))
            case Queued => drain.slice == []
            case p => Enabled(s, NextOf(d, p))
  {
    ExecutionKeepsInv(states);
    assert PhaseOk(states[i], states[i].drains[d].node, states[i].drains[d].phase);
  }

  // ---------- What users and links do to the counters ----------

  // A link gets the pair that its user's tag leads to, or a new one of zeros.
  lemma LinkGetsPair(s: State, user: User)
    requires CountersInv(s) && Enabled(s, GetCounter(user))
    ensures var s' := Apply(s, GetCounter(user));
            && s' == s.(counters := s'.counters, storages := s'.storages)
            && user in s'.counters && s'.counters - {user} == s.counters - {user}
            && (user in s.counters ==> s' == s)
            && (user !in s.counters ==> s'.counters[user] == |s.storages|)
            && (user !in s.counters ==> s'.storages == s.storages + [Storage(user, 0, 0, true)])
  {
  }

  // Users with a panel ID are counted from the moment they are added until they are
  // removed; then their tag leads nowhere. Nothing else changes who is counted.
  lemma CountedFromAddToDel(s: State, step: Step, user: User)
    requires CountersInv(s) && Enabled(s, step)
    ensures Counted(Apply(s, step), user) <==>
      (step == AddUser(user) && user.uid != 0) || (Counted(s, user) && step != DelUser(user))
    ensures step == DelUser(user) ==> user !in Apply(s, step).counters
  {
  }

  // Closing a core takes its counters away and keeps new links and drains from it.
  lemma ClosedCore(s: State, core: nat)
    requires CountersInv(s) && Enabled(s, CloseCore(core))
    ensures var s' := Apply(s, CloseCore(core));
            && (forall user: User :: user in s'.counters <==> user in s.counters && user.node.core != core)
            && (forall user: User :: user in s'.counters ==> s'.counters[user] == s.counters[user])
            && (forall user: User :: user.node.core == core ==> !Enabled(s', GetCounter(user)))
            && (forall node: Node, min: int :: node.core == core ==> !Enabled(s', StartDrain(node, min)))
            && |s'.storages| == |s.storages|
            && (forall i :: 0 <= i < |s.storages| ==>
                  && s'.storages[i].live == (s.storages[i].live && s.storages[i].user.node.core != core)
                  && s'.storages[i] == s.storages[i].(live := s'.storages[i].live))
  {
  }

  // What links add is in the counters, to the byte.
  lemma LinkAdds(s: State, st: nat, up: bool, n: nat, a: Account)
    requires CountersInv(s) && Enabled(s, Add(st, up, n))
    ensures var s', user := Apply(s, Add(st, up, n)), s.storages[st].user;
            var more := if a.Owns(user) && a.up == up then n else 0;
            && Inside(s', a) == Inside(s, a) + more && OnBills(s'.added, a) == OnBills(s.added, a) + more
            && s' == s.(storages := s'.storages, added := s'.added)
  {
    var c := s.storages[st];
    var c' := if up then c.(up := c.up + n) else c.(down := c.down + n);
    CounterUpdate(s.storages, st, c', a, true);
    CounterUpdate(s.storages, st, c', a, false);
    BillAppend(s.added, if up then Bill(c.user, n, 0) else Bill(c.user, 0, n), a);
  }

  // When the range of a drain is over its whole slice goes to the queue: for each user
  // what is waiting for the panel grows by what was taken.
  lemma SliceIsQueued(s: State, d: nat, a: Account)
    requires Enabled(s, EndRange(d))
    ensures var s1 := Apply(s, EndRange(d));
            && Enabled(s1, QueueAdd(d))
            && var s2 := Apply(s1, QueueAdd(d));
            && s2 == s.(drains := s.drains[d := s.drains[d].(phase := Queued, slice := [])], pending := s2.pending)
            && InQueue(s2.pending, a) ==
                 InQueue(s.pending, a) + if s.drains[d].node.key == a.key then Sum(s.drains[d].slice, a.uid, a.up) else 0
  {
    var slice, key := s.drains[d].slice, s.drains[d].node.key;
    MergeAdds(UsersOf(s.pending, key), slice, a.uid, a.up);
  }

  // An acknowledged batch is not waiting any more and has been acknowledged to the
  // byte; one whose reply is lost still waits although the panel has it; one that is
  // refused still waits, and the panel has nothing.
  lemma PushOutcomes(s: State, step: Step, a: Account)
    requires QueueInv(s) && Enabled(s, step) && step.Push?
    ensures var s', ours := Apply(s, step), a.key == step.key;
            && s' == s.(pending := s'.pending, acked := s'.acked, received := s'.received, lost := s'.lost)
            && InQueue(s'.pending, a) == (if ours && step.outcome == Acked then 0 else InQueue(s.pending, a))
            && InBatches(s'.acked, a) ==
                 InBatches(s.acked, a) + (if ours && step.outcome == Acked then InQueue(s.pending, a) else 0)
            && InRequests(s'.received, a) ==
                 InRequests(s.received, a) + (if ours && step.outcome != Refused then InQueue(s.pending, a) else 0)
            && (step.outcome == Refused ==> s' == s)
            && (step.outcome == Lost ==> s'.pending == s.pending && s'.acked == s.acked)
  {
    var request := Request(step.key, step.traffic);
    BatchAppend(s.acked, Batch(step.key, s.pending[step.key]), a);
    RequestAppend(s.received, request, a);
    CarriedIsBatch(s, step, a);
    hide Lists, FiledByUID, PositiveUsers, Carried;
  }
}
