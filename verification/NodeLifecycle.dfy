// Node controllers, one for each protocol, and the node that drives them. Every
// step that can fail does so nondeterministically.
module NodeLifecycle {
  // An Xray core, named by its identity; its reload channel is a name as well.
  class Core {
    var reloadCh: int

    constructor ()
      ensures reloadCh == 0
    {
      reloadCh := 0;
    }
  }

  // The queue of traffic that is not acknowledged yet.
  class Queue {
    constructor () {}
  }

  // A listener going up: which listeners were up, which cores were closed, and how
  // many panel requests had been made.
  datatype Up = Up(c: Controller, up: set<Controller>, closed: set<Core>, requests: nat)

  // What the outside has seen so far. A controller is in up between AddNodeConfig
  // and DelNode or the close of its core; stops counts its successful DelNodes, and collected the queues
  // that final traffic went to.
  datatype History = History(
    requests: nat,
    up: set<Controller>,
    closed: set<Core>,
    starts: seq<Up>,
    stops: multiset<Controller>,
    collected: seq<Queue>)

  ghost function Without(h: History, core: Core): History {
    h.(closed := h.closed + {core}, up := set c | c in h.up && c.server != core)
  }

  // The steps that can fail, and what came of them.
  datatype Deed =
    | Config | Settings | Validation | CoreStart | Client
    | SelfCertificate | Users | Alive | Certificate | Inbound
    | Listener | AddUsers

  datatype Tried = Tried(deed: Deed, ok: bool)

  // Some more steps have been tried, and ok says whether all of them worked out.
  ghost predicate Tells(before: seq<Tried>, after: seq<Tried>, ok: bool) {
    before <= after && (ok <==> forall i :: |before| <= i < |after| ==> after[i].ok)
  }

  lemma TellsTwice(a: seq<Tried>, b: seq<Tried>, c: seq<Tried>, ok: bool)
    requires Tells(a, b, true) && Tells(b, c, ok)
    ensures Tells(a, c, ok)
  {
    assert forall i :: |a| <= i < |b| ==> c[i] == b[i];
    if !ok {
      var i :| |b| <= i < |c| && !c[i].ok;
      assert !c[i].ok;
    }
  }

  lemma TellsNothing(a: seq<Tried>)
    ensures Tells(a, a, true)
  {
  }

  lemma TellsOne(a: seq<Tried>, t: Tried)
    ensures Tells(a, a + [t], t.ok)
  {
    assert (a + [t])[|a|] == t;
  }

  class World {
    ghost var h: History
    ghost var log: seq<Tried>

    method Try(deed: Deed) returns (ok: bool)
      modifies this`log
      ensures log == old(log) + [Tried(deed, ok)]
    {
      ok := *;
      log := log + [Tried(deed, ok)];
    }

    // A request to the panel.
    method Ask(deed: Deed) returns (ok: bool)
      modifies this
      ensures h == old(h).(requests := old(h).requests + 1)
      ensures log == old(log) + [Tried(deed, ok)]
    {
      h := h.(requests := h.requests + 1);
      ok := Try(deed);
    }

    method AddNodeConfig(c: Controller) returns (ok: bool)
      modifies this
      ensures log == old(log) + [Tried(Listener, ok)]
      ensures h == if !ok then old(h)
                   else old(h).(up := old(h).up + {c},
                                starts := old(h).starts + [Up(c, old(h).up, old(h).closed, old(h).requests)])
    {
      ok := Try(Listener);
      if ok {
        h := h.(up := h.up + {c}, starts := h.starts + [Up(c, h.up, h.closed, h.requests)]);
      }
    }

    method DelNode(c: Controller) returns (ok: bool)
      modifies this`h
      ensures h == if !ok then old(h) else old(h).(up := old(h).up - {c}, stops := old(h).stops + multiset{c})
    {
      ok := *;
      if ok {
        h := h.(up := h.up - {c}, stops := h.stops + multiset{c});
      }
    }

    method Collect(queue: Queue)
      modifies this`h
      ensures h == old(h).(collected := old(h).collected + [queue])
    {
      h := h.(collected := h.collected + [queue]);
    }

    // A core that is closed takes its listeners with it.
    method CloseCore(core: Core)
      modifies this`h
      ensures h == Without(old(h), core)
    {
      h := Without(h, core);
    }
  }

  // What operations on some controllers may do: they start and stop only those,
  // close no core, and collect only into their queue.
  ghost predicate Grows(h: History, h': History, cs: set<Controller>, queue: Queue) {
    && h'.closed == h.closed && h'.up - cs == h.up - cs
    && h.requests <= h'.requests && h.stops <= h'.stops && h.starts <= h'.starts && h.collected <= h'.collected
    && (forall i :: |h.starts| <= i < |h'.starts| ==> StartsAmong(h, h', cs, h'.starts[i]))
    && (forall i :: |h.collected| <= i < |h'.collected| ==> h'.collected[i] == queue)
    && (forall c :: c in h'.stops && c !in cs ==> h'.stops[c] == h.stops[c])
  }

  ghost predicate StartsAmong(h: History, h': History, cs: set<Controller>, e: Up) {
    e.c in cs && e.up <= h.up + cs && e.closed == h.closed && h.requests <= e.requests <= h'.requests
  }

  lemma GrowsTwice(h: History, h': History, h'': History, cs: set<Controller>, queue: Queue)
    requires Grows(h, h', cs, queue) && Grows(h', h'', cs, queue)
    ensures Grows(h, h'', cs, queue)
  {
    assert h.starts <= h''.starts;
    assert h'.up <= (h'.up - cs) + cs;
    forall i | |h.starts| <= i < |h''.starts| ensures StartsAmong(h, h'', cs, h''.starts[i]) {
      assert i < |h'.starts| ==> h''.starts[i] == h'.starts[i];
      assert i < |h'.starts| ==> StartsAmong(h, h', cs, h'.starts[i]);
      assert i >= |h'.starts| ==> StartsAmong(h', h'', cs, h''.starts[i]);
    }
    forall i | |h.collected| <= i < |h''.collected| ensures h''.collected[i] == queue {
      assert i < |h'.collected| ==> h''.collected[i] == h'.collected[i];
    }
  }

  lemma GrowsMore(h: History, h': History, some: set<Controller>, cs: set<Controller>, queue: Queue)
    requires Grows(h, h', some, queue) && some <= cs
    ensures Grows(h, h', cs, queue)
  {
    assert h'.up - cs == (h'.up - some) - cs && h.up - cs == (h.up - some) - cs;
    forall i | |h.starts| <= i < |h'.starts| ensures StartsAmong(h, h', cs, h'.starts[i]) {
      assert StartsAmong(h, h', some, h'.starts[i]);
    }
  }

  lemma OthersKeep(h: History, h': History, c: Controller, queue: Queue, cs: set<Controller>)
    requires Grows(h, h', {c}, queue)
    ensures forall d :: d in cs && d != c ==> (d in h'.up <==> d in h.up) && h'.stops[d] == h.stops[d]
  {
    forall d | d in cs && d != c ensures (d in h'.up <==> d in h.up) && h'.stops[d] == h.stops[d] {
      assert d in h'.up <==> d in h'.up - {c};
      assert d in h.up <==> d in h.up - {c};
    }
  }

  lemma GrowsByAsking(h: History, h': History, cs: set<Controller>, queue: Queue)
    requires h' == h.(requests := h'.requests) && h.requests <= h'.requests
    ensures Grows(h, h', cs, queue)
  {
  }

  // ---------- Controllers ----------

  // What a protocol needs: whether it is switched on, whether its certificate is
  // self-signed, and whether it is one that is renewed.
  datatype Protocol = Protocol(enable: bool, tls: bool, selfSigned: bool, renewed: bool)

  // prepared, started; whether it has a limiter and the limiter is registered with
  // the core; whether its user list and certificate tasks run.
  datatype Status = Status(
    prepared: bool, started: bool, hasLimiter: bool, registered: bool, monitoring: bool, renewing: bool)

  // What preparing a controller takes, in order. A self-signed certificate comes
  // first, any other one last but the inbound.
  function Plan(p: Protocol): seq<Deed> {
    (if p.tls && p.selfSigned then [SelfCertificate] else []) + [Users, Alive] +
    (if p.tls && !p.selfSigned then [Certificate] else []) + [Inbound]
  }

  // The first steps of a plan have been tried, and worked out except for the last
  // one, of which ok tells.
  ghost predicate Follows(tried: seq<Tried>, plan: seq<Deed>, ok: bool) {
    && |tried| <= |plan|
    && (forall i :: 0 <= i < |tried| ==> tried[i].deed == plan[i])
    && (forall i :: 0 <= i < |tried| - 1 ==> tried[i].ok)
    && if tried == [] then ok else tried[|tried| - 1].ok == ok
  }

  lemma FollowOn(tried: seq<Tried>, plan: seq<Deed>, ok: bool)
    requires Follows(tried, plan, true) && |tried| < |plan|
    ensures Follows(tried + [Tried(plan[|tried|], ok)], plan, ok)
  {
  }

  lemma FollowsTells(before: seq<Tried>, tried: seq<Tried>, plan: seq<Deed>, ok: bool)
    requires Follows(tried, plan, ok)
    ensures Tells(before, before + tried, ok) && (before + tried)[|before|..] == tried
  {
    var after := before + tried;
    assert forall i :: |before| <= i < |after| ==> after[i] == tried[i - |before|];
    if !ok {
      assert after[|after| - 1] == tried[|tried| - 1];
    }
  }

  class Controller {
    const server: Core
    const protocol: Protocol
    var s: Status
    var traffic: Queue

    constructor (server: Core, protocol: Protocol, traffic: Queue)
      ensures this.server == server && this.protocol == protocol && this.traffic == traffic
      ensures s == Status(false, false, false, false, false, false)
    {
      this.server, this.protocol, this.traffic := server, protocol, traffic;
      s := Status(false, false, false, false, false, false);
    }

    // The tasks run only while the listener is up, and only prepared controllers
    // have one.
    ghost predicate In(h: History)
      reads this
    {
      && (this in h.up <==> s.started && server !in h.closed)
      && (s.started ==> s.prepared && s.hasLimiter)
      && (s.monitoring ==> s.started) && (s.renewing ==> s.monitoring)
    }

    // Up, with its tasks.
    predicate Serving()
      reads this
    {
      s.started && s.monitoring && s.renewing == (protocol.tls && protocol.renewed)
    }

    method Prepare(w: World) returns (ok: bool)
      requires In(w.h)
      modifies this`s, w
      ensures In(w.h) && w.h == old(w.h).(requests := w.h.requests) && old(w.h.requests) <= w.h.requests
      ensures s == old(s).(prepared := ok)
      ensures old(s.prepared) ==> ok && w.h == old(w.h) && w.log == old(w.log)
      ensures Tells(old(w.log), w.log, ok)
      ensures old(!s.prepared) ==>
        && w.h.requests <= old(w.h.requests) + 2 && (ok ==> w.h.requests == old(w.h.requests) + 2)
        && |old(w.log)| < |w.log| && (ok ==> |w.log| == |old(w.log)| + |Plan(protocol)|)
        && Follows(w.log[|old(w.log)|..], Plan(protocol), ok)
    {
      if s.prepared {
        TellsNothing(w.log);
        return true;
      }
      ghost var tried;
      ok, tried := Fetch(w);
      FollowsTells(old(w.log), tried, Plan(protocol), ok);
      hide Tells, Follows, Plan;
      if ok {
        s := s.(prepared := true);
      }
    }

    // Goes through the plan until a step fails; two of the steps ask the panel.
    method Fetch(w: World) returns (ok: bool, ghost tried: seq<Tried>)
      modifies w
      ensures w.h == old(w.h).(requests := w.h.requests)
      ensures old(w.h.requests) <= w.h.requests <= old(w.h.requests) + 2
      ensures ok ==> w.h.requests == old(w.h.requests) + 2 && |tried| == |Plan(protocol)|
      ensures w.log == old(w.log) + tried && tried != [] && Follows(tried, Plan(protocol), ok)
    {
      ghost var plan := Plan(protocol);
      tried := [];
      assert Follows(tried, plan, true);
      hide Follows;
      var selfCertificate := protocol.tls && protocol.selfSigned;
      if selfCertificate {
        ok := w.Try(SelfCertificate);
        FollowOn(tried, plan, ok);
        tried := tried + [Tried(SelfCertificate, ok)];
        if !ok {
          return;
        }
      }
      ok, tried := AskPanel(w, tried, plan);
      if !ok {
        return;
      }
      if protocol.tls && !selfCertificate {
        ok := w.Try(Certificate);
        FollowOn(tried, plan, ok);
        tried := tried + [Tried(Certificate, ok)];
        if !ok {
          return;
        }
      }
      ok := w.Try(Inbound);
      FollowOn(tried, plan, ok);
      tried := tried + [Tried(Inbound, ok)];
    }

    // The user list and the devices that are online.
    method AskPanel(w: World, ghost before: seq<Tried>, ghost plan: seq<Deed>) returns (ok: bool, ghost tried: seq<Tried>)
      requires |before| + 2 <= |plan| && plan[|before|] == Users && plan[|before| + 1] == Alive
      requires Follows(before, plan, true)
      modifies w
      ensures w.h == old(w.h).(requests := w.h.requests)
      ensures old(w.h.requests) <= w.h.requests <= old(w.h.requests) + 2
      ensures ok ==> w.h.requests == old(w.h.requests) + 2 && |tried| == |before| + 2
      ensures before <= tried && w.log == old(w.log) + tried[|before|..] && tried != [] && Follows(tried, plan, ok)
    {
      hide Follows;
      ok := w.Ask(Users);
      FollowOn(before, plan, ok);
      tried := before + [Tried(Users, ok)];
      if !ok {
        return;
      }
      ok := w.Ask(Alive);
      FollowOn(tried, plan, ok);
      tried := tried + [Tried(Alive, ok)];
    }

    // A listener that is already up is left alone, whatever its tasks do. Adding
    // the users may fail after the listener is up.
    method Start(w: World) returns (ok: bool)
      requires In(w.h) && server !in w.h.closed
      modifies this`s, w
      ensures In(w.h) && Grows(old(w.h), w.h, {this}, traffic)
      ensures w.h.stops == old(w.h.stops)
      ensures old(s.prepared) ==> s.prepared && w.h.requests == old(w.h.requests)
      ensures old(s.started) ==> ok && s == old(s) && w.h == old(w.h)
      ensures old(!s.started) && ok ==> Serving() && s.prepared && s.hasLimiter
      ensures !ok ==> !s.monitoring && !s.renewing
      ensures s.hasLimiter && !old(s.hasLimiter) ==> s.registered
      ensures old(s.hasLimiter) ==> s.hasLimiter && s.registered == old(s.registered)
      ensures Tells(old(w.log), w.log, ok)
      ensures old(!s.started) && ok ==>
        var n := if old(s.prepared) then 0 else |Plan(protocol)|;
        && |w.log| == |old(w.log)| + n + 2
        && w.log[|w.log| - 2] == Tried(Listener, true) && w.log[|w.log| - 1] == Tried(AddUsers, true)
    {
      TellsNothing(w.log);
      if s.started {
        return true;
      }
      ok := Prepare(w);
      hide Tells, Follows, Plan;
      if !ok {
        return;
      }
      ghost var prepared := w.log;
      if !s.hasLimiter {
        s := s.(hasLimiter := true, registered := true);
      }
      ok := w.AddNodeConfig(this);
      TellsOne(prepared, Tried(Listener, ok));
      TellsTwice(old(w.log), prepared, w.log, ok);
      if !ok {
        return;
      }
      s := s.(started := true);
      ghost var listening := w.log;
      ok := w.Try(AddUsers);
      TellsOne(listening, Tried(AddUsers, ok));
      TellsTwice(old(w.log), listening, w.log, ok);
      if !ok {
        return;
      }
      s := s.(monitoring := true, renewing := protocol.tls && protocol.renewed);
    }

    // Configuration, users and limiter are kept. The tasks end first, and stay
    // ended when the listener cannot be removed.
    method Stop(w: World) returns (ok: bool)
      requires In(w.h)
      modifies this`s, w`h
      ensures In(w.h) && Grows(old(w.h), w.h, {this}, traffic)
      ensures w.h.requests == old(w.h.requests) && w.h.starts == old(w.h.starts)
      ensures ok == !s.started
      ensures s == old(s).(started := s.started, monitoring := false, renewing := false)
      ensures w.h.stops == old(w.h.stops) + if old(s.started) && ok then multiset{this} else multiset{}
      ensures |w.h.collected| == |old(w.h.collected)| + if old(s.started) && ok then 1 else 0
      ensures s.started ==> old(s.started)
      ensures old(!s.started) ==> w.h == old(w.h)
    {
      s := s.(monitoring := false, renewing := false);
      if !s.started {
        return true;
      }
      ok := w.DelNode(this);
      if !ok {
        return;
      }
      s := s.(started := false);
      w.Collect(traffic);
    }

    method Close(w: World) returns (ok: bool)
      requires In(w.h)
      modifies this`s, w`h
      ensures In(w.h) && Grows(old(w.h), w.h, {this}, traffic)
      ensures w.h.requests == old(w.h.requests) && w.h.starts == old(w.h.starts)
      ensures ok == !s.started
      ensures s == old(s).(started := s.started, registered := false, monitoring := false, renewing := false)
      ensures s.started ==> old(s.started)
      ensures old(!s.started) ==> w.h == old(w.h)
    {
      ok := Stop(w);
      s := s.(registered := false);
    }
  }

  // ---------- Nodes ----------

  ghost function StatusesOf(cs: seq<Controller>): (r: seq<Status>)
    reads cs
    ensures |r| == |cs|
  {
    seq(|cs|, k requires 0 <= k < |cs| reads cs => cs[k].s)
  }

  class Node {
    var controllers: seq<Controller>
    var traffic: Queue
    var reporting: bool

    ghost function Cs(): set<Controller>
      reads this`controllers
    {
      set c | c in controllers
    }

    ghost function Statuses(): seq<Status>
      reads this`controllers, controllers
    {
      StatusesOf(controllers)
    }

    // Distinct controllers of cores that are not closed, sharing the node's queue.
    ghost predicate Valid(h: History)
      reads this`controllers, this`traffic, controllers
    {
      Distinct() && forall c :: c in controllers ==> c.traffic == traffic && c.In(h) && c.server !in h.closed
    }

    ghost predicate Distinct()
      reads this`controllers
    {
      forall i, j :: 0 <= i < j < |controllers| ==> controllers[i] != controllers[j]
    }

    ghost predicate AllPrepared()
      reads this`controllers, controllers
    {
      forall k :: 0 <= k < |controllers| && controllers[k].protocol.enable ==> controllers[k].s.prepared
    }

    ghost predicate AllDown()
      reads this`controllers, controllers
    {
      forall k :: 0 <= k < |controllers| ==> !controllers[k].s.started
    }

    constructor (controllers: seq<Controller>, traffic: Queue)
      ensures this.controllers == controllers && this.traffic == traffic && !reporting
    {
      this.controllers, this.traffic, reporting := controllers, traffic, false;
    }

    method Prepare(w: World) returns (ok: bool)
      requires Valid(w.h)
      modifies w, Cs()`s
      ensures Valid(w.h) && old(w.h.requests) <= w.h.requests && w.h == old(w.h).(requests := w.h.requests)
      ensures AllReadied(controllers, old(Statuses()), Statuses())
      ensures ok ==> AllPrepared()
      ensures old(AllPrepared()) ==> ok && AllPrepared() && w.h == old(w.h)
      ensures Tells(old(w.log), w.log, ok)
    {
      ghost var before, h0 := Statuses(), w.h;
      ok := true;
      TellsNothing(w.log);
      for i := 0 to |controllers|
        invariant Tells(old(w.log), w.log, true)
        invariant Valid(w.h) && h0.requests <= w.h.requests && w.h == h0.(requests := w.h.requests)
        invariant PreparedUpTo(controllers, before, h0, Statuses(), w.h, i) && ok
      {
        hide *;
        ghost var h, now, log := w.h, Statuses(), w.log;
        ok := PrepareAt(w, i);
        TellsTwice(old(w.log), log, w.log, ok);
        PrepareOneMore(controllers, before, h0, now, h, i, Statuses(), w.h, ok);
        if !ok {
          return;
        }
      }
    }

    // One round of the loop above.
    method PrepareAt(w: World, i: nat) returns (ok: bool)
      requires Valid(w.h) && i < |controllers|
      modifies w, {controllers[i]}`s
      ensures Valid(w.h) && old(w.h.requests) <= w.h.requests && w.h == old(w.h).(requests := w.h.requests)
      ensures PreparedAt(controllers, old(Statuses()), old(w.h), Statuses(), w.h, i, ok)
      ensures Tells(old(w.log), w.log, ok)
    {
      ok := true;
      TellsNothing(w.log);
      if controllers[i].protocol.enable {
        ok := controllers[i].Prepare(w);
      }
      assert Statuses() == old(Statuses())[i := controllers[i].s];
    }

    // Unacknowledged traffic is kept even when a protocol is removed.
    method InheritTraffic(from: Node?)
      modifies this`traffic, Cs()`traffic
      ensures from == null ==> traffic == old(traffic) && forall c :: c in controllers ==> c.traffic == old(c.traffic)
      ensures from != null ==> traffic == old(from.traffic) && forall c :: c in controllers ==> c.traffic == traffic
    {
      if from == null {
        return;
      }
      traffic := from.traffic;
      for i := 0 to |controllers|
        invariant traffic == old(from.traffic)
        invariant forall k :: 0 <= k < i ==> controllers[k].traffic == traffic
      {
        controllers[i].traffic := traffic;
      }
    }

    method Stop(w: World) returns (ok: bool)
      requires Valid(w.h)
      modifies w`h, this`reporting, Cs()`s
      ensures Valid(w.h) && !reporting && Grows(old(w.h), w.h, Cs(), traffic)
      ensures w.h.requests == old(w.h.requests) && w.h.starts == old(w.h.starts)
      ensures ok <==> AllDown()
      ensures AllStopped(controllers, old(Statuses()), old(w.h), Statuses(), w.h)
      ensures old(AllPrepared()) ==> AllPrepared()
      ensures old(AllDown()) ==> w.h == old(w.h)
    {
      hide Grows, Stopped, Valid, AllDown, AllPrepared, AllStopped;
      reporting := false;
      ok := StopAll(w);
    }

    method StopAll(w: World) returns (ok: bool)
      requires Valid(w.h)
      modifies w`h, Cs()`s
      ensures Valid(w.h) && Grows(old(w.h), w.h, Cs(), traffic)
      ensures w.h.requests == old(w.h.requests) && w.h.starts == old(w.h.starts)
      ensures ok <==> AllDown()
      ensures AllStopped(controllers, old(Statuses()), old(w.h), Statuses(), w.h)
      ensures old(AllPrepared()) ==> AllPrepared()
      ensures old(AllDown()) ==> w.h == old(w.h)
    {
      GrowsByAsking(w.h, w.h, Cs(), traffic);
      ghost var before, h0 := Statuses(), w.h;
      ok := true;
      for i := 0 to |controllers|
        invariant Valid(w.h) && Grows(h0, w.h, Cs(), traffic)
        invariant w.h.requests == h0.requests && w.h.starts == h0.starts
        invariant StoppedUpTo(controllers, before, h0, Statuses(), w.h, i, ok)
      {
        hide *;
        ghost var h, now := w.h, Statuses();
        var stopped := StopAt(w, i);
        GrowsTwice(h0, h, w.h, Cs(), traffic);
        StopOneMore(controllers, before, h0, now, h, i, ok, Statuses(), w.h);
        ok := ok && stopped;
      }
    }

    // One round of the loop above.
    method StopAt(w: World, i: nat) returns (ok: bool)
      requires Valid(w.h) && i < |controllers|
      modifies w`h, {controllers[i]}`s
      ensures Valid(w.h) && Grows(old(w.h), w.h, Cs(), traffic)
      ensures w.h.requests == old(w.h.requests) && w.h.starts == old(w.h.starts)
      ensures ok == !Statuses()[i].started
      ensures StoppedAt(controllers, old(Statuses()), old(w.h), Statuses(), w.h, i)
    {
      ok := controllers[i].Stop(w);
      OthersKeep(old(w.h), w.h, controllers[i], traffic, Cs());
      GrowsMore(old(w.h), w.h, {controllers[i]}, Cs(), traffic);
      hide Grows;
      assert Statuses() == old(Statuses())[i := controllers[i].s];
    }

    lemma StartedIsPrepared(h: History)
      requires Valid(h)
      ensures StartedArePrepared(Statuses())
    {
      forall k | 0 <= k < |controllers| && controllers[k].s.started ensures controllers[k].s.prepared {
        assert controllers[k].In(h);
      }
    }

    // Nothing is asked of the panel when all switched-on controllers are prepared.
    method Start(w: World) returns (ok: bool)
      requires Valid(w.h)
      modifies w, this`reporting, Cs()`s
      ensures Valid(w.h) && Grows(old(w.h), w.h, Cs(), traffic)
      ensures old(AllPrepared()) ==> AllPrepared() && w.h.requests == old(w.h.requests)
      ensures ok ==> reporting && AllPrepared() && w.h.stops == old(w.h.stops)
      ensures ok ==> AllRestarted(controllers, old(Statuses()), Statuses())
      ensures KeepLimiters(old(Statuses()), Statuses())
      ensures Tells(old(w.log), w.log, ok) && (!ok && reporting ==> old(reporting))
    {
      hide *;
      ok := PrepareAndLaunch(w);
      if ok && !reporting {
        reporting := true;
      }
    }

    method PrepareAndLaunch(w: World) returns (ok: bool)
      requires Valid(w.h)
      modifies w, this`reporting, Cs()`s
      ensures Valid(w.h) && Grows(old(w.h), w.h, Cs(), traffic)
      ensures old(AllPrepared()) ==> AllPrepared() && w.h.requests == old(w.h.requests)
      ensures ok ==> AllPrepared() && w.h.stops == old(w.h.stops)
      ensures ok ==> AllRestarted(controllers, old(Statuses()), Statuses())
      ensures KeepLimiters(old(Statuses()), Statuses())
      ensures Tells(old(w.log), w.log, ok) && (!ok && reporting ==> old(reporting))
    {
      hide *;
      StartedIsPrepared(w.h);
      ok := Prepare(w);
      ghost var middle, h, log := Statuses(), w.h, w.log;
      GrowsByAsking(old(w.h), w.h, Cs(), traffic);
      if !ok {
        MiddleKeeps(controllers, old(Statuses()), middle);
        return;
      }
      ok := Launch(w);
      TellsTwice(old(w.log), log, w.log, ok);
      GrowsTwice(old(w.h), h, w.h, Cs(), traffic);
      StartsCompose(controllers, old(Statuses()), middle, Statuses(), ok);
    }

    // The controllers of a prepared node, all or, as far as they can be stopped
    // again, none.
    method Launch(w: World) returns (ok: bool)
      requires Valid(w.h) && AllPrepared()
      modifies w, this`reporting, Cs()`s
      ensures Valid(w.h) && AllPrepared() && Grows(old(w.h), w.h, Cs(), traffic)
      ensures w.h.requests == old(w.h.requests)
      ensures ok ==> w.h.stops == old(w.h.stops) && reporting == old(reporting)
      ensures ok ==> AllRestarted(controllers, old(Statuses()), Statuses())
      ensures KeepLimiters(old(Statuses()), Statuses())
      ensures Tells(old(w.log), w.log, ok) && (!ok ==> !reporting)
    {
      hide *;
      ok := StartAll(w);
      if !ok {
        ghost var h, middle := w.h, Statuses();
        var _ := Stop(w);
        GrowsTwice(old(w.h), h, w.h, Cs(), traffic);
        StopKeepsLimiters(controllers, old(Statuses()), middle, h, Statuses(), w.h);
      }
    }

    method StartAll(w: World) returns (ok: bool)
      requires Valid(w.h) && AllPrepared()
      modifies w, Cs()`s
      ensures Valid(w.h) && AllPrepared() && Grows(old(w.h), w.h, Cs(), traffic)
      ensures w.h.requests == old(w.h.requests) && w.h.stops == old(w.h.stops)
      ensures ok ==> AllRestarted(controllers, old(Statuses()), Statuses())
      ensures KeepLimiters(old(Statuses()), Statuses())
      ensures Tells(old(w.log), w.log, ok)
    {
      GrowsByAsking(w.h, w.h, Cs(), traffic);
      TellsNothing(w.log);
      ghost var before, h0 := Statuses(), w.h;
      for i := 0 to |controllers|
        invariant Tells(old(w.log), w.log, true)
        invariant Valid(w.h) && AllPrepared() && Grows(h0, w.h, Cs(), traffic)
        invariant w.h.requests == h0.requests && w.h.stops == h0.stops
        invariant StartedUpTo(controllers, before, Statuses(), i)
      {
        hide Tells;
        ghost var h, now, log := w.h, Statuses(), w.log;
        ok := StartOne(w, i, before, h0);
        TellsTwice(old(w.log), log, w.log, ok);
        if !ok {
          return;
        }
      }
      ok := true;
    }

    // The body of the loop above.
    method StartOne(w: World, i: nat, ghost before: seq<Status>, ghost h0: History) returns (ok: bool)
      requires Valid(w.h) && AllPrepared() && i < |controllers| && Grows(h0, w.h, Cs(), traffic)
      requires StartedUpTo(controllers, before, Statuses(), i)
      modifies w, {controllers[i]}`s
      ensures Valid(w.h) && AllPrepared() && Grows(h0, w.h, Cs(), traffic)
      ensures w.h.requests == old(w.h.requests) && w.h.stops == old(w.h.stops)
      ensures KeepLimiters(before, Statuses())
      ensures ok ==> StartedUpTo(controllers, before, Statuses(), i + 1)
      ensures Tells(old(w.log), w.log, ok)
    {
      hide *;
      ok := StartAt(w, i);
      GrowsTwice(h0, old(w.h), w.h, Cs(), traffic);
      StartOneMore(controllers, before, old(Statuses()), i, Statuses(), ok);
    }

    method StartAt(w: World, i: nat) returns (ok: bool)
      requires Valid(w.h) && AllPrepared() && i < |controllers|
      modifies w, {controllers[i]}`s
      ensures Valid(w.h) && AllPrepared() && Grows(old(w.h), w.h, Cs(), traffic)
      ensures w.h.requests == old(w.h.requests) && w.h.stops == old(w.h.stops)
      ensures StartedAt(controllers, old(Statuses()), Statuses(), i, ok)
      ensures Tells(old(w.log), w.log, ok)
    {
      if !controllers[i].protocol.enable {
        TellsNothing(w.log);
        GrowsByAsking(w.h, w.h, Cs(), traffic);
        assert Statuses() == old(Statuses())[i := controllers[i].s];
        return true;
      }
      ok := controllers[i].Start(w);
      OthersKeep(old(w.h), w.h, controllers[i], traffic, Cs());
      GrowsMore(old(w.h), w.h, {controllers[i]}, Cs(), traffic);
      hide Grows;
      assert Statuses() == old(Statuses())[i := controllers[i].s];
    }

    method Close(w: World)
      requires Valid(w.h)
      modifies w`h, this, Cs()`s
      ensures controllers == [] && !reporting && traffic == old(traffic)
      ensures Grows(old(w.h), w.h, old(Cs()), traffic)
      ensures w.h.requests == old(w.h.requests) && w.h.starts == old(w.h.starts)
      ensures forall c :: c in old(Cs()) ==> c.In(w.h)
      ensures AllClosed(old(Statuses()), StatusesOf(old(controllers)))
      ensures old(AllDown()) ==> w.h == old(w.h)
    {
      hide Grows, AllStopped, AllClosed, StatusesOf;
      ghost var before := Statuses();
      var _ := Stop(w);
      ghost var h, middle := w.h, Statuses();
      CloseAll(w);
      GrowsTwice(old(w.h), h, w.h, Cs(), traffic);
      StopThenClose(controllers, before, old(w.h), middle, h, Statuses());
      controllers := [];
    }

    method CloseAll(w: World)
      requires Valid(w.h)
      modifies w`h, Cs()`s
      ensures Valid(w.h) && Grows(old(w.h), w.h, Cs(), traffic)
      ensures w.h.requests == old(w.h.requests) && w.h.starts == old(w.h.starts)
      ensures AllClosed(old(Statuses()), Statuses())
      ensures old(AllDown()) ==> w.h == old(w.h)
    {
      GrowsByAsking(w.h, w.h, Cs(), traffic);
      ghost var before, h0 := Statuses(), w.h;
      for i := 0 to |controllers|
        invariant Valid(w.h) && Grows(h0, w.h, Cs(), traffic)
        invariant w.h.requests == h0.requests && w.h.starts == h0.starts
        invariant ClosedUpTo(before, h0, Statuses(), w.h, i)
      {
        hide *;
        ghost var h, now := w.h, Statuses();
        CloseAt(w, i);
        GrowsTwice(h0, h, w.h, Cs(), traffic);
        CloseOneMore(before, h0, now, h, i, Statuses(), w.h);
      }
    }

    // One round of the loop above.
    method CloseAt(w: World, i: nat)
      requires Valid(w.h) && i < |controllers|
      modifies w`h, {controllers[i]}`s
      ensures Valid(w.h) && Grows(old(w.h), w.h, Cs(), traffic)
      ensures w.h.requests == old(w.h.requests) && w.h.starts == old(w.h.starts)
      ensures ClosedAt(old(Statuses()), old(w.h), Statuses(), w.h, i)
    {
      var _ := controllers[i].Close(w);
      OthersKeep(old(w.h), w.h, controllers[i], traffic, Cs());
      GrowsMore(old(w.h), w.h, {controllers[i]}, Cs(), traffic);
      hide Grows;
      assert Statuses() == old(Statuses())[i := controllers[i].s];
    }
  }

  // ---------- Rounds of the loops over controllers, on statuses ----------

  ghost predicate AllAreDown(statuses: seq<Status>) { forall k :: 0 <= k < |statuses| ==> !statuses[k].started }

  // Which switched-on controllers are prepared.
  ghost predicate AllArePrepared(cs: seq<Controller>, statuses: seq<Status>) {
    |cs| == |statuses| && forall k :: 0 <= k < |cs| && cs[k].protocol.enable ==> statuses[k].prepared
  }

  ghost predicate PreparedAt(
      cs: seq<Controller>, ss: seq<Status>, h: History, ss': seq<Status>, h': History, i: nat, ok: bool)
  {
    && |ss| == |cs| && i < |cs| && |ss'| == |cs| && ss' == ss[i := ss'[i]]
    && Readied(ss[i], ss'[i], cs[i].protocol)
    && (ok && cs[i].protocol.enable ==> ss'[i].prepared)
    && ((cs[i].protocol.enable ==> ss[i].prepared) ==> ok && h' == h)
  }

  ghost predicate PreparedUpTo(
      cs: seq<Controller>, before: seq<Status>, h0: History, now: seq<Status>, h: History, n: nat)
  {
    && n <= |cs| && AllReadied(cs, before, now)
    && (forall k :: 0 <= k < n && cs[k].protocol.enable ==> now[k].prepared)
    && (forall k :: n <= k < |cs| ==> now[k] == before[k])
    && (AllArePrepared(cs, before) ==> h == h0)
  }

  lemma PrepareOneMore(
      cs: seq<Controller>, before: seq<Status>, h0: History, now: seq<Status>, h: History, i: nat,
      now': seq<Status>, h': History, ok: bool)
    requires PreparedUpTo(cs, before, h0, now, h, i) && PreparedAt(cs, now, h, now', h', i, ok)
    ensures AllReadied(cs, before, now')
    ensures ok ==> PreparedUpTo(cs, before, h0, now', h', i + 1)
    ensures AllArePrepared(cs, before) ==> ok && AllArePrepared(cs, now') && h' == h0
  {
    hide Readied;
  }

  ghost predicate StoppedAt(cs: seq<Controller>, ss: seq<Status>, h: History, ss': seq<Status>, h': History, i: nat) {
    && |ss| == |cs| && i < |cs| && |ss'| == |cs| && ss' == ss[i := ss'[i]]
    && Stopped(ss[i], ss'[i], h.stops[cs[i]], h'.stops[cs[i]])
    && (forall k :: 0 <= k < |cs| && k != i ==> h'.stops[cs[k]] == h.stops[cs[k]])
    && (!ss[i].started ==> h' == h)
  }

  ghost predicate AllStopped(cs: seq<Controller>, before: seq<Status>, h: History, after: seq<Status>, h': History) {
    && |cs| == |before| == |after|
    && forall k :: 0 <= k < |cs| ==> Stopped(before[k], after[k], h.stops[cs[k]], h'.stops[cs[k]])
  }

  ghost predicate StoppedUpTo(
      cs: seq<Controller>, before: seq<Status>, h0: History, now: seq<Status>, h: History, n: nat, ok: bool)
  {
    && n <= |cs| == |before| == |now|
    && (forall k :: 0 <= k < n ==> Stopped(before[k], now[k], h0.stops[cs[k]], h.stops[cs[k]]))
    && (forall k :: n <= k < |cs| ==> now[k] == before[k] && h.stops[cs[k]] == h0.stops[cs[k]])
    && (ok <==> forall k :: 0 <= k < n ==> !now[k].started)
    && (AllAreDown(before) ==> h == h0)
  }

  lemma StopOneMore(
      cs: seq<Controller>, before: seq<Status>, h0: History, now: seq<Status>, h: History, i: nat, ok: bool,
      now': seq<Status>, h': History)
    requires StoppedUpTo(cs, before, h0, now, h, i, ok) && StoppedAt(cs, now, h, now', h', i)
    ensures StoppedUpTo(cs, before, h0, now', h', i + 1, ok && !now'[i].started)
  {
    hide Stopped;
  }

  ghost predicate StartedAt(cs: seq<Controller>, ss: seq<Status>, ss': seq<Status>, i: nat, ok: bool) {
    && |ss| == |cs| && i < |cs| && |ss'| == |cs| && ss' == ss[i := ss'[i]]
    && (ok ==> Restarted(ss[i], ss'[i], cs[i].protocol)) && KeepsLimiter(ss[i], ss'[i])
  }

  ghost predicate StartedUpTo(cs: seq<Controller>, before: seq<Status>, now: seq<Status>, n: nat) {
    && n <= |cs| == |before| == |now|
    && (forall k :: 0 <= k < n ==> Restarted(before[k], now[k], cs[k].protocol) && KeepsLimiter(before[k], now[k]))
    && (forall k :: n <= k < |cs| ==> now[k] == before[k])
  }

  ghost predicate KeepLimiters(before: seq<Status>, now: seq<Status>) {
    |before| == |now| && forall k :: 0 <= k < |now| ==> KeepsLimiter(before[k], now[k])
  }

  ghost predicate StartedArePrepared(statuses: seq<Status>) {
    forall k :: 0 <= k < |statuses| && statuses[k].started ==> statuses[k].prepared
  }

  ghost predicate AllReadied(cs: seq<Controller>, before: seq<Status>, now: seq<Status>) {
    && |cs| == |before| == |now|
    && forall k :: 0 <= k < |cs| ==> Readied(before[k], now[k], cs[k].protocol)
  }

  ghost predicate AllRestarted(cs: seq<Controller>, before: seq<Status>, now: seq<Status>) {
    && |cs| == |before| == |now|
    && forall k :: 0 <= k < |cs| ==> Restarted(before[k], now[k], cs[k].protocol)
  }

  lemma StopKeepsLimiters(
      cs: seq<Controller>, before: seq<Status>, middle: seq<Status>, h: History, after: seq<Status>, h': History)
    requires KeepLimiters(before, middle) && AllStopped(cs, middle, h, after, h')
    ensures KeepLimiters(before, after)
  {
  }

  lemma StartsCompose(
      cs: seq<Controller>, before: seq<Status>, middle: seq<Status>, after: seq<Status>, ok: bool)
    requires AllReadied(cs, before, middle) && KeepLimiters(middle, after)
    requires StartedArePrepared(before)
    ensures KeepLimiters(before, after)
    ensures ok && AllRestarted(cs, middle, after) ==> AllRestarted(cs, before, after)
  {
    forall k | 0 <= k < |cs|
      ensures KeepsLimiter(before[k], after[k])
      ensures Restarted(middle[k], after[k], cs[k].protocol) ==> Restarted(before[k], after[k], cs[k].protocol)
    {
      ReadiedThenRestarted(before[k], middle[k], after[k], cs[k].protocol);
    }
  }

  lemma MiddleKeeps(cs: seq<Controller>, before: seq<Status>, middle: seq<Status>)
    requires AllReadied(cs, before, middle)
    ensures KeepLimiters(before, middle)
  {
  }

  lemma StartOneMore(cs: seq<Controller>, before: seq<Status>, now: seq<Status>, i: nat, now': seq<Status>, ok: bool)
    requires StartedUpTo(cs, before, now, i) && StartedAt(cs, now, now', i, ok)
    ensures KeepLimiters(before, now')
    ensures ok ==> StartedUpTo(cs, before, now', i + 1)
  {
    hide Restarted;
  }

  ghost predicate AllClosed(before: seq<Status>, after: seq<Status>) {
    |before| == |after| && forall k :: 0 <= k < |after| ==> Closed(before[k], after[k])
  }

  lemma StopThenClose(
      cs: seq<Controller>, before: seq<Status>, h: History, middle: seq<Status>, h': History, after: seq<Status>)
    requires AllStopped(cs, before, h, middle, h') && AllClosed(middle, after)
    ensures AllClosed(before, after)
  {
  }

  ghost predicate ClosedAt(ss: seq<Status>, h: History, ss': seq<Status>, h': History, i: nat) {
    && i < |ss| == |ss'| && ss' == ss[i := ss'[i]]
    && Closed(ss[i], ss'[i]) && (!ss[i].started ==> h' == h)
  }

  ghost predicate ClosedUpTo(before: seq<Status>, h0: History, now: seq<Status>, h: History, n: nat) {
    && n <= |before| == |now|
    && (forall k :: 0 <= k < n ==> Closed(before[k], now[k]))
    && (forall k :: n <= k < |now| ==> now[k] == before[k])
    && (AllAreDown(before) ==> h == h0)
  }

  lemma CloseOneMore(
      before: seq<Status>, h0: History, now: seq<Status>, h: History, i: nat, now': seq<Status>, h': History)
    requires ClosedUpTo(before, h0, now, h, i) && ClosedAt(now, h, now', h', i)
    ensures ClosedUpTo(before, h0, now', h', i + 1)
  {
    hide Closed;
  }

  predicate Readied(before: Status, after: Status, p: Protocol) {
    after == before || (p.enable && after == before.(prepared := true))
  }

  // A controller that was asked to stop, with the number of its successful
  // DelNodes before and after.
  predicate Stopped(before: Status, after: Status, stops: nat, stops': nat) {
    && after == before.(started := after.started, monitoring := false, renewing := false)
    && (after.started ==> before.started)
    && stops' == stops + if before.started && !after.started then 1 else 0
  }

  // After a successful start a switched-on controller that was not up is up with
  // its tasks; any other is as it was.
  predicate Restarted(before: Status, after: Status, p: Protocol) {
    if before.started || !p.enable then after == before
    else
      && after.prepared && after.started && after.hasLimiter && after.monitoring
      && after.renewing == (p.tls && p.renewed)
  }

  predicate KeepsLimiter(before: Status, after: Status) {
    before.hasLimiter ==> after.hasLimiter && after.registered == before.registered
  }

  predicate Closed(before: Status, after: Status) {
    && after == before.(started := after.started, registered := false, monitoring := false, renewing := false)
    && (after.started ==> before.started)
  }

  lemma ReadiedThenRestarted(before: Status, middle: Status, after: Status, p: Protocol)
    requires Readied(before, middle, p) && (before.started ==> before.prepared)
    ensures Restarted(middle, after, p) ==> Restarted(before, after, p)
    ensures KeepsLimiter(middle, after) ==> KeepsLimiter(before, after)
  {
  }
}
