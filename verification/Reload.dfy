// Reloading the configuration: the new node is prepared beside the old one, the old
// one stops, the new one starts, and a failure on the way brings the old one back.
module Reload {
  import opened NodeLifecycle

  datatype Result = Rejected | Switched | RolledBack | RollbackFailed

  // node.New for protocols the node supports: one controller for each, in order,
  // unless one of the panel clients cannot be made.
  method NewNode(core: Core, protocols: seq<Protocol>, w: World) returns (node: Node?)
    requires core !in w.h.closed
    modifies w`log
    ensures Tells(old(w.log), w.log, node != null)
    ensures node != null ==>
      && |node.controllers| == |protocols|
      && forall k :: 0 <= k < |protocols| ==> node.controllers[k].protocol == protocols[k]
    ensures node != null ==> fresh(node) && fresh(node.Cs()) && node.Valid(w.h) && !node.reporting
    ensures node != null ==> node.AllDown() && OnCore(node, core)
  {
    var queue := new Queue();
    var controllers: seq<Controller> := [];
    TellsNothing(w.log);
    for i := 0 to |protocols|
      invariant Tells(old(w.log), w.log, true)
      invariant |controllers| == i && forall k :: 0 <= k < i ==> controllers[k].protocol == protocols[k]
      invariant forall k :: 0 <= k < |controllers| ==> fresh(controllers[k]) && Unused(controllers[k], core, queue, w)
      invariant forall j, k :: 0 <= j < k < |controllers| ==> controllers[j] != controllers[k]
    {
      ghost var log := w.log;
      var ok := w.Try(Client);
      TellsOne(log, Tried(Client, ok));
      TellsTwice(old(w.log), log, w.log, ok);
      if !ok {
        return null;
      }
      var c := new Controller(core, protocols[i], queue);
      controllers := controllers + [c];
    }
    node := new Node(controllers, queue);
  }

  ghost predicate Unused(c: Controller, core: Core, queue: Queue, w: World)
    reads c, w
  {
    c.server == core && c.traffic == queue && !c.s.started && c.In(w.h)
  }

  lemma GrowsApart(h: History, h': History, cs: set<Controller>, queue: Queue, ds: set<Controller>)
    requires Grows(h, h', cs, queue) && cs !! ds
    ensures forall d :: d in ds ==> (d in h'.up <==> d in h.up) && h'.stops[d] == h.stops[d]
  {
    forall d | d in ds ensures (d in h'.up <==> d in h.up) && h'.stops[d] == h.stops[d] {
      assert d in h'.up <==> d in h'.up - cs;
      assert d in h.up <==> d in h.up - cs;
    }
  }

  lemma GrowsClosesNone(h: History, h': History, cs: set<Controller>, queue: Queue)
    requires Grows(h, h', cs, queue)
    ensures h'.closed == h.closed
  {
  }

  // ---------- The cut-over ----------

  // A listener going up between the stop of the old node and the end of the
  // reload. Nothing is asked of the panel by then. A new listener goes up while no
  // old one is up, and an old one while no new one is, the new core being closed.
  ghost predicate Safe(h: History, requests: nat, e: Up, olds: set<Controller>, news: set<Controller>, newCore: Core) {
    && e.requests == requests && e.up <= h.up + olds + news
    && if e.c in olds then newCore in e.closed && e.up !! news else e.c in news && e.up !! olds
  }

  // Every listener goes up safely, and all final traffic goes into one queue.
  ghost predicate CutOver(
      h: History, h': History, olds: set<Controller>, news: set<Controller>, newCore: Core, queue: Queue)
  {
    && h'.requests == h.requests && h.starts <= h'.starts && h.collected <= h'.collected
    && h'.up <= h.up + olds + news
    && (forall i :: |h.starts| <= i < |h'.starts| ==> Safe(h, h.requests, h'.starts[i], olds, news, newCore))
    && (forall i :: |h.collected| <= i < |h'.collected| ==> h'.collected[i] == queue)
  }

  lemma CutOverBegins(h: History, olds: set<Controller>, news: set<Controller>, newCore: Core, queue: Queue)
    ensures CutOver(h, h, olds, news, newCore, queue)
  {
  }

  lemma CutOverIsQuiet(h: History, h': History, olds: set<Controller>, news: set<Controller>, newCore: Core, queue: Queue)
    requires CutOver(h, h', olds, news, newCore, queue)
    ensures h'.requests == h.requests
  {
  }

  // Stopping or closing controllers of either node.
  lemma CutOverStops(
      h: History, h': History, h'': History, cs: set<Controller>,
      olds: set<Controller>, news: set<Controller>, newCore: Core, queue: Queue)
    requires CutOver(h, h', olds, news, newCore, queue) && cs <= olds + news
    requires Grows(h', h'', cs, queue) && h''.starts == h'.starts && h''.requests == h'.requests
    ensures CutOver(h, h'', olds, news, newCore, queue)
  {
    assert h''.up <= (h''.up - cs) + cs;
    CollectedTwice(h, h', h'', queue);
  }

  lemma CollectedTwice(h: History, h': History, h'': History, queue: Queue)
    requires h.collected <= h'.collected <= h''.collected
    requires forall i :: |h.collected| <= i < |h'.collected| ==> h'.collected[i] == queue
    requires forall i :: |h'.collected| <= i < |h''.collected| ==> h''.collected[i] == queue
    ensures h.collected <= h''.collected
    ensures forall i :: |h.collected| <= i < |h''.collected| ==> h''.collected[i] == queue
  {
  }

  // Starting the new controllers when no old one is up, or the old ones when the
  // new core is closed.
  lemma CutOverStarts(
      h: History, h': History, h'': History, cs: set<Controller>,
      olds: set<Controller>, news: set<Controller>, newCore: Core, queue: Queue)
    requires CutOver(h, h', olds, news, newCore, queue) && olds !! news
    requires (cs <= news && h'.up !! olds) || (cs <= olds && h'.up !! news && newCore in h'.closed)
    requires Grows(h', h'', cs, queue) && h''.requests == h'.requests
    ensures CutOver(h, h'', olds, news, newCore, queue)
  {
    assert h''.up <= (h''.up - cs) + cs;
    CollectedTwice(h, h', h'', queue);
    assert h.starts <= h''.starts;
    forall i | |h.starts| <= i < |h''.starts| ensures Safe(h, h.requests, h''.starts[i], olds, news, newCore) {
      if i < |h'.starts| {
        assert h''.starts[i] == h'.starts[i];
      } else {
        assert StartsAmong(h', h'', cs, h''.starts[i]);
      }
    }
  }

  lemma CutOverCloses(
      h: History, h': History, core: Core, olds: set<Controller>, news: set<Controller>, newCore: Core, queue: Queue)
    requires CutOver(h, h', olds, news, newCore, queue)
    ensures CutOver(h, Without(h', core), olds, news, newCore, queue)
  {
  }

  // ---------- Two nodes beside each other ----------

  ghost predicate OnCore(node: Node, core: Core)
    reads node`controllers
  {
    forall c :: c in node.controllers ==> c.server == core
  }

  ghost predicate OffCore(node: Node, core: Core)
    reads node`controllers
  {
    forall c :: c in node.controllers ==> c.server != core
  }

  ghost predicate Apart(oldNodes: Node, newNodes: Node)
    reads oldNodes`controllers, newNodes`controllers
  {
    newNodes != oldNodes && newNodes.Cs() !! oldNodes.Cs()
  }

  // The old node and the new one since history h: both valid, the old one ready to
  // be started again, on different cores and with one queue.
  ghost predicate Paired(oldNodes: Node, newNodes: Node, newCore: Core, h: History, now: History)
    reads oldNodes, newNodes, oldNodes.controllers, newNodes.controllers
  {
    && oldNodes.Valid(now) && oldNodes.AllPrepared() && newNodes.Valid(now)
    && newNodes.traffic == oldNodes.traffic
    && OnCore(newNodes, newCore) && OffCore(oldNodes, newCore)
    && CutOver(h, now, oldNodes.Cs(), newNodes.Cs(), newCore, newNodes.traffic)
  }

  ghost predicate SameStops(cs: seq<Controller>, h: History, h': History) {
    forall k :: 0 <= k < |cs| ==> h'.stops[cs[k]] == h.stops[cs[k]]
  }

  lemma SameIsSame(cs: seq<Controller>, h: History)
    ensures SameStops(cs, h, h)
  {
  }

  // What happens to some controllers leaves a node of others valid.
  lemma ValidApart(node: Node, h: History, h': History, cs: set<Controller>, queue: Queue)
    requires node.Valid(h) && Grows(h, h', cs, queue) && cs !! node.Cs()
    ensures node.Valid(h') && SameStops(node.controllers, h, h')
  {
    GrowsApart(h, h', cs, queue, node.Cs());
    hide Grows;
  }

  lemma ValidWithout(node: Node, h: History, core: Core)
    requires node.Valid(h) && OffCore(node, core)
    ensures node.Valid(Without(h, core)) && SameStops(node.controllers, h, Without(h, core))
  {
  }

  lemma NoneUp(node: Node, h: History)
    requires node.Valid(h) && node.AllDown()
    ensures h.up !! node.Cs()
  {
  }

  method StopOld(w: World, oldNodes: Node, newNodes: Node, newCore: Core, ghost h: History) returns (ok: bool)
    requires Apart(oldNodes, newNodes) && Paired(oldNodes, newNodes, newCore, h, w.h)
    requires newNodes.AllPrepared() && newNodes.AllDown()
    modifies w, {oldNodes}`reporting, oldNodes.Cs()`s
    ensures Apart(oldNodes, newNodes) && Paired(oldNodes, newNodes, newCore, h, w.h)
    ensures newNodes.AllPrepared() && newNodes.AllDown()
    ensures w.h.closed == old(w.h.closed)
    ensures ok ==> w.h.up !! oldNodes.Cs()
    ensures AllStopped(oldNodes.controllers, old(oldNodes.Statuses()), old(w.h), oldNodes.Statuses(), w.h)
  {
    hide CutOver, Grows, AllStopped, StatusesOf;
    ghost var olds, news, queue := oldNodes.Cs(), newNodes.Cs(), newNodes.traffic;
    ok := oldNodes.Stop(w);
    GrowsClosesNone(old(w.h), w.h, olds, queue);
    CutOverStops(h, old(w.h), w.h, olds, olds, news, newCore, queue);
    ValidApart(newNodes, old(w.h), w.h, olds, queue);
    if ok {
      NoneUp(oldNodes, w.h);
    }
  }

  method StartNew(w: World, oldNodes: Node, newNodes: Node, newCore: Core, ghost h: History) returns (ok: bool)
    requires Apart(oldNodes, newNodes) && Paired(oldNodes, newNodes, newCore, h, w.h)
    requires newNodes.AllPrepared() && w.h.up !! oldNodes.Cs()
    modifies w, {newNodes}`reporting, newNodes.Cs()`s
    ensures Apart(oldNodes, newNodes) && Paired(oldNodes, newNodes, newCore, h, w.h)
    ensures newNodes.AllPrepared() && w.h.up !! oldNodes.Cs()
    ensures w.h.closed == old(w.h.closed)
    ensures ok ==>
      newNodes.reporting && AllRestarted(newNodes.controllers, old(newNodes.Statuses()), newNodes.Statuses())
    ensures SameStops(oldNodes.controllers, old(w.h), w.h)
  {
    hide CutOver, Grows, AllRestarted, KeepLimiters, StatusesOf;
    ghost var olds, news, queue := oldNodes.Cs(), newNodes.Cs(), newNodes.traffic;
    ok := newNodes.Start(w);
    GrowsClosesNone(old(w.h), w.h, news, queue);
    CutOverStarts(h, old(w.h), w.h, news, olds, news, newCore, queue);
    ValidApart(oldNodes, old(w.h), w.h, news, queue);
    GrowsApart(old(w.h), w.h, news, queue, olds);
  }

  // The new node and core go first.
  method CloseNew(w: World, oldNodes: Node, newNodes: Node, newCore: Core, ghost h: History)
    requires Apart(oldNodes, newNodes) && Paired(oldNodes, newNodes, newCore, h, w.h)
    modifies w, newNodes, newNodes.Cs()`s
    ensures oldNodes.Valid(w.h) && newCore in w.h.closed && w.h.up !! old(newNodes.Cs())
    ensures CutOver(h, w.h, oldNodes.Cs(), old(newNodes.Cs()), newCore, old(newNodes.traffic))
    ensures SameStops(oldNodes.controllers, old(w.h), w.h)
  {
    hide CutOver, Grows, AllClosed, StatusesOf;
    ghost var olds, news, queue := oldNodes.Cs(), newNodes.Cs(), newNodes.traffic;
    newNodes.Close(w);
    ghost var h1 := w.h;
    w.CloseCore(newCore);
    CutOverStops(h, old(w.h), h1, news, olds, news, newCore, queue);
    CutOverCloses(h, h1, newCore, olds, news, newCore, queue);
    ValidApart(oldNodes, old(w.h), h1, news, queue);
    ValidWithout(oldNodes, h1, newCore);
  }

  // The closure restore, as far as it brings the old node back.
  method Restore(w: World, oldNodes: Node, newNodes: Node, newCore: Core, ghost h: History) returns (ok: bool)
    requires Apart(oldNodes, newNodes) && Paired(oldNodes, newNodes, newCore, h, w.h)
    modifies w, newNodes, newNodes.Cs()`s, {oldNodes}`reporting, oldNodes.Cs()`s
    ensures oldNodes.Valid(w.h) && oldNodes.AllPrepared() && newCore in w.h.closed
    ensures CutOver(h, w.h, oldNodes.Cs(), old(newNodes.Cs()), newCore, old(newNodes.traffic))
    ensures ok ==> oldNodes.reporting && SameStops(oldNodes.controllers, old(w.h), w.h)
    ensures ok ==> AllRestarted(oldNodes.controllers, old(oldNodes.Statuses()), oldNodes.Statuses())
    ensures KeepLimiters(old(oldNodes.Statuses()), oldNodes.Statuses())
  {
    hide CutOver, Grows, AllRestarted, KeepLimiters, StatusesOf;
    ghost var olds, news, queue := oldNodes.Cs(), newNodes.Cs(), newNodes.traffic;
    CloseNew(w, oldNodes, newNodes, newCore, h);
    ghost var h1 := w.h;
    assert oldNodes.Statuses() == old(oldNodes.Statuses());
    ok := oldNodes.Start(w);
    GrowsClosesNone(h1, w.h, olds, queue);
    CutOverStarts(h, h1, w.h, olds, olds, news, newCore, queue);
  }

  method Retire(w: World, oldNodes: Node, oldCore: Core?, newNodes: Node, newCore: Core, ghost h: History)
    requires Apart(oldNodes, newNodes) && Paired(oldNodes, newNodes, newCore, h, w.h)
    requires newNodes.AllPrepared() && w.h.up !! oldNodes.Cs() && oldCore != newCore
    modifies w, oldNodes, oldNodes.Cs()`s
    ensures newNodes.Valid(w.h) && newNodes.AllPrepared()
    ensures CutOver(h, w.h, old(oldNodes.Cs()), newNodes.Cs(), newCore, newNodes.traffic)
    ensures w.h.closed == old(w.h.closed) + if oldCore == null then {} else {oldCore}
    ensures oldNodes.controllers == []
    ensures AllRetired(StatusesOf(old(oldNodes.controllers)))
  {
    hide CutOver, Grows;
    ghost var olds, news, queue, cs := oldNodes.Cs(), newNodes.Cs(), newNodes.traffic, oldNodes.controllers;
    assert oldNodes.AllDown() by {
      DownIfNotUp(oldNodes, w.h);
    }
    ghost var before := oldNodes.Statuses();
    DownByStatuses(oldNodes);
    hide StatusesOf, AllClosed, AllRetired;
    oldNodes.Close(w);
    ClosedIsRetired(before, StatusesOf(cs));
    ghost var h1 := w.h;
    GrowsClosesNone(old(w.h), h1, olds, queue);
    CutOverStops(h, old(w.h), h1, olds, olds, news, newCore, queue);
    ValidApart(newNodes, old(w.h), h1, olds, queue);
    if oldCore != null {
      CutOverCloses(h, h1, oldCore, olds, news, newCore, queue);
      ValidWithout(newNodes, h1, oldCore);
      w.CloseCore(oldCore);
    }
  }

  lemma DownIfNotUp(node: Node, h: History)
    requires node.Valid(h) && h.up !! node.Cs()
    ensures node.AllDown()
  {
    forall k | 0 <= k < |node.controllers| ensures !node.controllers[k].s.started {
      assert node.controllers[k] in node.Cs();
    }
  }

  ghost predicate AllRetired(statuses: seq<Status>) {
    forall k :: 0 <= k < |statuses| ==> !statuses[k].started && !statuses[k].registered && !statuses[k].monitoring
  }

  lemma ClosedIsRetired(before: seq<Status>, after: seq<Status>)
    requires AllAreDown(before) && AllClosed(before, after)
    ensures AllRetired(after)
  {
  }

  // What a rollback makes of an old controller, by whether its listener had been
  // removed. One that could not be removed has lost its tasks, and keeps so: it
  // still counts as started.
  predicate BroughtBack(before: Status, after: Status, p: Protocol, removed: bool) {
    && (p.enable ==> after.started && (HasTasks(after, p) <==> removed || !before.started))
    && (before.hasLimiter ==> after.hasLimiter && after.registered == before.registered)
  }

  predicate HasTasks(s: Status, p: Protocol) { s.monitoring && s.renewing == (p.tls && p.renewed) }

  ghost predicate AllBroughtBack(
      cs: seq<Controller>, before: seq<Status>, h: History, after: seq<Status>, h': History)
  {
    && |cs| == |before| == |after|
    && forall k :: 0 <= k < |cs| ==>
         BroughtBack(before[k], after[k], cs[k].protocol, h'.stops[cs[k]] > h.stops[cs[k]])
  }

  lemma StoppedThenRestarted(
      cs: seq<Controller>, before: seq<Status>, h: History, middle: seq<Status>, h1: History, h2: History,
      after: seq<Status>, h': History)
    requires AllStopped(cs, before, h, middle, h1) && SameStops(cs, h1, h2) && SameStops(cs, h2, h')
    requires AllRestarted(cs, middle, after) && KeepLimiters(middle, after)
    ensures AllBroughtBack(cs, before, h, after, h')
  {
    forall k | 0 <= k < |cs| ensures BroughtBack(before[k], after[k], cs[k].protocol, h'.stops[cs[k]] > h.stops[cs[k]]) {
      assert Stopped(before[k], middle[k], h.stops[cs[k]], h1.stops[cs[k]]);
      assert Restarted(middle[k], after[k], cs[k].protocol);
    }
  }

  // Every switched-on controller is up with its tasks.
  ghost predicate AllServe(cs: seq<Controller>, statuses: seq<Status>) {
    && |cs| == |statuses|
    && forall k :: 0 <= k < |cs| && cs[k].protocol.enable ==> statuses[k].started && HasTasks(statuses[k], cs[k].protocol)
  }

  lemma StartedServe(cs: seq<Controller>, before: seq<Status>, after: seq<Status>)
    requires AllAreDown(before) && AllRestarted(cs, before, after)
    ensures AllServe(cs, after)
  {
  }

  lemma DownByStatuses(node: Node)
    ensures node.AllDown() <==> AllAreDown(node.Statuses())
  {
    forall k | 0 <= k < |node.controllers| ensures node.Statuses()[k] == node.controllers[k].s {
    }
  }

  // Stop the old node, start the new one, and undo on a failure.
  method Replace(w: World, oldNodes: Node, newNodes: Node, newCore: Core, ghost h: History) returns (ok: bool, restored: bool)
    requires Apart(oldNodes, newNodes) && Paired(oldNodes, newNodes, newCore, h, w.h)
    requires newNodes.AllPrepared() && newNodes.AllDown()
    modifies w, newNodes, newNodes.Cs()`s, {oldNodes}`reporting, oldNodes.Cs()`s
    ensures ok ==>
      && Apart(oldNodes, newNodes) && Paired(oldNodes, newNodes, newCore, h, w.h)
      && newNodes.AllPrepared() && w.h.up !! oldNodes.Cs()
      && w.h.closed == old(w.h.closed) && newNodes.reporting
      && newNodes.Cs() == old(newNodes.Cs()) && newNodes.traffic == old(newNodes.traffic)
      && AllServe(newNodes.controllers, newNodes.Statuses())
    ensures !ok ==>
      && oldNodes.Valid(w.h) && oldNodes.AllPrepared() && newCore in w.h.closed
      && CutOver(h, w.h, oldNodes.Cs(), old(newNodes.Cs()), newCore, old(newNodes.traffic))
    ensures !ok && restored ==>
      oldNodes.reporting
      && AllBroughtBack(oldNodes.controllers, old(oldNodes.Statuses()), old(w.h), oldNodes.Statuses(), w.h)
  {
    restored := false;
    ghost var cs, before, h0, unused := oldNodes.controllers, oldNodes.Statuses(), w.h, newNodes.Statuses();
    DownByStatuses(newNodes);
    hide CutOver, AllStopped, AllRestarted, KeepLimiters, AllBroughtBack, SameStops, StatusesOf, AllServe, Paired;
    ok := StopOld(w, oldNodes, newNodes, newCore, h);
    ghost var middle, h1 := oldNodes.Statuses(), w.h;
    if ok {
      assert newNodes.Statuses() == unused;
      ok := StartNew(w, oldNodes, newNodes, newCore, h);
      if ok {
        StartedServe(newNodes.controllers, unused, newNodes.Statuses());
        return;
      }
    } else {
      SameIsSame(cs, h1);
    }
    ghost var h2 := w.h;
    assert oldNodes.Statuses() == middle;
    restored := Restore(w, oldNodes, newNodes, newCore, h);
    if restored {
      StoppedThenRestarted(cs, before, h0, middle, h1, h2, oldNodes.Statuses(), w.h);
    }
  }

  // ---------- The program ----------

  // A node whose controllers are prepared, or none, with nothing left of it.
  method NewPrepared(w: World, core: Core, protocols: seq<Protocol>) returns (node: Node?)
    requires core !in w.h.closed
    modifies w
    ensures old(w.h.requests) <= w.h.requests && w.h == old(w.h).(requests := w.h.requests)
    ensures Tells(old(w.log), w.log, node != null)
    ensures node != null ==> |node.controllers| == |protocols|
    ensures node != null ==> forall k :: 0 <= k < |protocols| ==> node.controllers[k].protocol == protocols[k]
    ensures node != null ==>
      && fresh(node) && fresh(node.Cs()) && node.Valid(w.h) && node.AllPrepared() && node.AllDown() && OnCore(node, core)
  {
    node := NewNode(core, protocols, w);
    if node == null {
      return;
    }
    ghost var before, log := node.Statuses(), w.log;
    DownByStatuses(node);
    hide StatusesOf, AllReadied, Grows, AllClosed, Tells;
    var ok := node.Prepare(w);
    TellsTwice(old(w.log), log, w.log, ok);
    ReadiedIsDown(node.controllers, before, node.Statuses());
    DownByStatuses(node);
    if !ok {
      node.Close(w);
      node := null;
    }
  }

  lemma ReadiedIsDown(cs: seq<Controller>, before: seq<Status>, after: seq<Status>)
    requires AllReadied(cs, before, after) && AllAreDown(before)
    ensures AllAreDown(after)
  {
  }

  ghost predicate Ready(node: Node?, h: History)
    reads node, if node == null then [] else node.controllers
  {
    node != null ==> node.Valid(h) && node.AllPrepared()
  }

  lemma ReadyByUp(node: Node?, h: History, h': History)
    requires h'.up == h.up
    requires node != null ==> forall c :: c in node.controllers && c.server in h'.closed ==> c.server in h.closed
    ensures Ready(node, h) ==> Ready(node, h')
  {
  }

  // The queue is shared before the old node is stopped.
  method Inherit(w: World, oldNodes: Node, newNodes: Node, newCore: Core)
    requires oldNodes.Valid(w.h) && oldNodes.AllPrepared()
    requires newNodes.Valid(w.h) && newNodes.AllPrepared() && newNodes.AllDown()
    requires Apart(oldNodes, newNodes) && OnCore(newNodes, newCore) && OffCore(oldNodes, newCore)
    modifies {newNodes}`traffic, newNodes.Cs()`traffic
    ensures Apart(oldNodes, newNodes) && Paired(oldNodes, newNodes, newCore, w.h, w.h)
    ensures newNodes.AllPrepared() && newNodes.AllDown() && newNodes.traffic == oldNodes.traffic
  {
    newNodes.InheritTraffic(oldNodes);
    CutOverBegins(w.h, oldNodes.Cs(), newNodes.Cs(), newCore, newNodes.traffic);
    hide CutOver;
  }

  // The rest of a reload, with an old node.
  method SwitchOver(w: World, oldNodes: Node, oldCore: Core?, newNodes: Node, newCore: Core)
    returns (ok: bool, restored: bool)
    requires oldNodes.Valid(w.h) && oldNodes.AllPrepared()
    requires newNodes.Valid(w.h) && newNodes.AllPrepared() && newNodes.AllDown()
    requires Apart(oldNodes, newNodes) && OnCore(newNodes, newCore) && OffCore(oldNodes, newCore)
    requires oldCore != newCore
    modifies w, oldNodes, newNodes, oldNodes.Cs()`s, newNodes.Cs()`s, newNodes.Cs()`traffic
    ensures CutOver(old(w.h), w.h, old(oldNodes.Cs()), old(newNodes.Cs()), newCore, old(oldNodes.traffic))
    ensures ok ==>
      && newNodes.Valid(w.h) && newNodes.AllPrepared() && newNodes.reporting
      && newNodes.Cs() == old(newNodes.Cs()) && newNodes.traffic == old(oldNodes.traffic)
      && OnCore(newNodes, newCore) && AllServe(newNodes.controllers, newNodes.Statuses())
      && w.h.closed == old(w.h.closed) + (if oldCore == null then {} else {oldCore})
      && AllRetired(StatusesOf(old(oldNodes.controllers)))
    ensures !ok ==>
      && oldNodes.controllers == old(oldNodes.controllers) && oldNodes.traffic == old(oldNodes.traffic)
      && oldNodes.Valid(w.h) && oldNodes.AllPrepared()
    ensures !ok && restored ==>
      && oldNodes.reporting
      && AllBroughtBack(oldNodes.controllers, old(oldNodes.Statuses()), old(w.h), oldNodes.Statuses(), w.h)
  {
    hide CutOver, AllBroughtBack, AllServe, AllRetired, StatusesOf;
    Inherit(w, oldNodes, newNodes, newCore);
    ghost var h := w.h;
    hide Paired;
    ok, restored := Replace(w, oldNodes, newNodes, newCore, h);
    if ok {
      ServesOnCore(oldNodes, newNodes, newCore, h, w.h);
      ghost var serving := newNodes.Statuses();
      Retire(w, oldNodes, oldCore, newNodes, newCore, h);
      assert newNodes.Statuses() == serving;
    }
  }

  lemma ServesOnCore(oldNodes: Node, newNodes: Node, newCore: Core, h: History, now: History)
    requires Paired(oldNodes, newNodes, newCore, h, now)
    ensures OnCore(newNodes, newCore) && newNodes.traffic == oldNodes.traffic
  {
  }

  lemma BroughtBackByStops(
      cs: seq<Controller>, before: seq<Status>, h: History, h1: History, after: seq<Status>, h': History)
    requires h.stops == h1.stops
    ensures AllBroughtBack(cs, before, h1, after, h') ==> AllBroughtBack(cs, before, h, after, h')
  {
  }

  class Program {
    var nodes: Node?
    var xcore: Core?

    constructor (nodes: Node?, xcore: Core?)
      ensures this.nodes == nodes && this.xcore == xcore
    {
      this.nodes, this.xcore := nodes, xcore;
    }

    // Everything up to the point where the old node is touched: configuration, core
    // and prepared node. Only here is the panel asked for anything.
    method Build(w: World, protocols: seq<Protocol>, reloadCh: int) returns (newCore: Core?, newNodes: Node?)
      modifies w
      ensures old(w.h.requests) <= w.h.requests
      ensures w.h == old(w.h).(requests := w.h.requests, closed := w.h.closed) && old(w.h.closed) <= w.h.closed
      ensures forall core :: core in w.h.closed && core !in old(w.h.closed) ==> fresh(core)
      ensures newNodes != null ==> newCore != null && fresh(newCore) && newCore.reloadCh == reloadCh
      ensures newNodes != null ==> w.h.closed == old(w.h.closed)
      ensures newNodes != null ==> fresh(newNodes) && fresh(newNodes.Cs()) && Ready(newNodes, w.h) && newNodes.AllDown()
      ensures newNodes != null ==> OnCore(newNodes, newCore)
      // It fails exactly when one of its steps does, and then closes the core if that
      // has been started.
      ensures Tells(old(w.log), w.log, newNodes != null)
      ensures newNodes != null ==> |newNodes.controllers| == |protocols|
      ensures newNodes != null ==> forall k :: 0 <= k < |protocols| ==> newNodes.controllers[k].protocol == protocols[k]
      ensures newNodes == null ==>
        if |w.log| >= |old(w.log)| + 4 && w.log[|old(w.log)| + 3] == Tried(CoreStart, true) then
          newCore != null && w.h.closed == old(w.h.closed) + {newCore}
        else w.h.closed == old(w.h.closed)
    {
      newCore, newNodes := null, null;
      var loaded := w.Try(Config);
      if !loaded {
        assert !w.log[|w.log| - 1].ok;
        return;
      }
      var ok := w.Ask(Settings);
      if !ok {
        assert !w.log[|w.log| - 1].ok;
        return;
      }
      var valid := w.Try(Validation);
      if !valid {
        assert !w.log[|w.log| - 1].ok;
        return;
      }
      newCore := new Core();
      newCore.reloadCh := reloadCh;
      var started := w.Try(CoreStart);
      if !started {
        assert !w.log[|w.log| - 1].ok;
        return;
      }
      newNodes := NewPrepared(w, newCore, protocols);
      if newNodes == null {
        w.CloseCore(newCore);
      }
    }

    // The ghost results name the new controllers, the new core, and the queue both
    // nodes collect into.
    method Reload(w: World, protocols: seq<Protocol>)
      returns (result: Result, ghost news: set<Controller>, ghost newCore: Core?, ghost queue: Queue?)
      requires Ready(nodes, w.h)
      modifies this, w
      modifies if nodes == null then {} else {nodes}
      modifies (if nodes == null then {} else nodes.Cs())`s
      ensures Ready(nodes, w.h)
      // An error leaves the program with the old node and core.
      ensures result != Switched ==> nodes == old(nodes) && xcore == old(xcore)
      ensures result == Rejected && nodes != null ==>
        unchanged(nodes) && nodes.Statuses() == old(nodes.Statuses())
      ensures result == Rejected ==> w.h == old(w.h).(requests := w.h.requests, closed := w.h.closed)
      // Nothing is asked of the panel once the old node is touched, and listeners of
      // the two nodes are never up together.
      ensures result != Rejected ==>
        && newCore != null && fresh(newCore) && fresh(news) && queue != null
        && (old(nodes) != null ==> queue == old(nodes.traffic))
        && CutOver(old(w.h).(requests := w.h.requests), w.h, if old(nodes) == null then {} else old(nodes.Cs()),
                   news, newCore, queue)
      ensures result == Switched ==>
        && nodes != null && nodes.Cs() == news && fresh(nodes) && nodes.traffic == queue && xcore == newCore
        && xcore !in w.h.closed && (old(xcore) != null ==> old(xcore) in w.h.closed)
        && xcore.reloadCh == (if old(xcore) == null then 0 else old(xcore.reloadCh))
      ensures result == Switched ==>
        nodes.reporting && OnCore(nodes, xcore) && AllServe(nodes.controllers, nodes.Statuses())
      ensures result == Switched && old(nodes) != null ==> AllRetired(StatusesOf(old(nodes.controllers)))
      // After a rollback every switched-on controller is up again.
      ensures result == RolledBack && nodes != null ==>
        && nodes.reporting
        && AllBroughtBack(nodes.controllers, old(nodes.Statuses()), old(w.h), nodes.Statuses(), w.h)
    {
      hide CutOver, AllBroughtBack, AllServe, AllRetired, StatusesOf;
      ghost var before := w.h;
      news, newCore, queue := {}, null, null;
      var core, newNodes := Build(w, protocols, if xcore == null then 0 else xcore.reloadCh);
      ReadyByUp(nodes, before, w.h);
      if newNodes == null {
        return Rejected, news, newCore, queue;
      }
      // No old node is as good as one without controllers.
      var oldNodes, oldCore := nodes, xcore;
      if oldNodes == null {
        oldNodes := new Node([], newNodes.traffic);
      }
      assert nodes != null ==> oldNodes.Statuses() == old(nodes.Statuses());
      news, newCore, queue := newNodes.Cs(), core, oldNodes.traffic;
      ghost var h, olds, cs, statuses := w.h, oldNodes.Cs(), oldNodes.controllers, oldNodes.Statuses();
      assert nodes == null ==> olds == {};
      var ok, restored := SwitchOver(w, oldNodes, oldCore, newNodes, core);
      CutOverIsQuiet(h, w.h, olds, news, core, queue);
      BroughtBackByStops(cs, statuses, before, h, oldNodes.Statuses(), w.h);
      if ok {
        nodes, xcore := newNodes, core;
      }
      result := if ok then Switched else if restored then RolledBack else RollbackFailed;
    }
  }
}
