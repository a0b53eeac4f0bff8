// From the datagrams that arrive to the messages a reader takes, through a queue
// of limited length.
module Inbox {
  import opened Bytes
  import opened Codec
  import opened Defragger
  import opened Reassembly
  import opened PacketConn
  import opened Wrappers

  const QUEUE_LEN := 64

  // ---------- Specification ----------

  // The defragger's table, the messages waiting, and those taken by readers.
  datatype View = View(table: Table, queue: seq<UdpMessage>, taken: seq<UdpMessage>)

  // A message arrives, or a reader takes one; a reader that gives up takes none.
  datatype Event = Arrive(m: UdpMessage) | Take

  function Queued(queue: seq<UdpMessage>, m: Option<UdpMessage>): seq<UdpMessage> {
    if m.Some? && |queue| < QUEUE_LEN then queue + [m.value] else queue
  }

  function Step(v: View, e: Event): View {
    match e
    case Arrive(m) => v.(table := FeedTable(v.table, m), queue := Queued(v.queue, FeedOutput(v.table, m)))
    case Take => if v.queue == [] then v else v.(queue := v.queue[1..], taken := v.taken + [v.queue[0]])
  }

  function After(t: Table, events: seq<Event>): View {
    if events == [] then View(t, [], []) else Step(After(t, events[..|events| - 1]), events[|events| - 1])
  }

  lemma WholeMessage(t: Table, m: UdpMessage)
    ensures m.fragmentTotal <= 1 ==> FeedTable(t, m) == t && FeedOutput(t, m) == Some(m)
  {
  }

  // ---------- Implementation ----------

  class UdpPacketInbox {
    const defragger: UdpDefragger
    var data: seq<UdpMessage>

    constructor ()
      ensures fresh(defragger) && defragger.Valid() && defragger.table == map[] && defragger.repr == {} && data == []
    {
      defragger := new UdpDefragger();
      data := [];
    }

    // The queue never blocks the receiver: what finds it full is dropped.
    method InputPacket(message: UdpMessage)
      requires defragger.Valid()
      modifies this, defragger, defragger.repr
      ensures defragger.Valid() && fresh(defragger.repr - old(defragger.repr))
      ensures View(defragger.table, data, []) == Step(View(old(defragger.table), old(data), []), Arrive(message))
    {
      WholeMessage(defragger.table, message);
      hide FeedTable, FeedOutput;
      if message.fragmentTotal <= 1 {
        data := Queued(data, Some(message));
        return;
      }
      var newMessage := defragger.Feed(message);
      if newMessage.Some? {
        data := Queued(data, newMessage);
      }
    }

    // Gives up when the connection ends or the deadline passes.
    method ReadPacket() returns (r: Option<UdpMessage>)
      modifies this
      ensures r.None? ==> data == old(data)
      ensures r.Some? ==> old(data) != []
      ensures r.Some? ==> View(map[], data, [r.value]) == Step(View(map[], old(data), []), Take)
    {
      var stop: bool := *;
      if stop || data == [] {
        return None;
      }
      r := Some(data[0]);
      data := data[1..];
    }
  }

  // ---------- What the reader gets ----------

  // The messages that arrived, in order.
  function Arrived(events: seq<Event>): seq<UdpMessage> {
    if events == [] then []
    else
      var e := events[|events| - 1];
      Arrived(events[..|events| - 1]) + if e.Arrive? then [e.m] else []
  }

  // What the defragger hands over, in order.
  function Outputs(t: Table, trace: seq<UdpMessage>): seq<UdpMessage> {
    if trace == [] then []
    else
      var n := |trace| - 1;
      Outputs(t, trace[..n]) + if Output(t, trace, n).Some? then [Output(t, trace, n).value] else []
  }

  // Something is handed over while the queue is full.
  predicate Overflows(t: Table, events: seq<Event>) {
    events != [] &&
      var v, e := After(t, events[..|events| - 1]), events[|events| - 1];
      Overflows(t, events[..|events| - 1]) || (e.Arrive? && FeedOutput(v.table, e.m).Some? && |v.queue| >= QUEUE_LEN)
  }

  lemma {:induction false} TableAfter(t: Table, events: seq<Event>)
    ensures After(t, events).table == Run(t, Arrived(events))
  {
    if events != [] {
      var n := |events| - 1;
      TableAfter(t, events[..n]);
      if events[n].Arrive? {
        assert Arrived(events)[..|Arrived(events)| - 1] == Arrived(events[..n]);
      } else {
        assert Arrived(events) == Arrived(events[..n]);
      }
    }
  }

  // One more arrival is one more output, if the defragger hands something over.
  lemma OutputsGrow(t: Table, trace: seq<UdpMessage>, m: UdpMessage)
    ensures Outputs(t, trace + [m]) ==
      Outputs(t, trace) + var r := FeedOutput(Run(t, trace), m); if r.Some? then [r.value] else []
  {
    assert (trace + [m])[..|trace|] == trace;
  }

  // All messages that were queued, in order.
  function Kept(v: View): seq<UdpMessage> { v.taken + v.queue }

  // A step only adds to what was queued, and only what is handed over while there
  // is room; taking moves the first one.
  lemma StepKeeps(v: View, e: Event)
    ensures v.taken <= Step(v, e).taken
    ensures e.Take? ==> Kept(Step(v, e)) == Kept(v)
    ensures e.Arrive? ==>
      var r := FeedOutput(v.table, e.m);
      Kept(Step(v, e)) == if r.Some? && |v.queue| < QUEUE_LEN then Kept(v) + [r.value] else Kept(v)
    ensures |v.queue| <= QUEUE_LEN ==> |Step(v, e).queue| <= QUEUE_LEN
  {
    hide FeedOutput, FeedTable;
    match e
    case Arrive(m) =>
      var r := FeedOutput(v.table, m);
      assert r.Some? ==> v.taken + (v.queue + [r.value]) == v.taken + v.queue + [r.value];
    case Take =>
      assert v.queue != [] ==> v.taken + v.queue == v.taken + [v.queue[0]] + v.queue[1..];
  }

  // First in, first out: nothing overtakes what is queued.
  lemma {:induction false} NothingOvertakes(t: Table, events: seq<Event>, n: nat)
    requires n <= |events|
    ensures After(t, events[..n]).taken <= After(t, events).taken
    ensures Kept(After(t, events[..n])) <= Kept(After(t, events))
  {
    if n == |events| {
      assert events[..n] == events;
    } else {
      var last := |events| - 1;
      assert events[..last][..n] == events[..n];
      NothingOvertakes(t, events[..last], n);
      StepKeeps(After(t, events[..last]), events[last]);
      hide Step, Kept;
    }
  }

  function Takes(k: nat): seq<Event> { seq(k, _ => Take) }

  // As many reads as there are messages waiting take them all, in order.
  lemma {:induction false} TakesDrain(t: Table, events: seq<Event>, k: nat)
    ensures Took(After(t, events), After(t, events + Takes(k)), k)
  {
    if k == 0 {
      assert events + Takes(0) == events;
    } else {
      var all := events + Takes(k);
      assert all[..|all| - 1] == events + Takes(k - 1) && all[|all| - 1] == Take;
      TakesDrain(t, events, k - 1);
      hide Takes, Step, Kept;
      OneMoreTake(After(t, events), After(t, events + Takes(k - 1)), k);
    }
  }

  // The first k messages waiting in v have been taken.
  predicate Took(v: View, w: View, k: nat) {
    && w.table == v.table
    && (k <= |v.queue| ==> w.taken == v.taken + v.queue[..k] && w.queue == v.queue[k..])
    && (k >= |v.queue| ==> w.taken == Kept(v) && w.queue == [])
  }

  lemma OneMoreTake(v: View, w: View, k: nat)
    requires k > 0 && Took(v, w, k - 1)
    ensures Took(v, Step(w, Take), k)
  {
    if k <= |v.queue| {
      assert v.queue[k - 1..][1..] == v.queue[k..];
      assert v.queue[..k] == v.queue[..k - 1] + [v.queue[k - 1]];
      assert v.queue[..|v.queue|] == v.queue;
    }
  }

  // Whatever arrives and is read in whatever order: readers get what the defragger
  // hands over, in that order and without repetition, and all of it if and only if
  // the queue never overflows.
  lemma {:induction false} AllReadIff(t: Table, events: seq<Event>)
    ensures var v, outputs := After(t, events), Outputs(t, Arrived(events));
            && |v.queue| <= 64 && |Kept(v)| <= |outputs|
            && (Kept(v) == outputs <==> !Overflows(t, events))
            && (|Kept(v)| == |outputs| <==> !Overflows(t, events))
  {
    if events != [] {
      var n := |events| - 1;
      var before, e := events[..n], events[n];
      AllReadIff(t, before);
      StepKeeps(After(t, before), e);
      TableAfter(t, before);
      if e.Arrive? {
        OutputsGrow(t, Arrived(before), e.m);
      } else {
        assert Arrived(events) == Arrived(before);
      }
      hide Outputs, Run, FeedOutput, FeedTable, Step, Kept;
    }
  }

  // So the message that the last missing datagram completes waits behind the ones
  // before it if and only if these are fewer than 64; otherwise it is lost.
  lemma ReachesReader(
      m: UdpMessage, frags: seq<UdpMessage>, t: Table, events: seq<Event>, arrivals: seq<seq<byte>>, lost: nat)
    requires Arrivals(m, frags, arrivals) && m.packetID !in t && arrivals != []
    requires lost < |frags| && Wires(frags)[lost] !in arrivals[..|arrivals| - 1]
    requires forall w :: w in Wires(frags) ==> w in arrivals
    requires events != [] && events[|events| - 1].Arrive? && Arrived(events) == Decoded(arrivals)
    ensures var v, v' := After(t, events[..|events| - 1]), After(t, events);
            && v'.taken == v.taken
            && v'.queue == if |v.queue| < 64 then v.queue + [Reassembled(m, |frags|)] else v.queue
  {
    var n := |events| - 1;
    DeliveredEndToEnd(m, frags, t, arrivals, lost);
    TableAfter(t, events[..n]);
    var trace := Decoded(arrivals);
    assert trace[..|trace| - 1] == Arrived(events[..n]) && trace[|trace| - 1] == events[n].m;
    hide Run, FeedOutput, FeedTable, Arrivals, Decoded, Arrived;
  }

  // ---------- Sessions ----------

  // The defragger of each session's connection; a session without one gets an
  // empty one.
  type Sessions = map<uint16, Table>

  function TableOf(sessions: Sessions, session: uint16): Table {
    if session in sessions then sessions[session] else map[]
  }

  // A message goes to the defragger of the session that it names.
  function Routed(sessions: Sessions, trace: seq<UdpMessage>): Sessions {
    if trace == [] then sessions
    else
      var before, m := Routed(sessions, trace[..|trace| - 1]), trace[|trace| - 1];
      before[m.sessionID := FeedTable(TableOf(before, m.sessionID), m)]
  }

  // What the connection of its session gets when the j-th message arrives.
  function RoutedOutput(sessions: Sessions, trace: seq<UdpMessage>, j: nat): Option<UdpMessage>
    requires j < |trace|
  {
    FeedOutput(TableOf(Routed(sessions, trace[..j]), trace[j].sessionID), trace[j])
  }

  // The messages that name a session.
  function OfSession(trace: seq<UdpMessage>, session: uint16): seq<UdpMessage> {
    if trace == [] then []
    else
      var e := trace[|trace| - 1];
      OfSession(trace[..|trace| - 1], session) + if e.sessionID == session then [e] else []
  }

  lemma {:induction false} InOfSession(trace: seq<UdpMessage>, session: uint16, e: UdpMessage)
    ensures e in OfSession(trace, session) <==> e in trace && e.sessionID == session
  {
    if trace != [] {
      var n := |trace| - 1;
      assert trace == trace[..n] + [trace[n]];
      InOfSession(trace[..n], session, e);
    }
  }

  lemma OfSessionSnoc(trace: seq<UdpMessage>, e: UdpMessage, session: uint16)
    ensures OfSession(trace + [e], session) == OfSession(trace, session) + if e.sessionID == session then [e] else []
  {
    assert (trace + [e])[..|trace|] == trace;
  }

  lemma RunSnoc(t: Table, trace: seq<UdpMessage>, e: UdpMessage)
    ensures Run(t, trace + [e]) == FeedTable(Run(t, trace), e)
  {
    assert (trace + [e])[..|trace|] == trace;
  }

  lemma RoutedSnoc(sessions: Sessions, trace: seq<UdpMessage>, e: UdpMessage, session: uint16)
    ensures var t := TableOf(Routed(sessions, trace), session);
            TableOf(Routed(sessions, trace + [e]), session) == if e.sessionID == session then FeedTable(t, e) else t
  {
    assert (trace + [e])[..|trace|] == trace;
    hide FeedTable;
  }

  // Sessions do not disturb each other.
  lemma {:induction false} SessionsApart(sessions: Sessions, trace: seq<UdpMessage>, session: uint16)
    ensures TableOf(Routed(sessions, trace), session) == Run(TableOf(sessions, session), OfSession(trace, session))
  {
    if trace != [] {
      var n := |trace| - 1;
      var before, e := trace[..n], trace[n];
      assert trace == before + [e];
      SessionsApart(sessions, before, session);
      hide *;
      OfSessionSnoc(before, e, session);
      RoutedSnoc(sessions, before, e, session);
      RunSnoc(TableOf(sessions, session), OfSession(before, session), e);
      assert OfSession(before, session) + [] == OfSession(before, session);
    }
  }

  // So what a message yields depends on the messages of its session alone.
  lemma OutputOfSession(sessions: Sessions, trace: seq<UdpMessage>, j: nat)
    requires j < |trace|
    ensures var session := trace[j].sessionID;
            var ours, k := OfSession(trace, session), |OfSession(trace[..j], session)|;
            && k < |ours| && ours[..k] == OfSession(trace[..j], session) && ours[k] == trace[j]
            && RoutedOutput(sessions, trace, j) == Output(TableOf(sessions, session), ours, k)
  {
    var session := trace[j].sessionID;
    hide OfSession, Routed, FeedOutput, Run, TableOf;
    SessionsApart(sessions, trace[..j], session);
    assert trace[..j + 1] == trace[..j] + [trace[j]];
    OfSessionSnoc(trace[..j], trace[j], session);
    OfSessionPrefix(trace, j + 1, session);
  }

  lemma {:induction false} OfSessionPrefix(trace: seq<UdpMessage>, j: nat, session: uint16)
    requires j <= |trace|
    ensures OfSession(trace[..j], session) <= OfSession(trace, session)
  {
    if j == |trace| {
      assert trace[..j] == trace;
    } else {
      var n := |trace| - 1;
      assert trace[..n][..j] == trace[..j] && trace == trace[..n] + [trace[n]];
      OfSessionPrefix(trace[..n], j, session);
      OfSessionSnoc(trace[..n], trace[n], session);
      hide OfSession;
    }
  }

  // From every datagram that reaches a session's packet ID a fragment of m is
  // decoded; datagrams of other sessions are free to use the same packet ID.
  ghost predicate SessionArrivals(m: UdpMessage, frags: seq<UdpMessage>, arrivals: seq<seq<byte>>) {
    && IsSplit(m, frags) && AllWritable(frags) && Portable(m)
    && (forall b :: b in arrivals ==> Decodes(b))
    && (forall b :: b in arrivals && Decode(b).sessionID == m.sessionID && Competes(Decode(b), m) ==> b in Wires(frags))
  }

  lemma SplitSession(m: UdpMessage, frags: seq<UdpMessage>, i: nat)
    requires IsSplit(m, frags) && i < |frags|
    ensures frags[i].sessionID == m.sessionID && Competes(frags[i], m) && frags[i].fragmentID == i
  {
    SplitFacts(m, frags);
  }

  // A datagram decodes to a fragment exactly when it is that fragment's.
  lemma DecodedAt(m: UdpMessage, frags: seq<UdpMessage>, arrivals: seq<seq<byte>>, j: nat, i: nat)
    requires SessionArrivals(m, frags, arrivals) && j < |arrivals| && i < |frags|
    ensures Decoded(arrivals)[j] == frags[i] <==> arrivals[j] == Wires(frags)[i]
  {
    SplitSession(m, frags, i);
    FragmentDecodes(m, frags, i);
    hide IsSplit, Portable, WireMessage, Decodes, Decode;
    assert arrivals[j] in arrivals;
    if Decode(arrivals[j]) == frags[i] {
      var k :| 0 <= k < |frags| && arrivals[j] == Wires(frags)[k];
      FragmentDecodes(m, frags, k);
      SplitSession(m, frags, k);
    }
  }

  lemma SeenInSession(m: UdpMessage, frags: seq<UdpMessage>, arrivals: seq<seq<byte>>, n: nat, i: nat)
    requires SessionArrivals(m, frags, arrivals) && n <= |arrivals| && i < |frags|
    ensures frags[i] in OfSession(Decoded(arrivals)[..n], m.sessionID) <==> Wires(frags)[i] in arrivals[..n]
  {
    SplitSession(m, frags, i);
    InOfSession(Decoded(arrivals)[..n], m.sessionID, frags[i]);
    var trace, w := Decoded(arrivals), Wires(frags)[i];
    forall j | 0 <= j < n ensures trace[..n][j] == frags[i] <==> arrivals[..n][j] == w {
      DecodedAt(m, frags, arrivals, j, i);
    }
    hide *;
    if frags[i] in trace[..n] {
      var j :| 0 <= j < n && trace[..n][j] == frags[i];
      assert arrivals[..n][j] == w;
    }
    if w in arrivals[..n] {
      var j :| 0 <= j < n && arrivals[..n][j] == w;
      assert trace[..n][j] == frags[i];
    }
  }

  // An earlier message of the session comes earlier among the messages of the
  // session.
  lemma EarlierInSession(trace: seq<UdpMessage>, j: nat, n: nat)
    requires j < n <= |trace|
    ensures |OfSession(trace[..j], trace[j].sessionID)| < |OfSession(trace[..n], trace[j].sessionID)|
  {
    assert trace[..n][..j + 1] == trace[..j] + [trace[j]];
    OfSessionSnoc(trace[..j], trace[j], trace[j].sessionID);
    OfSessionPrefix(trace[..n], j + 1, trace[j].sessionID);
    hide OfSession;
  }

  // The first message of the session that completes the fragments is the last one
  // of the trace.
  ghost predicate CompletesLast(frags: seq<UdpMessage>, trace: seq<UdpMessage>, session: uint16) {
    && trace != []
    && var n := |trace| - 1;
    && OfSession(trace, session) == OfSession(trace[..n], session) + [trace[n]]
    && trace[n].sessionID == session
    && Missing(frags, OfSession(trace[..n], session)) && !Missing(frags, OfSession(trace, session))
  }

  lemma RoutedLast(m: UdpMessage, frags: seq<UdpMessage>, sessions: Sessions, trace: seq<UdpMessage>)
    requires IsSplit(m, frags) && m.packetID !in TableOf(sessions, m.sessionID)
    requires Admissible(m, frags, OfSession(trace, m.sessionID)) && CompletesLast(frags, trace, m.sessionID)
    ensures trace != [] && RoutedOutput(sessions, trace, |trace| - 1) == Some(Reassembled(m, |frags|))
  {
    var n, ours := |trace| - 1, OfSession(trace, m.sessionID);
    assert ours[..|ours| - 1] == OfSession(trace[..n], m.sessionID);
    hide *;
    ReassembledOnce(m, frags, TableOf(sessions, m.sessionID), ours);
    OutputOfSession(sessions, trace, n);
  }

  lemma RoutedBefore(m: UdpMessage, frags: seq<UdpMessage>, sessions: Sessions, trace: seq<UdpMessage>, j: nat)
    requires IsSplit(m, frags) && m.packetID !in TableOf(sessions, m.sessionID)
    requires Admissible(m, frags, OfSession(trace, m.sessionID)) && CompletesLast(frags, trace, m.sessionID)
    requires j < |trace| - 1 && trace[j] in frags
    ensures RoutedOutput(sessions, trace, j) == None
  {
    var n, ours := |trace| - 1, OfSession(trace, m.sessionID);
    assert ours[..|ours| - 1] == OfSession(trace[..n], m.sessionID);
    var k :| 0 <= k < |frags| && trace[j] == frags[k];
    hide *;
    SplitSession(m, frags, k);
    ReassembledOnce(m, frags, TableOf(sessions, m.sessionID), ours);
    EarlierInSession(trace, j, n);
    OutputOfSession(sessions, trace, j);
  }

  lemma LastInSession(m: UdpMessage, frags: seq<UdpMessage>, arrivals: seq<seq<byte>>, lost: nat)
    requires SessionArrivals(m, frags, arrivals) && arrivals != []
    requires lost < |frags| && Wires(frags)[lost] !in arrivals[..|arrivals| - 1]
    requires forall w :: w in Wires(frags) ==> w in arrivals
    ensures CompletesLast(frags, Decoded(arrivals), m.sessionID)
    ensures Decode(arrivals[|arrivals| - 1]).sessionID == m.sessionID
  {
    hide OfSession, IsSplit, Portable, Decode, Decodes, WireMessage, Missing, Competes;
    var trace, n := Decoded(arrivals), |arrivals| - 1;
    assert trace[..n + 1] == trace && arrivals[..n + 1] == arrivals;
    SeenInSession(m, frags, arrivals, n, lost);
    forall i | 0 <= i < |frags| ensures frags[i] in OfSession(trace, m.sessionID) {
      assert Wires(frags)[i] in arrivals;
      SeenInSession(m, frags, arrivals, n + 1, i);
    }
    hide SessionArrivals, Wires;
    LastOfSession(frags, trace, m.sessionID, lost);
  }

  lemma LastOfSession(frags: seq<UdpMessage>, trace: seq<UdpMessage>, session: uint16, lost: nat)
    requires trace != [] && lost < |frags| && frags[lost] !in OfSession(trace[..|trace| - 1], session)
    requires forall i :: 0 <= i < |frags| ==> frags[i] in OfSession(trace, session)
    ensures CompletesLast(frags, trace, session)
  {
    var n := |trace| - 1;
    var before := OfSession(trace[..n], session);
    assert trace == trace[..n] + [trace[n]];
    OfSessionSnoc(trace[..n], trace[n], session);
    hide OfSession;
    assert before + [] == before;
  }

  lemma InSessionAdmissible(m: UdpMessage, frags: seq<UdpMessage>, arrivals: seq<seq<byte>>)
    requires SessionArrivals(m, frags, arrivals)
    ensures Admissible(m, frags, OfSession(Decoded(arrivals), m.sessionID))
  {
    hide IsSplit, Portable, WireMessage, Decodes, Decode;
    var trace := Decoded(arrivals);
    forall e | e in OfSession(trace, m.sessionID) && Competes(e, m) ensures e in frags {
      InOfSession(trace, m.sessionID, e);
      var j :| 0 <= j < |trace| && trace[j] == e;
      assert arrivals[j] in arrivals;
      var k :| 0 <= k < |frags| && arrivals[j] == Wires(frags)[k];
      FragmentDecodes(m, frags, k);
    }
  }

  // End to end with sessions: whatever else arrives for other sessions, and for
  // other packet IDs of this one, the connection of the session of m gets nothing
  // from the datagrams of m before the last missing one, and then exactly m.
  lemma DeliveredToSession(m: UdpMessage, frags: seq<UdpMessage>, sessions: Sessions, arrivals: seq<seq<byte>>, lost: nat)
    requires SessionArrivals(m, frags, arrivals) && m.packetID !in TableOf(sessions, m.sessionID) && arrivals != []
    requires lost < |frags| && Wires(frags)[lost] !in arrivals[..|arrivals| - 1]
    requires forall w :: w in Wires(frags) ==> w in arrivals
    ensures forall j :: 0 <= j < |arrivals| - 1 && arrivals[j] in Wires(frags) ==>
      RoutedOutput(sessions, Decoded(arrivals), j) == None
    ensures Decode(arrivals[|arrivals| - 1]).sessionID == m.sessionID
    ensures RoutedOutput(sessions, Decoded(arrivals), |arrivals| - 1) == Some(Reassembled(m, |frags|))
  {
    var trace, n := Decoded(arrivals), |arrivals| - 1;
    LastInSession(m, frags, arrivals, lost);
    InSessionAdmissible(m, frags, arrivals);
    hide IsSplit, Output, RoutedOutput, Missing, Decode, Decodes, Admissible, CompletesLast, Portable;
    RoutedLast(m, frags, sessions, trace);
    forall j | 0 <= j < n && arrivals[j] in Wires(frags) ensures RoutedOutput(sessions, trace, j) == None {
      var k :| 0 <= k < |frags| && arrivals[j] == Wires(frags)[k];
      DecodedAt(m, frags, arrivals, j, k);
      RoutedBefore(m, frags, sessions, trace, j);
    }
  }
}
