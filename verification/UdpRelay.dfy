// How the UDP messages of a TUIC session reach their relay connection: the
// double-checked session map, the once-only start of the handler, dissociation
// and close, under every interleaving.
module UdpRelay {
  import Executions
  import opened Bytes
  import opened Wrappers

  // A message: its session ID and whether it names a valid destination.
  datatype Message = Message(session: uint16, valid: bool)

  // A relay connection. closed is its own cancelled context, once its closeOnce.
  // starter, offered and launches record history: the goroutine whose message
  // won markStarted, the goroutines whose messages were put to inputPacket, and
  // how often the handler was launched.
  datatype Conn = Conn(
    session: uint16,
    closed: bool,
    once: bool,
    started: bool,
    starter: Option<nat>,
    offered: set<nat>,
    launches: nat)

  // A goroutine in handleUDPMessage.
  datatype Handler =
    | Begin(m: Message)
    | Looked(m: Message, found: Option<nat>)
    | Creating(m: Message, created: nat)
    | Chosen(m: Message, conn: nat)
    | Marked(m: Message, conn: nat, start: bool)
    | Fed(m: Message, conn: nat, start: bool)
    | Ended(m: Message, conn: nat, start: bool)
  {
    predicate HasConn() { Chosen? || Marked? || Fed? || Ended? }
    predicate Won() { (Marked? || Fed? || Ended?) && start }
  }

  // A goroutine that dissociates a session or destroys a connection.
  datatype Remover =
    | Dissociating(session: uint16)
    | Cancelling(session: uint16, conn: nat)
    | Deleting(session: uint16)
    | Gone

  // removed records whether any dissociation, close or context end has begun, late
  // whether any table entry of an open connection has been deleted.
  datatype State = State(
    conns: seq<Conn>,
    table: map<uint16, nat>,
    handlers: seq<Handler>,
    removers: seq<Remover>,
    ctxDone: bool,
    removed: bool,
    late: bool)

  datatype Step =
    | Arrive(m: Message)
    | Look(i: nat)
    | Check(i: nat)
    | Insert(i: nat)
    | Mark(i: nat)
    | Offer(i: nat)
    | Finish(i: nat)
    | Dissociate(session: uint16)
    | DissociateLook(k: nat)
    | DissociateCancel(k: nat)
    | Delete(k: nat)
    | CloseConn(c: nat)
    | CancelContext

  predicate Init(s: State) { s == State([], map[], [], [], false, false, false) }

  function Lookup(s: State, session: uint16): Option<nat> {
    if session in s.table then Some(s.table[session]) else None
  }

  // udpConn == nil || udpConn.done()
  predicate Unusable(s: State, found: Option<nat>) {
    found.None? || s.ctxDone || found.value >= |s.conns| || s.conns[found.value].closed
  }

  // The connection is neither cancelled itself nor by the end of its context.
  predicate Open(s: State, c: nat) { !s.ctxDone && c < |s.conns| && !s.conns[c].closed }

  // The deletion of an entry comes late when the entry is by now that of an open
  // connection.
  predicate Late(s: State, session: uint16) { session in s.table && Open(s, s.table[session]) }

  function NewConn(session: uint16): Conn { Conn(session, false, false, false, None, {}, 0) }

  function WithConn(s: State, c: nat, conn: Conn): State
    requires c < |s.conns|
  {
    s.(conns := s.conns[c := conn])
  }

  predicate HandlerEnabled(s: State, step: Step) {
    match step
    case Arrive(_) => true
    case Look(i) => i < |s.handlers| && s.handlers[i].Begin?
    case Check(i) => i < |s.handlers| && s.handlers[i].Looked?
    case Insert(i) => i < |s.handlers| && s.handlers[i].Creating? && s.handlers[i].created < |s.conns|
    case Mark(i) => i < |s.handlers| && s.handlers[i].Chosen? && s.handlers[i].conn < |s.conns|
    case Offer(i) => i < |s.handlers| && s.handlers[i].Marked? && s.handlers[i].conn < |s.conns|
    case Finish(i) => i < |s.handlers| && s.handlers[i].Fed? && s.handlers[i].conn < |s.conns|
    case _ => false
  }

  function ApplyHandler(s: State, step: Step): State
    requires HandlerEnabled(s, step)
  {
    match step
    case Arrive(m) => s.(handlers := s.handlers + [Begin(m)])
    case Look(i) =>
      var m := s.handlers[i].m;
      s.(handlers := s.handlers[i := Looked(m, Lookup(s, m.session))])
    case Check(i) =>
      var m := s.handlers[i].m;
      if Unusable(s, s.handlers[i].found) then
        s.(conns := s.conns + [NewConn(m.session)], handlers := s.handlers[i := Creating(m, |s.conns|)])
      else
        s.(handlers := s.handlers[i := Chosen(m, s.handlers[i].found.value)])
    case Insert(i) =>
      // The second look, under the write lock: keep a usable connection that
      // appeared meanwhile and cancel the new one.
      var m, created := s.handlers[i].m, s.handlers[i].created;
      if Unusable(s, Lookup(s, m.session)) then
        s.(table := s.table[m.session := created], handlers := s.handlers[i := Chosen(m, created)])
      else
        WithConn(s, created, s.conns[created].(closed := true)).(
          handlers := s.handlers[i := Chosen(m, s.table[m.session])])
    case Mark(i) =>
      var m, c := s.handlers[i].m, s.handlers[i].conn;
      var start := m.valid && !s.conns[c].started;
      WithConn(s, c, if start then s.conns[c].(started := true, starter := Some(i)) else s.conns[c]).(
        handlers := s.handlers[i := Marked(m, c, start)])
    case Offer(i) =>
      var h := s.handlers[i];
      WithConn(s, h.conn, s.conns[h.conn].(offered := s.conns[h.conn].offered + {i})).(
        handlers := s.handlers[i := Fed(h.m, h.conn, h.start)])
    case Finish(i) =>
      var h := s.handlers[i];
      WithConn(s, h.conn, s.conns[h.conn].(launches := s.conns[h.conn].launches + if h.start then 1 else 0)).(
        handlers := s.handlers[i := Ended(h.m, h.conn, h.start)])
  }

  predicate RemoverEnabled(s: State, step: Step) {
    match step
    case Dissociate(_) => true
    case DissociateLook(k) => k < |s.removers| && s.removers[k].Dissociating?
    case DissociateCancel(k) => k < |s.removers| && s.removers[k].Cancelling? && s.removers[k].conn < |s.conns|
    case Delete(k) => k < |s.removers| && s.removers[k].Deleting?
    case CloseConn(c) => c < |s.conns| && !s.conns[c].once
    case CancelContext => true
    case _ => false
  }

  function ApplyRemover(s: State, step: Step): State
    requires RemoverEnabled(s, step)
  {
    match step
    case Dissociate(session) => s.(removers := s.removers + [Dissociating(session)], removed := true)
    case DissociateLook(k) =>
      var session := s.removers[k].session;
      var found := Lookup(s, session);
      s.(removers := s.removers[k := if found.None? then Gone else Cancelling(session, found.value)])
    case DissociateCancel(k) =>
      var r := s.removers[k];
      WithConn(s, r.conn, s.conns[r.conn].(closed := true)).(removers := s.removers[k := Deleting(r.session)])
    case Delete(k) =>
      // Whatever connection the session has by now loses its entry.
      var session := s.removers[k].session;
      s.(table := s.table - {session}, removers := s.removers[k := Gone], late := s.late || Late(s, session))
    case CloseConn(c) =>
      WithConn(s, c, s.conns[c].(closed := true, once := true)).(
        removers := s.removers + [Deleting(s.conns[c].session)], removed := true)
    case CancelContext => s.(ctxDone := true, removed := true)
  }

  predicate Enabled(s: State, step: Step) { HandlerEnabled(s, step) || RemoverEnabled(s, step) }

  function Apply(s: State, step: Step): State
    requires Enabled(s, step)
  {
    if HandlerEnabled(s, step) then ApplyHandler(s, step) else ApplyRemover(s, step)
  }

  ghost predicate Next(s: State, s': State) {
    exists step :: Enabled(s, step) && s' == Apply(s, step)
  }

  ghost predicate Execution(states: seq<State>) {
    Executions.Execution(Init, Next, states)
  }

  // ---------- Invariant ----------

  ghost predicate ConnOf(s: State, c: nat, session: uint16) {
    c < |s.conns| && s.conns[c].session == session
  }

  ghost predicate RefOk(s: State, h: Handler) {
    match h
    case Begin(_) => true
    case Looked(m, found) => found.Some? ==> ConnOf(s, found.value, m.session)
    case Creating(m, created) => ConnOf(s, created, m.session)
    case Chosen(m, c) => ConnOf(s, c, m.session)
    case Marked(m, c, _) => ConnOf(s, c, m.session)
    case Fed(m, c, _) => ConnOf(s, c, m.session)
    case Ended(m, c, _) => ConnOf(s, c, m.session)
  }

  // Every reference to a connection is to one of the right session.
  ghost predicate RefsInv(s: State) {
    && (forall session :: session in s.table ==> ConnOf(s, s.table[session], session))
    && (forall i :: 0 <= i < |s.handlers| ==> RefOk(s, s.handlers[i]))
    && (forall k :: 0 <= k < |s.removers| && s.removers[k].Cancelling? ==>
          ConnOf(s, s.removers[k].conn, s.removers[k].session))
  }

  // A handler that won markStarted is the starter; a valid message that has passed
  // it has started its connection; one past inputPacket has been offered.
  ghost predicate ProgressOk(s: State, i: nat)
    requires i < |s.handlers|
  {
    var h := s.handlers[i];
    && (h.HasConn() ==> h.conn < |s.conns|)
    && (h.Won() ==> h.m.valid && s.conns[h.conn].starter == Some(i))
    && (h.Marked? || h.Fed? || h.Ended? ==> h.m.valid ==> s.conns[h.conn].started)
    && (h.Fed? || h.Ended? ==> i in s.conns[h.conn].offered)
  }

  // The messages offered to a connection are those of the handlers that chose it;
  // it is started by one of them, and launched when that one is done.
  ghost predicate StarterOk(s: State, c: nat)
    requires c < |s.conns|
  {
    && (forall i :: i in s.conns[c].offered ==>
          i < |s.handlers| && (s.handlers[i].Fed? || s.handlers[i].Ended?) && s.handlers[i].conn == c)
    && match s.conns[c].starter
       case None => !s.conns[c].started && s.conns[c].launches == 0
       case Some(i) =>
         && s.conns[c].started
         && i < |s.handlers| && s.handlers[i].Won() && s.handlers[i].conn == c
         && s.conns[c].launches == (if s.handlers[i].Ended? then 1 else 0)
  }

  ghost predicate StartInv(s: State) {
    && (forall i :: 0 <= i < |s.handlers| ==> ProgressOk(s, i))
    && (forall c :: 0 <= c < |s.conns| ==> StarterOk(s, c))
  }

  // A connection in the table was put there by a handler that chose it.
  ghost predicate TableInv(s: State) {
    forall session :: session in s.table ==> ChosenBy(s, s.table[session])
  }

  ghost predicate ChosenBy(s: State, c: nat) {
    exists i :: 0 <= i < |s.handlers| && s.handlers[i].HasConn() && s.handlers[i].conn == c
  }

  // Until the first late deletion an open connection that a handler has chosen or
  // found is its session's entry, and one that is being created is nobody else's.
  ghost predicate EntryOk(s: State, h: Handler) {
    && (h.HasConn() && Open(s, h.conn) ==> Lookup(s, h.m.session) == Some(h.conn))
    && (h.Looked? && h.found.Some? && Open(s, h.found.value) ==> Lookup(s, h.m.session) == h.found)
    && (h.Creating? ==> h.created !in s.table.Values)
  }

  ghost predicate Distinct(s: State) {
    forall i, j :: 0 <= i < j < |s.handlers| && s.handlers[i].Creating? && s.handlers[j].Creating? ==>
      s.handlers[i].created != s.handlers[j].created
  }

  ghost predicate EntriesInv(s: State) {
    (forall i :: 0 <= i < |s.handlers| ==> EntryOk(s, s.handlers[i])) && Distinct(s)
  }

  // Nothing is closed before it is published while nothing has been removed.
  ghost predicate QuietInv(s: State) {
    !s.removed ==>
      && !s.ctxDone && s.removers == []
      && (forall i :: 0 <= i < |s.handlers| && s.handlers[i].HasConn() ==> Open(s, s.handlers[i].conn))
      && (forall i :: 0 <= i < |s.handlers| && s.handlers[i].Creating? ==> Open(s, s.handlers[i].created))
      && (forall session :: session in s.table ==> Open(s, s.table[session]))
  }

  ghost predicate Inv(s: State) {
    && RefsInv(s) && StartInv(s) && TableInv(s) && QuietInv(s)
    && (!s.late ==> EntriesInv(s)) && (!s.removed ==> !s.late)
  }

  lemma RefStaysOk(s: State, s': State, h: Handler)
    requires forall c, session :: ConnOf(s, c, session) ==> ConnOf(s', c, session)
    ensures RefOk(s, h) ==> RefOk(s', h)
  {
  }

  lemma HandlerKeepsConns(s: State, step: Step)
    requires HandlerEnabled(s, step)
    ensures forall c, session :: ConnOf(s, c, session) ==> ConnOf(ApplyHandler(s, step), c, session)
  {
  }

  lemma HandlerKeepsRefs(s: State, step: Step)
    requires RefsInv(s) && HandlerEnabled(s, step)
    ensures RefsInv(ApplyHandler(s, step))
  {
    var s' := ApplyHandler(s, step);
    HandlerKeepsConns(s, step);
    forall i | 0 <= i < |s'.handlers| ensures RefOk(s', s'.handlers[i]) {
      if i < |s.handlers| {
        assert RefOk(s, s.handlers[i]);
        RefStaysOk(s, s', s.handlers[i]);
      }
    }
  }

  lemma RemoverKeepsRefs(s: State, step: Step)
    requires RefsInv(s) && RemoverEnabled(s, step)
    ensures RefsInv(ApplyRemover(s, step))
  {
  }

  lemma ArriveKeepsStart(s: State, step: Step)
    requires StartInv(s) && HandlerEnabled(s, step) && (step.Arrive? || step.Look?)
    ensures StartInv(ApplyHandler(s, step))
  {
    var s' := ApplyHandler(s, step);
    forall i | 0 <= i < |s'.handlers| ensures ProgressOk(s', i) {
      assert i < |s.handlers| ==> ProgressOk(s, i);
    }
    forall c | 0 <= c < |s'.conns| ensures StarterOk(s', c) {
      assert StarterOk(s, c);
    }
  }

  lemma CheckKeepsStart(s: State, step: Step)
    requires RefsInv(s) && StartInv(s) && HandlerEnabled(s, step) && step.Check?
    ensures StartInv(ApplyHandler(s, step))
  {
    var s' := ApplyHandler(s, step);
    assert RefOk(s, s.handlers[step.i]);
    hide RefsInv;
    forall i | 0 <= i < |s'.handlers| ensures ProgressOk(s', i) {
      assert ProgressOk(s, i);
    }
    forall c | 0 <= c < |s'.conns| ensures StarterOk(s', c) {
      assert c < |s.conns| ==> StarterOk(s, c);
    }
  }

  lemma InsertKeepsStart(s: State, step: Step)
    requires RefsInv(s) && StartInv(s) && HandlerEnabled(s, step) && step.Insert?
    ensures StartInv(ApplyHandler(s, step))
  {
    var s' := ApplyHandler(s, step);
    var session := s.handlers[step.i].m.session;
    assert session in s.table ==> ConnOf(s, s.table[session], session);
    hide RefsInv;
    forall i | 0 <= i < |s'.handlers| ensures ProgressOk(s', i) {
      assert ProgressOk(s, i);
    }
    forall c | 0 <= c < |s'.conns| ensures StarterOk(s', c) {
      assert StarterOk(s, c);
    }
  }

  lemma MarkKeepsStart(s: State, step: Step)
    requires StartInv(s) && HandlerEnabled(s, step) && step.Mark?
    ensures StartInv(ApplyHandler(s, step))
  {
    var s' := ApplyHandler(s, step);
    forall i | 0 <= i < |s'.handlers| ensures ProgressOk(s', i) {
      assert i < |s.handlers| ==> ProgressOk(s, i);
      assert i < |s.handlers| && s.handlers[i].HasConn() ==> StarterOk(s, s.handlers[i].conn);
    }
    forall c | 0 <= c < |s'.conns| ensures StarterOk(s', c) {
      assert c < |s.conns| ==> StarterOk(s, c);
    }
  }

  lemma LateKeepsStart(s: State, step: Step)
    requires StartInv(s) && HandlerEnabled(s, step) && (step.Offer? || step.Finish?)
    ensures StartInv(ApplyHandler(s, step))
  {
    var s' := ApplyHandler(s, step);
    forall i | 0 <= i < |s'.handlers| ensures ProgressOk(s', i) {
      assert i < |s.handlers| ==> ProgressOk(s, i);
      assert i < |s.handlers| && s.handlers[i].HasConn() ==> StarterOk(s, s.handlers[i].conn);
    }
    assert ProgressOk(s, step.i);
    forall c | 0 <= c < |s'.conns| ensures StarterOk(s', c) {
      assert c < |s.conns| ==> StarterOk(s, c);
    }
  }

  lemma RemoverKeepsStart(s: State, step: Step)
    requires StartInv(s) && RemoverEnabled(s, step)
    ensures StartInv(ApplyRemover(s, step))
  {
    var s' := ApplyRemover(s, step);
    forall i | 0 <= i < |s'.handlers| ensures ProgressOk(s', i) {
      assert i < |s.handlers| ==> ProgressOk(s, i);
      assert i < |s.handlers| && s.handlers[i].HasConn() ==> StarterOk(s, s.handlers[i].conn);
    }
    forall c | 0 <= c < |s'.conns| ensures StarterOk(s', c) {
      assert c < |s.conns| ==> StarterOk(s, c);
    }
  }

  lemma HandlerKeepsTable(s: State, step: Step)
    requires TableInv(s) && HandlerEnabled(s, step)
    ensures TableInv(ApplyHandler(s, step))
  {
    var s' := ApplyHandler(s, step);
    forall c | ChosenBy(s, c) ensures ChosenBy(s', c) {
      var i :| 0 <= i < |s.handlers| && s.handlers[i].HasConn() && s.handlers[i].conn == c;
      assert s'.handlers[i].HasConn() && s'.handlers[i].conn == c;
    }
    if step.Insert? {
      assert s'.handlers[step.i].HasConn();
    }
  }

  lemma RemoverKeepsTable(s: State, step: Step)
    requires TableInv(s) && RemoverEnabled(s, step)
    ensures TableInv(ApplyRemover(s, step))
  {
    var s' := ApplyRemover(s, step);
    forall c | ChosenBy(s, c) ensures ChosenBy(s', c) {
    }
  }

  lemma LookKeepsEntries(s: State, step: Step)
    requires RefsInv(s) && EntriesInv(s) && HandlerEnabled(s, step) && step.Look?
    ensures EntriesInv(ApplyHandler(s, step))
  {
  }

  lemma CheckKeepsEntries(s: State, step: Step)
    requires RefsInv(s) && EntriesInv(s) && HandlerEnabled(s, step) && step.Check?
    ensures EntriesInv(ApplyHandler(s, step))
  {
  }

  lemma InsertKeepsEntries(s: State, step: Step)
    requires RefsInv(s) && EntriesInv(s) && HandlerEnabled(s, step) && step.Insert?
    ensures EntriesInv(ApplyHandler(s, step))
  {
    var s' := ApplyHandler(s, step);
    forall i | 0 <= i < |s'.handlers| ensures EntryOk(s', s'.handlers[i]) {
      InsertKeepsEntry(s, step, i);
    }
    hide EntryOk, RefsInv;
  }

  lemma InsertKeepsEntry(s: State, step: Step, i: nat)
    requires RefsInv(s) && EntriesInv(s) && HandlerEnabled(s, step) && step.Insert? && i < |s.handlers|
    ensures EntryOk(ApplyHandler(s, step), ApplyHandler(s, step).handlers[i])
  {
    assert RefOk(s, s.handlers[i]) && EntryOk(s, s.handlers[i]);
    assert RefOk(s, s.handlers[step.i]) && EntryOk(s, s.handlers[step.i]);
  }

  lemma OthersKeepEntries(s: State, step: Step)
    requires RefsInv(s) && EntriesInv(s) && HandlerEnabled(s, step) && !(step.Look? || step.Check? || step.Insert?)
    ensures EntriesInv(ApplyHandler(s, step))
  {
  }

  lemma HandlerKeepsEntries(s: State, step: Step)
    requires RefsInv(s) && EntriesInv(s) && HandlerEnabled(s, step)
    ensures EntriesInv(ApplyHandler(s, step))
  {
    hide RefsInv, EntriesInv, HandlerEnabled, ApplyHandler;
    if step.Look? {
      LookKeepsEntries(s, step);
    } else if step.Check? {
      CheckKeepsEntries(s, step);
    } else if step.Insert? {
      InsertKeepsEntries(s, step);
    } else {
      OthersKeepEntries(s, step);
    }
  }

  lemma RemoverKeepsEntries(s: State, step: Step)
    requires EntriesInv(s) && RemoverEnabled(s, step) && !ApplyRemover(s, step).late
    ensures EntriesInv(ApplyRemover(s, step))
  {
  }

  lemma InsertKeepsQuiet(s: State, step: Step)
    requires RefsInv(s) && EntriesInv(s) && QuietInv(s) && HandlerEnabled(s, step) && step.Insert?
    ensures QuietInv(ApplyHandler(s, step))
  {
  }

  lemma OthersKeepQuiet(s: State, step: Step)
    requires RefsInv(s) && EntriesInv(s) && QuietInv(s) && HandlerEnabled(s, step) && !step.Insert?
    ensures QuietInv(ApplyHandler(s, step))
  {
  }

  lemma HandlerKeepsQuiet(s: State, step: Step)
    requires RefsInv(s) && EntriesInv(s) && QuietInv(s) && HandlerEnabled(s, step)
    ensures QuietInv(ApplyHandler(s, step))
  {
    hide RefsInv, EntriesInv, QuietInv, HandlerEnabled, ApplyHandler;
    if step.Insert? {
      InsertKeepsQuiet(s, step);
    } else {
      OthersKeepQuiet(s, step);
    }
  }

  lemma RemoverKeepsQuiet(s: State, step: Step)
    requires QuietInv(s) && RemoverEnabled(s, step)
    ensures QuietInv(ApplyRemover(s, step))
  {
  }

  lemma ExecutionKeepsInv(states: seq<State>)
    requires Execution(states)
    ensures forall i :: 0 <= i < |states| ==> Inv(states[i])
  {
    forall s, s' | Inv(s) && Next(s, s') ensures Inv(s') {
      var step :| Enabled(s, step) && s' == Apply(s, step);
      StepKeepsInv(s, step);
    }
    Executions.Invariance(Init, Next, Inv, states);
  }

  lemma StepKeepsInv(s: State, step: Step)
    requires Inv(s) && Enabled(s, step)
    ensures Inv(Apply(s, step))
  {
    StepHistory(s, step);
    hide RefsInv, StartInv, TableInv, EntriesInv, QuietInv, ApplyHandler, ApplyRemover;
    if HandlerEnabled(s, step) {
      HandlerKeepsRefs(s, step);
      HandlerKeepsTable(s, step);
      if !s.late {
        HandlerKeepsEntries(s, step);
        HandlerKeepsQuiet(s, step);
      }
      match step
      case Arrive(_) => ArriveKeepsStart(s, step);
      case Look(_) => ArriveKeepsStart(s, step);
      case Check(_) => CheckKeepsStart(s, step);
      case Insert(_) => InsertKeepsStart(s, step);
      case Mark(_) => MarkKeepsStart(s, step);
      case _ => LateKeepsStart(s, step);
    } else {
      RemoverKeepsRefs(s, step);
      RemoverKeepsTable(s, step);
      RemoverKeepsStart(s, step);
      if !Apply(s, step).late {
        RemoverKeepsEntries(s, step);
      }
      RemoverKeepsQuiet(s, step);
    }
  }

  // What the two history flags do.
  lemma StepHistory(s: State, step: Step)
    requires Enabled(s, step)
    ensures s.late ==> Apply(s, step).late
    ensures s.removed ==> Apply(s, step).removed
    ensures HandlerEnabled(s, step) ==> Apply(s, step).late == s.late && Apply(s, step).removed == s.removed
    ensures s.removers == [] && Apply(s, step).late ==> s.late
    ensures QuietInv(s) && (!s.removed ==> !s.late) && !Apply(s, step).removed ==> !Apply(s, step).late
    ensures s.late && QuietInv(s) && (!s.removed ==> !s.late) ==> QuietInv(Apply(s, step))
  {
  }

  // ---------- Main results ----------

  // A connection's handler is launched at most once, and only by a message with
  // a valid destination that has already been offered to that connection.
  lemma LaunchedOnce(states: seq<State>, i: nat, c: nat)
    requires Execution(states) && i < |states| && c < |states[i].conns|
    ensures states[i].conns[c].launches <= 1
    ensures states[i].conns[c].launches == 1 ==>
      exists h :: h in states[i].conns[c].offered && h < |states[i].handlers| &&
        states[i].handlers[h].Ended? && states[i].handlers[h].start && states[i].handlers[h].m.valid
  {
    ExecutionKeepsInv(states);
    var s := states[i];
    assert StarterOk(s, c);
    if s.conns[c].launches == 1 {
      assert ProgressOk(s, s.conns[c].starter.value);
    }
  }

  // Once a valid message has passed markStarted its connection is started; and when
  // all handlers that chose a connection have ended, its handler has been launched,
  // once, if and only if one of their messages was valid.
  lemma LaunchedIffValid(states: seq<State>, i: nat, c: nat)
    requires Execution(states) && i < |states| && c < |states[i].conns|
    ensures forall h :: 0 <= h < |states[i].handlers| && PassedMark(states[i].handlers[h], c) ==> states[i].conns[c].started
    ensures AllEnded(states[i], c) ==> states[i].conns[c].launches == if ValidFor(states[i], c) then 1 else 0
  {
    ExecutionKeepsInv(states);
    var s := states[i];
    assert StarterOk(s, c);
    forall h | 0 <= h < |s.handlers| && PassedMark(s.handlers[h], c) ensures s.conns[c].started {
      assert ProgressOk(s, h);
    }
    if ValidFor(s, c) && AllEnded(s, c) {
      var h :| 0 <= h < |s.handlers| && s.handlers[h].HasConn() && s.handlers[h].conn == c && s.handlers[h].m.valid;
      assert PassedMark(s.handlers[h], c);
    }
    if s.conns[c].starter.Some? {
      assert ProgressOk(s, s.conns[c].starter.value);
    }
  }

  // A valid message that has passed markStarted on the connection.
  predicate PassedMark(h: Handler, c: nat) { (h.Marked? || h.Fed? || h.Ended?) && h.conn == c && h.m.valid }

  ghost predicate AllEnded(s: State, c: nat) {
    forall h :: 0 <= h < |s.handlers| && s.handlers[h].HasConn() && s.handlers[h].conn == c ==> s.handlers[h].Ended?
  }

  // A message with a valid destination has chosen the connection.
  ghost predicate ValidFor(s: State, c: nat) {
    exists h :: 0 <= h < |s.handlers| && s.handlers[h].HasConn() && s.handlers[h].conn == c && s.handlers[h].m.valid
  }

  // Every message that has been put to inputPacket went to exactly one
  // connection, and to one of its own session.
  lemma OfferedToOne(states: seq<State>, i: nat, h: nat, c: nat, d: nat)
    requires Execution(states) && i < |states| && c < |states[i].conns| && d < |states[i].conns|
    requires h in states[i].conns[c].offered
    ensures h < |states[i].handlers| && states[i].handlers[h].m.session == states[i].conns[c].session
    ensures h in states[i].conns[d].offered ==> c == d
  {
    ExecutionKeepsInv(states);
    assert StarterOk(states[i], c) && StarterOk(states[i], d);
    assert RefOk(states[i], states[i].handlers[h]);
  }

  // Until the first late deletion a session has at most one open connection that
  // any of its messages has chosen, and that is its entry in the table.
  lemma OneOpenConnection(states: seq<State>, i: nat, g: nat, h: nat)
    requires Execution(states) && i < |states| && !states[i].late
    requires g < |states[i].handlers| && h < |states[i].handlers|
    requires states[i].handlers[g].HasConn() && states[i].handlers[h].HasConn()
    requires states[i].handlers[g].m.session == states[i].handlers[h].m.session
    requires Open(states[i], states[i].handlers[g].conn) && Open(states[i], states[i].handlers[h].conn)
    ensures states[i].handlers[g].conn == states[i].handlers[h].conn
    ensures Lookup(states[i], states[i].handlers[g].m.session) == Some(states[i].handlers[g].conn)
  {
    ExecutionKeepsInv(states);
    assert EntryOk(states[i], states[i].handlers[g]) && EntryOk(states[i], states[i].handlers[h]);
  }

  // Until the first dissociation, close or end of context, all messages of a
  // session go to one and the same connection, which is open.
  lemma OneConnPerSession(states: seq<State>, i: nat, g: nat, h: nat, c: nat, d: nat)
    requires Execution(states) && i < |states| && !states[i].removed
    requires c < |states[i].conns| && d < |states[i].conns|
    requires g in states[i].conns[c].offered && h in states[i].conns[d].offered
    requires states[i].conns[c].session == states[i].conns[d].session
    ensures c == d && Open(states[i], c)
  {
    ExecutionKeepsInv(states);
    OfferedToOne(states, i, g, c, d);
    OfferedToOne(states, i, h, d, c);
    assert StarterOk(states[i], c) && StarterOk(states[i], d);
    OneOpenConnection(states, i, g, h);
  }

  // A message has chosen an open connection that its session no longer leads to:
  // the next message of the session will get another one.
  predicate Stranded(s: State, g: nat) {
    && g < |s.handlers| && s.handlers[g].HasConn()
    && Open(s, s.handlers[g].conn) && Lookup(s, s.handlers[g].m.session) != Some(s.handlers[g].conn)
  }

  ghost predicate SomeStranded(s: State) { exists g: nat :: Stranded(s, g) }

  // Exactly a late deletion strands an open connection for the first time.
  lemma StrandedIffLate(states: seq<State>, i: nat)
    requires Execution(states) && i + 1 < |states| && !states[i].late
    ensures SomeStranded(states[i + 1]) <==> states[i + 1].late
  {
    ExecutionKeepsInv(states);
    assert Executions.StepsAt(Next, states, i);
    var s, s' := states[i], states[i + 1];
    if s'.late {
      var step :| Enabled(s, step) && s' == Apply(s, step);
      StepHistory(s, step);
      LateDeleteStrands(s, step.k);
    } else {
      forall g: nat | g < |s'.handlers| ensures !Stranded(s', g) {
        assert EntryOk(s', s'.handlers[g]);
      }
    }
  }

  lemma LateDeleteStrands(s: State, k: nat)
    requires RefsInv(s) && TableInv(s) && RemoverEnabled(s, Delete(k)) && Late(s, s.removers[k].session)
    ensures SomeStranded(ApplyRemover(s, Delete(k)))
  {
    var session := s.removers[k].session;
    var g :| 0 <= g < |s.handlers| && s.handlers[g].HasConn() && s.handlers[g].conn == s.table[session];
    assert RefOk(s, s.handlers[g]) && ConnOf(s, s.table[session], session);
    assert Stranded(ApplyRemover(s, Delete(k)), g);
  }

  // ---------- After a close ----------

  // The end of an execution, one step later.
  ghost predicate Reached(states: seq<State>, s: State) { Execution(states) && states[|states| - 1] == s }

  lemma Reach(states: seq<State>, s: State, step: Step) returns (more: seq<State>)
    requires Reached(states, s) && Enabled(s, step)
    ensures Reached(more, Apply(s, step)) && states <= more && |more| == |states| + 1
  {
    assert Next(s, Apply(s, step));
    Executions.Extension(Init, Next, states, Apply(s, step));
    more := states + [Apply(s, step)];
  }

  // A message that finds no usable connection chooses a new one.
  lemma ReachChosen(states: seq<State>, s: State, m: Message) returns (more: seq<State>)
    requires Reached(states, s) && !s.ctxDone && Unusable(s, Lookup(s, m.session))
    requires m.session in s.table ==> s.table[m.session] < |s.conns|
    ensures var n := |s.conns|;
            Reached(more, s.(conns := s.conns + [NewConn(m.session)], table := s.table[m.session := n],
                             handlers := s.handlers + [Chosen(m, n)]))
  {
    var i := |s.handlers|;
    var s1 := s.(handlers := s.handlers + [Begin(m)]);
    more := Reach(states, s, Arrive(m));
    var s2 := s.(handlers := s.handlers + [Looked(m, Lookup(s, m.session))]);
    assert Apply(s1, Look(i)) == s2;
    more := Reach(more, s1, Look(i));
    var s3 := s.(conns := s.conns + [NewConn(m.session)], handlers := s.handlers + [Creating(m, |s.conns|)]);
    assert Apply(s2, Check(i)) == s3;
    more := Reach(more, s2, Check(i));
    assert Unusable(s3, Lookup(s3, m.session));
    more := Reach(more, s3, Insert(i));
  }

  // How many steps a message is away from the end of its handling.
  function StepsLeft(h: Handler): nat {
    match h
    case Begin(_) => 6
    case Looked(_, _) => 5
    case Creating(_, _) => 4
    case Chosen(_, _) => 3
    case Marked(_, _, _) => 2
    case Fed(_, _, _) => 1
    case Ended(_, _, _) => 0
  }

  function OwnStep(h: Handler, i: nat): Step {
    match h
    case Begin(_) => Look(i)
    case Looked(_, _) => Check(i)
    case Creating(_, _) => Insert(i)
    case Chosen(_, _) => Mark(i)
    case Marked(_, _, _) => Offer(i)
    case _ => Finish(i)
  }

  lemma OwnStepLeadsOn(s: State, i: nat)
    requires RefsInv(s) && i < |s.handlers| && !s.handlers[i].Ended?
    ensures Enabled(s, OwnStep(s.handlers[i], i))
    ensures var s' := Apply(s, OwnStep(s.handlers[i], i));
            && i < |s'.handlers| && s'.handlers[i].m == s.handlers[i].m
            && StepsLeft(s'.handlers[i]) < StepsLeft(s.handlers[i])
  {
    assert RefOk(s, s.handlers[i]);
  }

  // The message of handler i has been put to a connection of its session.
  ghost predicate PutToItsSession(s: State, i: nat, m: Message) {
    && i < |s.handlers| && s.handlers[i].Ended? && s.handlers[i].m == m
    && ConnOf(s, s.handlers[i].conn, m.session) && i in s.conns[s.handlers[i].conn].offered
  }

  lemma EndedIsPut(s: State, i: nat)
    requires Inv(s) && i < |s.handlers| && s.handlers[i].Ended?
    ensures PutToItsSession(s, i, s.handlers[i].m)
  {
    assert RefOk(s, s.handlers[i]) && ProgressOk(s, i);
  }

  lemma ReachedInv(states: seq<State>, s: State)
    requires Reached(states, s)
    ensures Inv(s) && RefsInv(s)
  {
    ExecutionKeepsInv(states);
    hide RefsInv, StartInv, TableInv, QuietInv, EntriesInv;
  }

  // Every message that arrives can be put to a connection of its session, in at most
  // six steps from every moment of every execution; nothing it waits for can be
  // missing.
  lemma {:induction false} EveryMessageIsOffered(states: seq<State>, s: State, i: nat)
    returns (more: seq<State>, s': State)
    requires Reached(states, s) && i < |s.handlers|
    ensures Reached(more, s') && states <= more && |more| - |states| <= StepsLeft(s.handlers[i]) <= 6
    ensures PutToItsSession(s', i, s.handlers[i].m)
    decreases StepsLeft(s.handlers[i])
  {
    ReachedInv(states, s);
    more, s' := states, s;
    if s.handlers[i].Ended? {
      EndedIsPut(s, i);
    } else {
      var step := OwnStep(s.handlers[i], i);
      OwnStepLeadsOn(s, i);
      hide *;
      more := Reach(states, s, step);
      more, s' := EveryMessageIsOffered(more, Apply(s, step), i);
    }
  }

  // A dissociation that nothing interferes with closes the connection that its
  // session has, takes its entry away, and touches no other connection; a session
  // without an entry is left alone.
  lemma DissociationCloses(states: seq<State>, s: State, session: uint16) returns (more: seq<State>, s': State)
    requires Reached(states, s) && RefsInv(s)
    ensures Reached(more, s') && states <= more && s'.removed
    ensures s' == s.(removers := s'.removers, removed := true, conns := s'.conns, table := s.table - {session},
                     late := s.late)
    ensures if session in s.table then
              s'.conns == s.conns[s.table[session] := s.conns[s.table[session]].(closed := true)]
            else s'.conns == s.conns
  {
    var k := |s.removers|;
    var s1 := Apply(s, Dissociate(session));
    more := Reach(states, s, Dissociate(session));
    var s2 := Apply(s1, DissociateLook(k));
    more := Reach(more, s1, DissociateLook(k));
    if session in s.table {
      assert ConnOf(s, s.table[session], session);
      var s3 := Apply(s2, DissociateCancel(k));
      more := Reach(more, s2, DissociateCancel(k));
      s' := Apply(s3, Delete(k));
      more := Reach(more, s3, Delete(k));
    } else {
      s' := s2;
    }
  }

  // A close that nothing interferes with does the same for its connection's session.
  lemma CloseCloses(states: seq<State>, s: State, c: nat) returns (more: seq<State>, s': State)
    requires Reached(states, s) && c < |s.conns| && !s.conns[c].once
    ensures Reached(more, s') && states <= more && s'.removed
    ensures s'.conns == s.conns[c := s.conns[c].(closed := true, once := true)]
    ensures s'.table == s.table - {s.conns[c].session} && s'.handlers == s.handlers && s'.ctxDone == s.ctxDone
  {
    var s1 := Apply(s, CloseConn(c));
    more := Reach(states, s, CloseConn(c));
    s' := Apply(s1, Delete(|s.removers|));
    more := Reach(more, s1, Delete(|s.removers|));
  }

  // The end of the context ends every connection; a message that comes after it gets
  // a connection of its own.
  lemma ContextEnds(s: State)
    ensures Enabled(s, CancelContext) && Apply(s, CancelContext) == s.(ctxDone := true, removed := true)
    ensures forall c: nat :: !Open(Apply(s, CancelContext), c)
    ensures forall found: Option<nat> :: Unusable(Apply(s, CancelContext), found)
  {
  }

  // What is closed stays closed, for good, and so does the context.
  ghost predicate KeepsClosed(s: State, s': State) {
    && (s.ctxDone ==> s'.ctxDone) && |s.conns| <= |s'.conns|
    && forall c :: 0 <= c < |s.conns| && s.conns[c].closed ==> s'.conns[c].closed
  }

  lemma HandlerKeepsClosed(s: State, step: Step)
    requires HandlerEnabled(s, step)
    ensures KeepsClosed(s, ApplyHandler(s, step))
  {
  }

  lemma RemoverKeepsClosed(s: State, step: Step)
    requires RemoverEnabled(s, step)
    ensures KeepsClosed(s, ApplyRemover(s, step))
  {
  }

  lemma ClosedForGood(states: seq<State>, i: nat, j: nat)
    requires Execution(states) && i <= j < |states|
    ensures KeepsClosed(states[i], states[j])
  {
    forall s, s' | Next(s, s') ensures KeepsClosed(s, s') {
      var step :| Enabled(s, step) && s' == Apply(s, step);
      hide HandlerEnabled, RemoverEnabled, ApplyHandler, ApplyRemover, KeepsClosed;
      if HandlerEnabled(s, step) {
        HandlerKeepsClosed(s, step);
      } else {
        RemoverKeepsClosed(s, step);
      }
    }
    Executions.Monotony(Init, Next, s => true, KeepsClosed, states, i, j);
  }

  // A close whose Delete comes late removes the entry of a newer connection, so
  // that a session can end up with two open connections.
  lemma LateDeleteSplitsSession(m: Message) returns (states: seq<State>)
    ensures Execution(states)
    ensures var s := states[|states| - 1];
            && |s.conns| == 3 && s.handlers == [Chosen(m, 0), Chosen(m, 1), Chosen(m, 2)]
            && s.conns[1] == NewConn(m.session) && s.conns[2] == NewConn(m.session)
  {
    var s0 := State([], map[], [], [], false, false, false);
    states := [s0];
    states := ReachChosen(states, s0, m);
    var n := NewConn(m.session);
    var s1 := State([n], map[m.session := 0], [Chosen(m, 0)], [], false, false, false);
    assert s1 == s0.(conns := s0.conns + [n], table := s0.table[m.session := 0], handlers := s0.handlers + [Chosen(m, 0)]);
    var s2 := State(
      [n.(closed := true, once := true)], map[m.session := 0], [Chosen(m, 0)], [Deleting(m.session)], false, true, false);
    assert s2 == Apply(s1, CloseConn(0));
    states := Reach(states, s1, CloseConn(0));
    states := ReachChosen(states, s2, m);
    var s3 := State(
      s2.conns + [n], map[m.session := 1], [Chosen(m, 0), Chosen(m, 1)], [Deleting(m.session)], false, true, false);
    assert s3 == s2.(conns := s2.conns + [n], table := s2.table[m.session := 1], handlers := s2.handlers + [Chosen(m, 1)]);
    var s4 := State(s3.conns, map[], s3.handlers, [Gone], false, true, true);
    assert s4 == Apply(s3, Delete(0));
    states := Reach(states, s3, Delete(0));
    states := ReachChosen(states, s4, m);
  }
}
