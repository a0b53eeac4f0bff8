// End-to-end behaviour of fragmentation and reassembly over whole traces.
module Reassembly {
  import opened Bytes
  import opened Codec
  import opened Fragmentation
  import opened Defragger
  import opened Wrappers

  // The table after, and the outputs during, a sequence of feeds.
  function Run(t: Table, trace: seq<UdpMessage>): Table {
    if trace == [] then t else FeedTable(Run(t, trace[..|trace| - 1]), trace[|trace| - 1])
  }

  function Output(t: Table, trace: seq<UdpMessage>, j: nat): Option<UdpMessage>
    requires j < |trace|
  {
    FeedOutput(Run(t, trace[..j]), trace[j])
  }

  // Over any trace the table stays well formed.
  lemma {:induction false} RunWellFormed(t: Table, trace: seq<UdpMessage>)
    requires WellFormed(t)
    ensures WellFormed(Run(t, trace))
  {
    if trace != [] {
      RunWellFormed(t, trace[..|trace| - 1]);
      FeedWellFormed(Run(t, trace[..|trace| - 1]), trace[|trace| - 1]);
    }
  }

  // frags is what splitting m gives for some packet size.
  ghost predicate Splits(m: UdpMessage, frags: seq<UdpMessage>) {
    exists maxPacketSize: int :: NeedsSplit(m, maxPacketSize) && frags == Fragments(m, maxPacketSize)
  }

  // frags are numbered pieces of m, of whatever sizes: what splitting m into at
  // most 255 fragments gives, for one.
  ghost predicate IsSplit(m: UdpMessage, frags: seq<UdpMessage>) {
    && 2 <= |frags| <= 255 && m.data != []
    && Join(Payloads(frags)) == m.data
    && forall i :: 0 <= i < |frags| ==> frags[i] == Fragment(m, frags[i].data, i, |frags|)
  }

  // The feeds that touch the table entry of m.
  predicate Competes(e: UdpMessage, m: UdpMessage) {
    e.packetID == m.packetID && Fragmentary(e)
  }

  // Only fragments of m compete for its packet ID; anything else may be mixed in.
  ghost predicate Admissible(m: UdpMessage, frags: seq<UdpMessage>, trace: seq<UdpMessage>) {
    forall e :: e in trace && Competes(e, m) ==> e in frags
  }

  lemma FragmentsAreSplit(m: UdpMessage, frags: seq<UdpMessage>)
    requires Splits(m, frags) && |frags| <= 255
    ensures IsSplit(m, frags)
  {
    var maxPacketSize: int := SplitSize(m, frags);
    FragmentCount(m, maxPacketSize);
    FragmentsJoin(m, maxPacketSize);
    FragmentForm(m, maxPacketSize);
    hide Join, Payloads, Fragments, CeilDiv, Splits;
  }

  lemma SplitFacts(m: UdpMessage, frags: seq<UdpMessage>)
    requires IsSplit(m, frags)
    ensures 2 <= |frags| <= 255 && m.data != []
    ensures Join(Payloads(frags)) == m.data
    ensures forall i :: 0 <= i < |frags| ==> frags[i] == Fragment(m, frags[i].data, i, |frags|)
    ensures forall i :: 0 <= i < |frags| ==>
      Competes(frags[i], m) && frags[i].fragmentID == i && frags[i].fragmentTotal == |frags|
  {
    hide Join, Payloads;
    NumberedFragments(m, frags);
  }

  lemma SplitSize(m: UdpMessage, frags: seq<UdpMessage>) returns (maxPacketSize: int)
    requires Splits(m, frags)
    ensures NeedsSplit(m, maxPacketSize) && frags == Fragments(m, maxPacketSize)
  {
    maxPacketSize :| NeedsSplit(m, maxPacketSize) && frags == Fragments(m, maxPacketSize);
  }

  lemma NumberedFragments(m: UdpMessage, frags: seq<UdpMessage>)
    requires 2 <= |frags| <= 255
    requires forall i :: 0 <= i < |frags| ==> frags[i] == Fragment(m, frags[i].data, i, |frags|)
    ensures forall i :: 0 <= i < |frags| ==>
      Competes(frags[i], m) && frags[i].fragmentID == i && frags[i].fragmentTotal == |frags|
  {
  }

  // The message a receiver gets: m with the numbering of its first fragment.
  function Reassembled(m: UdpMessage, count: byte): UdpMessage {
    m.(fragmentTotal := count, fragmentID := 0)
  }

  // ---------- One assembly ----------

  ghost predicate PartOf(a: Assembly, frags: seq<UdpMessage>) {
    && a.total == |frags|
    && a.got != map[]
    && !a.Complete()
    && forall i :: i in a.got ==> i < |frags| && a.got[i] == frags[i]
  }

  // The entry of m is absent or holds some but not all of its fragments.
  ghost predicate EntryOk(m: UdpMessage, frags: seq<UdpMessage>, t: Table) {
    m.packetID in t ==> PartOf(t[m.packetID], frags)
  }

  lemma {:induction false} GatherJoins(got: map<byte, UdpMessage>, frags: seq<UdpMessage>, n: nat)
    requires n <= |frags| <= 255
    requires forall i: byte :: i < |frags| ==> i in got && got[i] == frags[i]
    ensures Gather(got, n) == Join(Payloads(frags[..n]))
  {
    if n > 0 {
      GatherJoins(got, frags, n - 1);
      var index: byte := n - 1;
      assert index in got;
      JoinSnoc(Payloads(frags[..n - 1]), frags[n - 1].data);
      assert Payloads(frags[..n]) == Payloads(frags[..n - 1]) + [frags[n - 1].data];
    }
  }

  // A full assembly delivers the original data.
  lemma CompleteDelivers(m: UdpMessage, frags: seq<UdpMessage>, a: Assembly)
    requires IsSplit(m, frags)
    requires a.total == |frags| && a.Complete()
    requires forall i :: i in a.got ==> i < |frags| && a.got[i] == frags[i]
    ensures Deliver(a) == Some(Reassembled(m, |frags|))
  {
    SplitFacts(m, frags);
    GatherJoins(a.got, frags, |frags|);
    assert frags[..|frags|] == frags;
    var zero: byte := 0;
    assert zero in a.got;
  }

  // One feed: the entry stays sound, and a fragment yields nothing or all of m.
  lemma StepSound(m: UdpMessage, frags: seq<UdpMessage>, t: Table, e: UdpMessage)
    requires IsSplit(m, frags) && EntryOk(m, frags, t)
    requires Competes(e, m) ==> e in frags
    ensures EntryOk(m, frags, FeedTable(t, e))
    ensures !Competes(e, m) && m.packetID in t ==>
              m.packetID in FeedTable(t, e) && FeedTable(t, e)[m.packetID] == t[m.packetID]
    ensures !Competes(e, m) && m.packetID !in t ==> m.packetID !in FeedTable(t, e)
    ensures e in frags ==> FeedOutput(t, e) == None || FeedOutput(t, e) == Some(Reassembled(m, |frags|))
  {
    SplitFacts(m, frags);
    if Competes(e, m) && e.fragmentID !in Current(t, e) {
      var a := Assembly(e.fragmentTotal, Current(t, e)[e.fragmentID := e]);
      assert e.fragmentID in a.got;
      if a.Complete() {
        CompleteDelivers(m, frags, a);
      }
    }
  }

  lemma {:induction false} RunEntry(m: UdpMessage, frags: seq<UdpMessage>, t: Table, trace: seq<UdpMessage>)
    requires IsSplit(m, frags) && m.packetID !in t && Admissible(m, frags, trace)
    ensures EntryOk(m, frags, Run(t, trace))
  {
    if trace != [] {
      RunEntry(m, frags, t, trace[..|trace| - 1]);
      StepSound(m, frags, Run(t, trace[..|trace| - 1]), trace[|trace| - 1]);
    }
  }

  // Whatever the order, and however often fragments repeat, a fragment of m
  // never yields anything but the whole of m.
  lemma NeverCorrupts(m: UdpMessage, frags: seq<UdpMessage>, t: Table, trace: seq<UdpMessage>, j: nat)
    requires IsSplit(m, frags) && m.packetID !in t && Admissible(m, frags, trace)
    requires j < |trace| && trace[j] in frags
    ensures Output(t, trace, j) == None || Output(t, trace, j) == Some(Reassembled(m, |frags|))
  {
    RunEntry(m, frags, t, trace[..j]);
    StepSound(m, frags, Run(t, trace[..j]), trace[j]);
  }

  // ---------- Exactly one delivery ----------

  ghost predicate Missing(frags: seq<UdpMessage>, trace: seq<UdpMessage>) {
    exists i :: 0 <= i < |frags| && frags[i] !in trace
  }

  // Outputs depend on what was fed before only.
  lemma SameOutputs(t: Table, trace: seq<UdpMessage>, n: nat)
    requires n <= |trace|
    ensures forall j :: 0 <= j < n ==> trace[..n][j] == trace[j] && Output(t, trace[..n], j) == Output(t, trace, j)
  {
    forall j | 0 <= j < n ensures trace[..n][j] == trace[j] && Output(t, trace[..n], j) == Output(t, trace, j) {
      assert trace[..n][..j] == trace[..j];
    }
  }

  // While some fragment is missing the entry holds exactly the ones seen.
  lemma {:induction false} Gathering(m: UdpMessage, frags: seq<UdpMessage>, t: Table, trace: seq<UdpMessage>)
    requires IsSplit(m, frags) && m.packetID !in t && Admissible(m, frags, trace)
    requires Missing(frags, trace)
    ensures EntryOk(m, frags, Run(t, trace))
    ensures forall i: byte :: i < |frags| ==>
              (frags[i] in trace <==> m.packetID in Run(t, trace) && i in Run(t, trace)[m.packetID].got)
    ensures forall j :: 0 <= j < |trace| && trace[j] in frags ==> Output(t, trace, j) == None
  {
    if trace != [] {
      var n := |trace| - 1;
      var before, e := trace[..n], trace[n];
      assert trace == before + [e];
      var gap :| 0 <= gap < |frags| && frags[gap] !in trace;
      assert Missing(frags, before) by { assert frags[gap] !in before; }
      Gathering(m, frags, t, before);
      SplitFacts(m, frags);
      StepSound(m, frags, Run(t, before), e);
      var missing: byte := gap;
      SameOutputs(t, trace, n);
      hide FeedOutput, IsSplit, Admissible, EntryOk;
      if Competes(e, m) {
        GatherStep(m, frags, Run(t, before), e, missing);
      }
    }
  }

  // Feeding a fragment while another one is missing only records it.
  lemma GatherStep(m: UdpMessage, frags: seq<UdpMessage>, t: Table, e: UdpMessage, missing: byte)
    requires IsSplit(m, frags) && EntryOk(m, frags, t) && e in frags
    requires missing < |frags| && e.fragmentID != missing
    requires m.packetID in t ==> missing !in t[m.packetID].got
    ensures FeedOutput(t, e) == None
    ensures m.packetID in FeedTable(t, e)
    ensures FeedTable(t, e)[m.packetID].got.Keys == Current(t, e).Keys + {e.fragmentID}
    ensures m.packetID in t ==> Current(t, e) == t[m.packetID].got
    ensures m.packetID !in t ==> Current(t, e) == map[]
  {
    SplitFacts(m, frags);
    assert missing !in Current(t, e)[e.fragmentID := e];
  }

  // Starting with no entry for the packet ID, in any order, with repeats and
  // with other traffic in between, nothing comes out until the last missing
  // fragment arrives; then exactly m does, and the entry is gone.
  lemma {:induction false} ReassembledOnce(m: UdpMessage, frags: seq<UdpMessage>, t: Table, trace: seq<UdpMessage>)
    requires IsSplit(m, frags) && m.packetID !in t && Admissible(m, frags, trace)
    requires trace != [] && Missing(frags, trace[..|trace| - 1]) && !Missing(frags, trace)
    ensures forall j :: 0 <= j < |trace| - 1 && trace[j] in frags ==> Output(t, trace, j) == None
    ensures Output(t, trace, |trace| - 1) == Some(Reassembled(m, |frags|))
    ensures m.packetID !in Run(t, trace)
  {
    var n := |trace| - 1;
    var before, e := trace[..n], trace[n];
    assert trace == before + [e];
    SplitFacts(m, frags);
    Gathering(m, frags, t, before);
    SameOutputs(t, trace, n);
    var gap :| 0 <= gap < |frags| && frags[gap] !in before;
    assert frags[gap] in trace;
    LastFragment(m, frags, Run(t, before), before, e);
    hide FeedOutput, FeedTable, IsSplit, Admissible;
  }

  lemma LastFragment(m: UdpMessage, frags: seq<UdpMessage>, t: Table, before: seq<UdpMessage>, e: UdpMessage)
    requires IsSplit(m, frags) && EntryOk(m, frags, t) && e in frags && e !in before
    requires !Missing(frags, before + [e])
    requires forall i: byte :: i < |frags| ==>
               (frags[i] in before <==> m.packetID in t && i in t[m.packetID].got)
    ensures FeedOutput(t, e) == Some(Reassembled(m, |frags|))
    ensures m.packetID !in FeedTable(t, e)
  {
    SplitFacts(m, frags);
    var other: byte := if e.fragmentID == 0 then 1 else 0;
    assert frags[other] in before + [e];
    var a := Assembly(e.fragmentTotal, Current(t, e)[e.fragmentID := e]);
    forall i: byte | i < a.total ensures i in a.got {
      assert frags[i] in before + [e];
    }
    CompleteDelivers(m, frags, a);
  }

  // For one, when they arrive in order.
  lemma InOrder(m: UdpMessage, frags: seq<UdpMessage>)
    requires IsSplit(m, frags)
    ensures |frags| >= 2 && Output(map[], frags, |frags| - 1) == Some(Reassembled(m, |frags|))
    ensures forall j :: 0 <= j < |frags| - 1 ==> Output(map[], frags, j) == None
  {
    SplitFacts(m, frags);
    var n := |frags| - 1;
    forall i | 0 <= i < n ensures frags[i] != frags[n] {
      assert frags[i].fragmentID != frags[n].fragmentID;
    }
    assert frags[n] !in frags[..n];
    hide IsSplit;
    ReassembledOnce(m, frags, map[], frags);
  }

  // ---------- When there are too many fragments ----------

  // The entry of m holds nothing but fragments of m.
  ghost predicate EntryFrom(m: UdpMessage, frags: seq<UdpMessage>, t: Table) {
    m.packetID in t ==> forall i :: i in t[m.packetID].got ==> t[m.packetID].got[i] in frags
  }

  lemma {:induction false} RunEntryFrom(m: UdpMessage, frags: seq<UdpMessage>, t: Table, trace: seq<UdpMessage>)
    requires m.packetID !in t && Admissible(m, frags, trace)
    ensures EntryFrom(m, frags, Run(t, trace))
  {
    if trace != [] {
      var n := |trace| - 1;
      RunEntryFrom(m, frags, t, trace[..n]);
      assert trace[n] in trace;
    }
  }

  // At most 255 payloads of limited size are ever joined.
  lemma {:induction false} GatherLength(got: map<byte, UdpMessage>, n: nat, mtu: nat)
    requires n <= 255 && forall i: byte :: i < n ==> i in got && |got[i].data| <= mtu
    ensures |Gather(got, n)| <= n * mtu
  {
    if n > 0 {
      GatherLength(got, n - 1, mtu);
      var index: byte := n - 1;
      assert index in got;
      assert n * mtu == (n - 1) * mtu + mtu;
    }
  }

  lemma DeliverLength(frags: seq<UdpMessage>, a: Assembly, mtu: nat)
    requires a.total > 0 && a.Complete()
    requires forall i :: i in a.got ==> a.got[i] in frags
    requires forall f :: f in frags ==> |f.data| <= mtu
    ensures Deliver(a).Some? ==> |Deliver(a).value.data| <= 255 * mtu
  {
    GatherLength(a.got, a.total, mtu);
    AtMost255Times(a.total, mtu);
    hide Gather, Assembly.Complete;
  }

  lemma AtMost255Times(n: byte, mtu: nat)
    ensures n * mtu <= 255 * mtu
  {
    assert 255 * mtu == n * mtu + (255 - n) * mtu;
  }

  lemma TooManySizes(m: UdpMessage, frags: seq<UdpMessage>) returns (mtu: nat)
    requires Splits(m, frags) && |frags| > 255
    ensures mtu > 0 && 255 * mtu < |m.data|
    ensures forall f :: f in frags ==> |f.data| <= mtu && f.packetID == m.packetID
  {
    var maxPacketSize := SplitSize(m, frags);
    mtu := maxPacketSize - m.HeaderSize();
    FragmentCount(m, maxPacketSize);
    ChunkSizes(m.data, mtu);
    if |m.data| <= 255 * mtu {
      CeilDivAtMost(|m.data|, mtu, 255);
    }
  }

  // With more than 255 fragments no order of arrival, and no repetition, makes a
  // fragment of m yield all of its data: it yields nothing or something shorter.
  lemma TooManyNeverWhole(m: UdpMessage, frags: seq<UdpMessage>, t: Table, trace: seq<UdpMessage>, j: nat)
    requires Splits(m, frags) && |frags| > 255 && m.packetID !in t && Admissible(m, frags, trace)
    requires j < |trace| && trace[j] in frags
    ensures Output(t, trace, j).Some? ==> |Output(t, trace, j).value.data| < |m.data|
  {
    var mtu := TooManySizes(m, frags);
    RunEntryFrom(m, frags, t, trace[..j]);
    hide Splits, Admissible;
    var e, s := trace[j], Run(t, trace[..j]);
    if Fragmentary(e) && e.fragmentID !in Current(s, e) {
      var a := Assembly(e.fragmentTotal, Current(s, e)[e.fragmentID := e]);
      if a.Complete() {
        DeliverLength(frags, a, mtu);
      }
    }
  }

  // Some arrivals of fragments of m alone yield its data.
  ghost predicate Arrives(m: UdpMessage, frags: seq<UdpMessage>, trace: seq<UdpMessage>, j: nat) {
    && (forall e :: e in trace ==> e in frags)
    && j < |trace| && Output(map[], trace, j).Some? && Output(map[], trace, j).value.data == m.data
  }

  // So a message that needs splitting can be received if and only if it is split
  // into at most 255 fragments.
  lemma ReceivableIff(m: UdpMessage, frags: seq<UdpMessage>)
    requires Splits(m, frags)
    ensures (exists trace, j :: Arrives(m, frags, trace, j)) <==> |frags| <= 255
  {
    if |frags| <= 255 {
      FragmentsAreSplit(m, frags);
      InOrder(m, frags);
      assert Arrives(m, frags, frags, |frags| - 1);
    } else {
      forall trace, j ensures !Arrives(m, frags, trace, j) {
        if Arrives(m, frags, trace, j) {
          TooManyNeverWhole(m, frags, map[], trace, j);
        }
      }
    }
  }

  // ---------- Pieces of two splits under one packet ID ----------

  // A piece that is not the last of its total.
  predicate NotLast(e: UdpMessage) { e.fragmentID + 1 < e.fragmentTotal }

  // Nothing can complete an entry of such pieces alone.
  ghost predicate Loose(a: Assembly, count: nat) {
    1 < a.total != count && forall i :: i in a.got ==> i + 1 < a.total
  }

  // What the entry of m can be when the pieces that arrive are those of one split,
  // which may be empty, and pieces of other totals that are not the last ones.
  ghost predicate Apart(m: UdpMessage, frags: seq<UdpMessage>, t: Table) {
    m.packetID in t ==> PartOf(t[m.packetID], frags) || Loose(t[m.packetID], |frags|)
  }

  ghost predicate Harmless(m: UdpMessage, frags: seq<UdpMessage>, e: UdpMessage) {
    e in frags || (NotLast(e) && e.fragmentTotal != |frags|)
  }

  lemma SplitPieceApart(m: UdpMessage, frags: seq<UdpMessage>, t: Table, e: UdpMessage)
    requires IsSplit(m, frags) && Apart(m, frags, t) && e in frags
    ensures Apart(m, frags, FeedTable(t, e))
    ensures FeedOutput(t, e).Some? ==> FeedOutput(t, e).value.data == m.data
  {
    if m.packetID in t && Loose(t[m.packetID], |frags|) {
      SplitFacts(m, frags);
      var other: byte := if e.fragmentID == 0 then 1 else 0;
      assert Current(t, e) == map[];
      assert other !in Current(t, e)[e.fragmentID := e];
    } else {
      StepSound(m, frags, t, e);
    }
  }

  lemma OtherPieceApart(m: UdpMessage, frags: seq<UdpMessage>, t: Table, e: UdpMessage)
    requires Apart(m, frags, t) && NotLast(e) && e.fragmentTotal != |frags|
    ensures Apart(m, frags, FeedTable(t, e))
    ensures e.packetID == m.packetID ==> FeedOutput(t, e) == None
  {
    if e.packetID == m.packetID {
      var last: byte := e.fragmentTotal - 1;
      assert last !in Current(t, e)[e.fragmentID := e];
    }
  }

  lemma {:induction false} RunApart(m: UdpMessage, frags: seq<UdpMessage>, t: Table, trace: seq<UdpMessage>)
    requires frags == [] || IsSplit(m, frags)
    requires m.packetID !in t && forall e :: e in trace && Competes(e, m) ==> Harmless(m, frags, e)
    ensures Apart(m, frags, Run(t, trace))
  {
    if trace != [] {
      var before, e := trace[..|trace| - 1], trace[|trace| - 1];
      RunApart(m, frags, t, before);
      if e in frags {
        SplitPieceApart(m, frags, Run(t, before), e);
      } else if Competes(e, m) {
        OtherPieceApart(m, frags, Run(t, before), e);
      }
    }
  }

  // Some arrivals of these pieces alone yield data that m does not have.
  ghost predicate YieldsWrong(m: UdpMessage, pieces: seq<UdpMessage>, trace: seq<UdpMessage>, j: nat) {
    && (forall e :: e in trace ==> e in pieces)
    && j < |trace| && Output(map[], trace, j).Some? && Output(map[], trace, j).value.data != m.data
  }

  // Arrivals of pieces that are harmless, or the whole of m, yield nothing wrong.
  lemma HarmlessYieldRight(m: UdpMessage, frags: seq<UdpMessage>, pieces: seq<UdpMessage>, trace: seq<UdpMessage>, j: nat)
    requires frags == [] || IsSplit(m, frags)
    requires forall e :: e in pieces ==> e.packetID == m.packetID
    requires forall e :: e in pieces ==> Harmless(m, frags, e) || (e == m && m.fragmentTotal <= 1)
    ensures !YieldsWrong(m, pieces, trace, j)
  {
    if YieldsWrong(m, pieces, trace, j) {
      forall e | e in trace[..j] && Competes(e, m) ensures Harmless(m, frags, e) {
        assert e in trace;
      }
      RunApart(m, frags, map[], trace[..j]);
      assert trace[j] in trace;
      var t, e := Run(map[], trace[..j]), trace[j];
      hide YieldsWrong, Run, IsSplit, Apart;
      if e in frags {
        SplitPieceApart(m, frags, t, e);
      } else if NotLast(e) {
        OtherPieceApart(m, frags, t, e);
      }
    }
  }

  // The first n of the pieces are not the last of their total.
  lemma FirstPieces(m: UdpMessage, maxPacketSize: int, n: nat)
    requires NeedsSplit(m, maxPacketSize)
    requires n <= |Fragments(m, maxPacketSize)| && !Wraps(|Fragments(m, maxPacketSize)|, n)
    requires n == |Fragments(m, maxPacketSize)| ==> n > 255
    ensures var f := Fragments(m, maxPacketSize);
            forall i :: 0 <= i < n ==>
              NotLast(f[i]) && f[i].fragmentTotal == ToUint8(|f|) && f[i].packetID == m.packetID
  {
    FragmentForm(m, maxPacketSize);
    hide Fragments;
  }

  // Some pieces that complete their total have other data than m.
  lemma CompletesWrong(m: UdpMessage, m': UdpMessage, pieces: seq<UdpMessage>, frags: seq<UdpMessage>)
    requires IsSplit(m', frags) && m'.data != m.data
    requires forall e :: e in frags ==> e in pieces
    ensures exists trace, j :: YieldsWrong(m, pieces, trace, j)
  {
    InOrder(m', frags);
    hide IsSplit, Output;
    assert YieldsWrong(m, pieces, frags, |frags| - 1);
  }

  // The first pieces of a split whose total wraps pass for the whole.
  lemma WrappingYieldsWrong(m: UdpMessage, maxPacketSize: int, n: nat, pieces: seq<UdpMessage>)
    requires n <= |Fragments(m, maxPacketSize)| && Wraps(|Fragments(m, maxPacketSize)|, n)
    requires forall e :: e in Fragments(m, maxPacketSize)[..n] ==> e in pieces
    ensures exists trace, j :: YieldsWrong(m, pieces, trace, j)
  {
    var f := Fragments(m, maxPacketSize);
    ChunkSizes(m.data, maxPacketSize - m.HeaderSize());
    FragmentsJoin(m, maxPacketSize);
    FragmentForm(m, maxPacketSize);
    assert forall i :: 0 <= i < |f| ==> |f[i].data| > 0;
    hide Fragments, Chunks, CeilDiv, YieldsWrong, Join, Payloads;
    if ToUint8(|f|) <= 1 {
      assert f[0] in f[..n];
      FirstYieldsWrong(m, f, pieces);
    } else {
      forall e | e in f[..ToUint8(|f|)] ensures e in pieces {
        assert e in f[..n];
      }
      PrefixYieldsWrong(m, f, pieces);
    }
  }

  lemma FirstYieldsWrong(m: UdpMessage, f: seq<UdpMessage>, pieces: seq<UdpMessage>)
    requires |f| > 1 && Join(Payloads(f)) == m.data && forall i :: 0 <= i < |f| ==> |f[i].data| > 0
    requires f[0].fragmentTotal <= 1 && f[0] in pieces
    ensures exists trace, j :: YieldsWrong(m, pieces, trace, j)
  {
    PrefixIsShorter(f, 1);
    assert Payloads(f[..1]) == [f[0].data];
    assert Join([f[0].data]) == f[0].data + Join([f[0].data][1..]);
    assert YieldsWrong(m, pieces, [f[0]], 0);
  }

  lemma PrefixYieldsWrong(m: UdpMessage, f: seq<UdpMessage>, pieces: seq<UdpMessage>)
    requires |f| > 255 && Join(Payloads(f)) == m.data && forall i :: 0 <= i < |f| ==> |f[i].data| > 0
    requires forall i :: 0 <= i < |f| ==> f[i] == Fragment(m, f[i].data, i, |f|)
    requires ToUint8(|f|) > 1 && forall e :: e in f[..ToUint8(|f|)] ==> e in pieces
    ensures exists trace, j :: YieldsWrong(m, pieces, trace, j)
  {
    var total := ToUint8(|f|);
    var first := f[..total];
    var m' := m.(data := Join(Payloads(first)));
    PrefixIsShorter(f, total);
    hide Join, Payloads, YieldsWrong;
    assert IsSplit(m', first);
    CompletesWrong(m, m', pieces, first);
  }

  lemma PrefixIsShorter(f: seq<UdpMessage>, n: nat)
    requires 0 < n < |f| && forall i :: 0 <= i < |f| ==> |f[i].data| > 0
    ensures 0 < |Join(Payloads(f[..n]))| < |Join(Payloads(f))|
  {
    assert Payloads(f) == Payloads(f[..n]) + Payloads(f[n..]);
    JoinAppend(Payloads(f[..n]), Payloads(f[n..]));
  }

  // The first piece of one split and the others of a finer one into as many.
  lemma MixingYieldsWrong(m: UdpMessage, oldMTU: int, mtu: int, pieces: seq<UdpMessage>)
    requires mtu < oldMTU && NeedsSplit(m, oldMTU) && NeedsSplit(m, mtu)
    requires |Fragments(m, oldMTU)| == |Fragments(m, mtu)| <= 255
    requires Fragments(m, oldMTU)[0] in pieces && forall e :: e in Fragments(m, mtu) ==> e in pieces
    ensures exists trace, j :: YieldsWrong(m, pieces, trace, j)
  {
    var f, g := Fragments(m, oldMTU), Fragments(m, mtu);
    FragmentsAreSplit(m, g);
    FragmentForm(m, oldMTU);
    ChunkSizes(m.data, oldMTU - m.HeaderSize());
    ChunkSizes(m.data, mtu - m.HeaderSize());
    assert |f[0].data| > |g[0].data|;
    hide Fragments, YieldsWrong, IsSplit;
    var mixed := [f[0]] + g[1..];
    var m' := m.(data := Join(Payloads(mixed)));
    OtherFirstPiece(m, m', f[0], g);
    CompletesWrong(m, m', pieces, mixed);
  }

  // A split with its first piece replaced by a longer one is a split of something
  // longer.
  lemma OtherFirstPiece(m: UdpMessage, m': UdpMessage, first: UdpMessage, g: seq<UdpMessage>)
    requires IsSplit(m, g) && first == Fragment(m, first.data, 0, |g|) && |first.data| > |g[0].data|
    requires m' == m.(data := Join(Payloads([first] + g[1..])))
    ensures IsSplit(m', [first] + g[1..]) && |m'.data| > |m.data|
  {
    var mixed := [first] + g[1..];
    assert Payloads(mixed)[1..] == Payloads(g)[1..];
    assert Payloads(mixed)[0] == first.data && Payloads(g)[0] == g[0].data;
    hide Payloads;
    assert |m'.data| - |first.data| == |m.data| - |g[0].data|;
    hide Join;
    forall i | 0 <= i < |mixed| ensures mixed[i] == Fragment(m', mixed[i].data, i, |mixed|) {
      if i > 0 {
        assert mixed[i] == g[i];
      }
    }
  }

  // When k pieces of one split and n of a finer one are sent under the packet ID
  // of m, in this or any other order and repeated at will, the receiver can get
  // data that m does not have if and only if either total wraps within what is
  // sent, or there are pieces of both splits, the second one is complete, and the
  // two have equally many.
  lemma WrongDataIff(m: UdpMessage, oldMTU: int, mtu: int, k: nat, n: nat)
    requires m.fragmentTotal <= 1
    requires k < |Fragments(m, oldMTU)| && n <= |Fragments(m, mtu)|
    requires k > 0 ==> mtu < oldMTU
    ensures var f, g := Fragments(m, oldMTU), Fragments(m, mtu);
            (exists trace, j :: YieldsWrong(m, f[..k] + g[..n], trace, j)) <==>
              Wraps(|f|, k) || Wraps(|g|, n) || (k > 0 && n == |g| == |f|)
  {
    var f, g := Fragments(m, oldMTU), Fragments(m, mtu);
    var pieces := f[..k] + g[..n];
    hide YieldsWrong;
    if Wraps(|f|, k) {
      WrappingYieldsWrong(m, oldMTU, k, pieces);
    } else if Wraps(|g|, n) {
      WrappingYieldsWrong(m, mtu, n, pieces);
    } else if k > 0 && n == |g| == |f| {
      assert f[0] in f[..k] && g[..n] == g;
      MixingYieldsWrong(m, oldMTU, mtu, pieces);
    } else {
      forall trace, j ensures !YieldsWrong(m, pieces, trace, j) {
        NothingWrong(m, oldMTU, mtu, k, n, trace, j);
      }
    }
  }

  lemma NothingWrong(m: UdpMessage, oldMTU: int, mtu: int, k: nat, n: nat, trace: seq<UdpMessage>, j: nat)
    requires m.fragmentTotal <= 1
    requires k < |Fragments(m, oldMTU)| && n <= |Fragments(m, mtu)|
    requires k > 0 ==> mtu < oldMTU
    requires var f, g := Fragments(m, oldMTU), Fragments(m, mtu);
             !Wraps(|f|, k) && !Wraps(|g|, n) && !(k > 0 && n == |g| == |f|)
    ensures !YieldsWrong(m, Fragments(m, oldMTU)[..k] + Fragments(m, mtu)[..n], trace, j)
  {
    var f, g := Fragments(m, oldMTU), Fragments(m, mtu);
    if k > 0 {
      FirstPieces(m, oldMTU, k);
    }
    if !NeedsSplit(m, mtu) {
      hide Fragments;
      HarmlessYieldRight(m, [], f[..k] + g[..n], trace, j);
    } else if n < |g| || n > 255 {
      FirstPieces(m, mtu, n);
      hide Fragments;
      HarmlessYieldRight(m, [], f[..k] + g[..n], trace, j);
    } else {
      if k > 0 {
        LargerPacketsAreFewer(m, oldMTU, mtu);
      }
      FragmentsAreSplit(m, g);
      SplitFacts(m, g);
      hide Fragments;
      HarmlessYieldRight(m, g, f[..k] + g[..n], trace, j);
    }
  }
}
