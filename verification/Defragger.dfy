// Reassembly of fragmented UDP messages, in any order of arrival.
module Defragger {
  import opened Bytes
  import opened Codec
  import opened Fragmentation
  import opened Wrappers

  // ---------- Specification: a partial function of fragments per packet ID ----------

  datatype Assembly = Assembly(total: byte, got: map<byte, UdpMessage>) {
    predicate Complete() { forall i: byte :: i < total ==> i in got }
  }

  type Table = map<uint16, Assembly>

  function Gather(got: map<byte, UdpMessage>, n: nat): seq<byte>
    requires n <= 0x100 && forall i: byte :: i < n ==> i in got
  {
    if n == 0 then [] else Gather(got, n - 1) + got[n - 1].data
  }

  function Deliver(a: Assembly): Option<UdpMessage>
    requires a.total > 0 && a.Complete()
  {
    var data := Gather(a.got, a.total);
    if data == [] then None else Some(a.got[0].(data := data))
  }

  // The part of an assembly that survives the arrival of m.
  function Current(t: Table, m: UdpMessage): map<byte, UdpMessage> {
    if m.packetID in t && t[m.packetID].total == m.fragmentTotal then t[m.packetID].got else map[]
  }

  predicate Fragmentary(m: UdpMessage) {
    1 < m.fragmentTotal && m.fragmentID < m.fragmentTotal
  }

  function FeedTable(t: Table, m: UdpMessage): Table {
    if !Fragmentary(m) || m.fragmentID in Current(t, m) then t
    else
      var a := Assembly(m.fragmentTotal, Current(t, m)[m.fragmentID := m]);
      if a.Complete() then t - {m.packetID} else t[m.packetID := a]
  }

  function FeedOutput(t: Table, m: UdpMessage): Option<UdpMessage> {
    if m.fragmentTotal <= 1 then Some(m)
    else if !Fragmentary(m) || m.fragmentID in Current(t, m) then None
    else
      var a := Assembly(m.fragmentTotal, Current(t, m)[m.fragmentID := m]);
      if a.Complete() then Deliver(a) else None
  }

  // What every reachable table satisfies.
  ghost predicate WellFormed(t: Table) {
    forall p :: p in t ==>
      && 2 <= t[p].total
      && t[p].got != map[]
      && !t[p].Complete()
      && forall i :: i in t[p].got ==>
           && i < t[p].total
           && t[p].got[i].fragmentID == i
           && t[p].got[i].fragmentTotal == t[p].total
           && t[p].got[i].packetID == p
  }

  lemma FeedWellFormed(t: Table, m: UdpMessage)
    requires WellFormed(t)
    ensures WellFormed(FeedTable(t, m))
  {
  }

  // ---------- Implementation: slots and a one-byte counter ----------

  function Filled(slots: seq<Option<UdpMessage>>): (n: nat)
    ensures n <= |slots|
  {
    if slots == [] then 0 else Filled(slots[..|slots| - 1]) + if slots[|slots| - 1].Some? then 1 else 0
  }

  lemma {:induction false} FilledAll(slots: seq<Option<UdpMessage>>)
    ensures Filled(slots) == |slots| <==> forall i :: 0 <= i < |slots| ==> slots[i].Some?
  {
    if slots != [] {
      FilledAll(slots[..|slots| - 1]);
    }
  }

  lemma {:induction false} FilledNone(slots: seq<Option<UdpMessage>>)
    ensures Filled(slots) == 0 <==> forall i :: 0 <= i < |slots| ==> slots[i].None?
  {
    if slots != [] {
      FilledNone(slots[..|slots| - 1]);
    }
  }

  lemma {:induction false} FilledUpdate(slots: seq<Option<UdpMessage>>, k: nat, m: UdpMessage)
    requires k < |slots| && slots[k].None?
    ensures Filled(slots[k := Some(m)]) == Filled(slots) + 1
  {
    var last := |slots| - 1;
    if k == last {
      assert slots[k := Some(m)][..last] == slots[..last];
    } else {
      assert slots[k := Some(m)][..last] == slots[..last][k := Some(m)];
      FilledUpdate(slots[..last], k, m);
    }
  }

  class PacketItem {
    var messages: seq<Option<UdpMessage>>
    var count: byte
    ghost var got: map<byte, UdpMessage>  // the filled slots

    // got is what the slots hold, and the counter is exact.
    ghost predicate Tracks()
      reads this
    {
      && 2 <= |messages| <= 255
      && count == Filled(messages)
      && forall i: byte ::
           && (i in got <==> i < |messages| && messages[i].Some?)
           && (i in got ==> messages[i] == Some(got[i]))
    }

    // An item in the table: some slot is filled and some slot is empty.
    ghost predicate Valid()
      reads this
    {
      Tracks() && 1 <= count < |messages|
    }

    ghost function View(): Assembly
      requires Tracks()
      reads this
    {
      Assembly(|messages|, got)
    }

    constructor (m: UdpMessage)
      requires Fragmentary(m)
      ensures Valid() && View() == Assembly(m.fragmentTotal, map[m.fragmentID := m])
    {
      var empty := seq(m.fragmentTotal, _ => None);
      FilledNone(empty);
      FilledUpdate(empty, m.fragmentID, m);
      messages := empty[m.fragmentID := Some(m)];
      count := 1;
      got := map[m.fragmentID := m];
    }

    // Fills the empty slot of a fragment; the counter cannot wrap because it
    // stays at or below the number of slots.
    method Fill(m: UdpMessage) returns (full: bool)
      requires Valid() && Fragmentary(m)
      requires m.fragmentTotal == View().total && m.fragmentID !in View().got
      modifies this
      ensures Tracks() && View() == old(View()).(got := old(View()).got[m.fragmentID := m])
      ensures full == View().Complete()
      ensures !full ==> Valid()
    {
      FilledUpdate(messages, m.fragmentID, m);
      messages := messages[m.fragmentID := Some(m)];
      got := got[m.fragmentID := m];
      FilledAll(messages);
      count := ToUint8(count + 1);
      full := count == |messages|;
      assert forall i: byte :: i < |messages| ==> (messages[i].Some? <==> i in got);
    }

    // The first fragment with the concatenated payloads, unless they are empty.
    method Assemble() returns (r: Option<UdpMessage>)
      requires Tracks() && View().Complete()
      ensures r == Deliver(View())
    {
      var data := [];
      for i := 0 to |messages|
        invariant data == Gather(got, i)
      {
        var index: byte := i;
        assert index in got;
        data := data + messages[i].value.data;
      }
      if data == [] {
        return None;
      }
      var zero: byte := 0;
      assert zero in got;
      return Some(messages[0].value.(data := data));
    }
  }

  class UdpDefragger {
    var packetMap: map<uint16, PacketItem>
    ghost var table: Table
    ghost var repr: set<PacketItem>

    // The items are separate objects, and the table is what they hold.
    ghost predicate Valid()
      reads this, repr
    {
      && table.Keys == packetMap.Keys
      && (forall p :: p in packetMap ==>
            packetMap[p] in repr && packetMap[p].Valid() && packetMap[p].View() == table[p])
      && (forall p, q :: p in packetMap && q in packetMap && p != q ==> packetMap[p] != packetMap[q])
    }

    constructor ()
      ensures Valid() && table == map[] && repr == {}
    {
      packetMap := map[];
      table := map[];
      repr := {};
    }

    method Feed(m: UdpMessage) returns (r: Option<UdpMessage>)
      requires Valid()
      modifies this, repr
      ensures Valid() && fresh(repr - old(repr))
      ensures table == FeedTable(old(table), m)
      ensures r == FeedOutput(old(table), m)
    {
      if m.fragmentTotal <= 1 {
        return Some(m);
      }
      if m.fragmentID >= m.fragmentTotal {
        return None;
      }
      if m.packetID !in packetMap || m.fragmentTotal != |packetMap[m.packetID].messages| {
        FirstFragment(table, m);
        Begin(m);
        return None;
      }
      if packetMap[m.packetID].messages[m.fragmentID].Some? {
        return None;
      }
      LaterFragment(table, m);
      r := Continue(m);
    }

    // A fresh item replaces whatever the packet ID held.
    method Begin(m: UdpMessage)
      requires Valid() && Fragmentary(m)
      modifies this
      ensures Valid() && fresh(repr - old(repr))
      ensures table == old(table)[m.packetID := Assembly(m.fragmentTotal, map[m.fragmentID := m])]
    {
      hide PacketItem.Valid, PacketItem.Tracks;
      var item := new PacketItem(m);
      repr := repr + {item};
      packetMap := packetMap[m.packetID := item];
      table := table[m.packetID := Assembly(m.fragmentTotal, map[m.fragmentID := m])];
    }

    // A missing fragment of the packet being assembled.
    method Continue(m: UdpMessage) returns (r: Option<UdpMessage>)
      requires Valid() && Fragmentary(m)
      requires m.packetID in table && table[m.packetID].total == m.fragmentTotal
      requires m.fragmentID !in table[m.packetID].got
      modifies this, packetMap[m.packetID]
      ensures Valid() && repr == old(repr)
      ensures var a := Assembly(m.fragmentTotal, old(table)[m.packetID].got[m.fragmentID := m]);
              && table == (if a.Complete() then old(table) - {m.packetID} else old(table)[m.packetID := a])
              && r == (if a.Complete() then Deliver(a) else None)
    {
      hide PacketItem.Valid, PacketItem.Tracks, PacketItem.View, Assembly.Complete, Deliver, Fragmentary;
      var item := packetMap[m.packetID];
      var full := item.Fill(m);
      if !full {
        table := table[m.packetID := item.View()];
        return None;
      }
      r := item.Assemble();
      packetMap := packetMap - {m.packetID};
      table := table - {m.packetID};
    }
  }

  lemma FirstFragment(t: Table, m: UdpMessage)
    requires Fragmentary(m) && (m.packetID in t ==> t[m.packetID].total != m.fragmentTotal)
    ensures FeedTable(t, m) == t[m.packetID := Assembly(m.fragmentTotal, map[m.fragmentID := m])]
    ensures FeedOutput(t, m) == None
  {
    var other: byte := if m.fragmentID == 0 then 1 else 0;
    assert other !in map[m.fragmentID := m];
  }

  lemma LaterFragment(t: Table, m: UdpMessage)
    requires Fragmentary(m) && m.packetID in t && t[m.packetID].total == m.fragmentTotal
    requires m.fragmentID !in t[m.packetID].got
    ensures var a := Assembly(m.fragmentTotal, t[m.packetID].got[m.fragmentID := m]);
            && FeedTable(t, m) == (if a.Complete() then t - {m.packetID} else t[m.packetID := a])
            && FeedOutput(t, m) == (if a.Complete() then Deliver(a) else None)
  {
  }
}
