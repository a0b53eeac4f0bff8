// Sniffing the start of a stream through a cache, over a reader that counts bytes.
module CachedReader {
  import opened Bytes
  import opened Wrappers

  datatype Error = Eof | Timeout | Other(code: int)

  // What one read of a stream gives: bytes, an error, or both.
  datatype Chunk = Chunk(bytes: seq<byte>, err: Option<Error>)

  // A source is the script of what its reads will give; at the end it only gives
  // Eof.
  function At(script: seq<Chunk>, i: nat): Chunk {
    if i < |script| then script[i] else Chunk([], Some(Eof))
  }

  function Contents(chunks: seq<Chunk>): seq<byte> {
    if chunks == [] then [] else Contents(chunks[..|chunks| - 1]) + chunks[|chunks| - 1].bytes
  }

  // The bytes of the first n reads.
  function Pulled(script: seq<Chunk>, n: nat): seq<byte> {
    if n == 0 then [] else Pulled(script, n - 1) + At(script, n - 1).bytes
  }

  // ---------- Specification ----------

  // How many reads the source has served, the counter, the cache, the sticky error.
  datatype View = View(next: nat, counter: int, cache: seq<byte>, err: Option<Error>)

  // A read whose deadline passes before the source is ready takes nothing from it.
  function Pull(script: seq<Chunk>, v: View, ready: bool): (View, Chunk) {
    if ready then
      var c := At(script, v.next);
      (v.(next := v.next + 1, counter := v.counter + |c.bytes|), c)
    else (v, Chunk([], Some(Timeout)))
  }

  function Cached(script: seq<Chunk>, v: View, ready: bool): View {
    var (p, c) := Pull(script, v, ready);
    p.(cache := v.cache + c.bytes, err := if c.err.Some? then c.err else v.err)
  }

  // A read without a deadline is always ready in the end.
  function ReadOnce(script: seq<Chunk>, v: View, ready: bool): (View, Chunk) {
    if v.cache != [] then (v.(cache := []), Chunk(v.cache, v.err))
    else if v.err.Some? then (v, Chunk([], v.err))
    else Pull(script, v, ready)
  }

  // ---------- Implementation ----------

  class Source {
    const script: seq<Chunk>
    var next: nat

    constructor (script: seq<Chunk>)
      ensures this.script == script && next == 0
    {
      this.script, next := script, 0;
    }

    method ReadMultiBuffer() returns (c: Chunk)
      modifies this
      ensures c == At(script, old(next)) && next == old(next) + 1
    {
      c := if next < |script| then script[next] else Chunk([], Some(Eof));
      next := next + 1;
    }

    method ReadMultiBufferTimeout(ready: bool) returns (c: Chunk)
      modifies this
      ensures c == if ready then At(script, old(next)) else Chunk([], Some(Timeout))
      ensures next == old(next) + if ready then 1 else 0
    {
      if !ready {
        return Chunk([], Some(Timeout));
      }
      c := ReadMultiBuffer();
    }
  }

  class Counter {
    var value: int

    constructor ()
      ensures value == 0
    {
      value := 0;
    }

    method Add(n: int)
      modifies this
      ensures value == old(value) + n
    {
      value := value + n;
    }
  }

  class CounterReader {
    const reader: Source
    const counter: Counter

    constructor (reader: Source, counter: Counter)
      ensures this.reader == reader && this.counter == counter
    {
      this.reader, this.counter := reader, counter;
    }

    method ReadMultiBuffer() returns (mb: seq<byte>, err: Option<Error>)
      modifies reader, counter
      ensures Chunk(mb, err) == At(reader.script, old(reader.next)) && reader.next == old(reader.next) + 1
      ensures counter.value == old(counter.value) + |mb|
    {
      var c := reader.ReadMultiBuffer();
      mb, err := c.bytes, c.err;
      if |mb| > 0 {
        counter.Add(|mb|);
      }
    }

    method ReadMultiBufferTimeout(ready: bool) returns (mb: seq<byte>, err: Option<Error>)
      modifies reader, counter
      ensures Chunk(mb, err) == if ready then At(reader.script, old(reader.next)) else Chunk([], Some(Timeout))
      ensures reader.next == old(reader.next) + if ready then 1 else 0
      ensures counter.value == old(counter.value) + |mb|
    {
      var c := reader.ReadMultiBufferTimeout(ready);
      mb, err := c.bytes, c.err;
      if |mb| > 0 {
        counter.Add(|mb|);
      }
    }
  }

  // The buffer handed to the sniffer.
  class Buffer {
    const cap: nat
    var data: seq<byte>

    constructor (cap: nat)
      ensures this.cap == cap && data == []
    {
      this.cap, data := cap, [];
    }
  }

  class CachedReader {
    const reader: CounterReader
    var cache: seq<byte>
    var err: Option<Error>

    constructor (reader: CounterReader)
      ensures this.reader == reader && cache == [] && err == None
    {
      this.reader := reader;
      cache, err := [], None;
    }

    ghost function V(): View
      reads this, reader.reader, reader.counter
    {
      View(reader.reader.next, reader.counter.value, cache, err)
    }

    // The sniffer sees as much of the cache as its buffer can hold.
    method Cache(b: Buffer, ready: bool) returns (e: Option<Error>)
      modifies this, b, reader.reader, reader.counter
      ensures V() == Cached(reader.reader.script, old(V()), ready)
      ensures e == Pull(reader.reader.script, old(V()), ready).1.err
      ensures b.data == V().cache[..Min(|V().cache|, b.cap)]
    {
      var mb;
      mb, e := reader.ReadMultiBufferTimeout(ready);
      if e != None {
        err := e;
      }
      if |mb| > 0 {
        cache := cache + mb;
      }
      b.data := cache[..Min(|cache|, b.cap)];
    }

    method ReadInternal() returns (c: Chunk)
      modifies this
      ensures c == Chunk(old(cache), old(err)) && cache == [] && err == old(err)
    {
      if |cache| > 0 {
        c := Chunk(cache, err);
        cache := [];
        return;
      }
      return Chunk([], err);
    }

    method ReadMultiBuffer() returns (c: Chunk)
      modifies this, reader.reader, reader.counter
      ensures (V(), c) == ReadOnce(reader.reader.script, old(V()), true)
    {
      c := ReadInternal();
      if |c.bytes| > 0 || c.err != None {
        return;
      }
      var mb, e := reader.ReadMultiBuffer();
      c := Chunk(mb, e);
    }

    method ReadMultiBufferTimeout(ready: bool) returns (c: Chunk)
      modifies this, reader.reader, reader.counter
      ensures (V(), c) == ReadOnce(reader.reader.script, old(V()), ready)
    {
      c := ReadInternal();
      if |c.bytes| > 0 || c.err != None {
        return;
      }
      var mb, e := reader.ReadMultiBufferTimeout(ready);
      c := Chunk(mb, e);
    }

    // The reader below is a counting one, so there is no pipe to interrupt.
    method Interrupt()
      modifies this
      ensures V() == old(V()).(cache := [])
    {
      cache := [];
    }
  }

  // ---------- Any sequence of calls ----------

  // Calls with a deadline say whether the source is ready in time.
  datatype Call = Cache(ready: bool) | Read | TimedRead(ready: bool) | Interrupt

  const Fresh := View(0, 0, [], None)

  // The state after some calls, and what the reads among them gave.
  function After(script: seq<Chunk>, calls: seq<Call>): (View, seq<Chunk>) {
    if calls == [] then (Fresh, [])
    else
      var (v, out) := After(script, calls[..|calls| - 1]);
      match calls[|calls| - 1]
      case Cache(ready) => (Cached(script, v, ready), out)
      case Read => var (w, c) := ReadOnce(script, v, true); (w, out + [c])
      case TimedRead(ready) => var (w, c) := ReadOnce(script, v, ready); (w, out + [c])
      case Interrupt => (v.(cache := []), out)
  }

  // What was delivered, followed by what is cached, is what was pulled from the
  // source, in order; and the counter counts it.
  lemma {:induction false} NothingIsLost(script: seq<Chunk>, calls: seq<Call>)
    requires Interrupt !in calls
    ensures var (v, out) := After(script, calls);
            && Contents(out) + v.cache == Pulled(script, v.next)
            && v.counter == |Contents(out)| + |v.cache|
  {
    if calls != [] {
      var n := |calls| - 1;
      NothingIsLost(script, calls[..n]);
      var (v, out) := After(script, calls[..n]);
      match calls[n]
      case Cache(ready) =>
        var bytes := Pull(script, v, ready).1.bytes;
        assert Contents(out) + (v.cache + bytes) == Contents(out) + v.cache + bytes;
      case Read => ReadKeeps(script, v, out, true);
      case TimedRead(ready) => ReadKeeps(script, v, out, ready);
      case Interrupt =>
    }
  }

  lemma {:induction false} ReadKeeps(script: seq<Chunk>, v: View, out: seq<Chunk>, ready: bool)
    requires Contents(out) + v.cache == Pulled(script, v.next)
    ensures var (w, c) := ReadOnce(script, v, ready);
            Contents(out + [c]) + w.cache == Pulled(script, w.next)
  {
    var (w, c) := ReadOnce(script, v, ready);
    assert (out + [c])[..|out|] == out;
    assert v.cache == [] ==> Contents(out) + v.cache == Contents(out);
    assert Contents(out + [c]) + w.cache == Contents(out) + c.bytes;
  }

  // With interrupts the counter still counts every byte pulled.
  lemma {:induction false} CounterCountsPulled(script: seq<Chunk>, calls: seq<Call>)
    ensures var v := After(script, calls).0; v.counter == |Pulled(script, v.next)|
  {
    if calls != [] {
      CounterCountsPulled(script, calls[..|calls| - 1]);
    }
  }

  // ---------- The reader cannot tell ----------

  // The first read of the source that reports an error, if any before the end.
  function FirstError(script: seq<Chunk>): (i: nat)
    ensures i <= |script| && At(script, i).err.Some?
    ensures forall j :: 0 <= j < i ==> At(script, j).err.None?
  {
    if script == [] then 0
    else if script[0].err.Some? then 0
    else
      var i := FirstError(script[1..]);
      assert forall j :: 1 <= j <= |script| ==> At(script, j) == At(script[1..], j - 1);
      i + 1
  }

  // The errors of a source are its own; a passed deadline is not among them.
  predicate OwnErrors(script: seq<Chunk>) { forall i :: 0 <= i < |script| ==> script[i].err != Some(Timeout) }

  // The sniffer stops caching when it gets an error, and the reader stops reading
  // when it gets one.
  predicate Sensible(script: seq<Chunk>, calls: seq<Call>) {
    && Interrupt !in calls
    && forall i :: 0 <= i < |calls| ==>
         var (v, out) := After(script, calls[..i]);
         && (calls[i].Cache? ==> v.err.None?)
         && (forall c :: c in out ==> c.err.None?)
  }

  ghost predicate NoError(out: seq<Chunk>) { forall c :: c in out ==> c.err.None? }

  // The last call is a read of the reader's own that ran into its deadline.
  predicate OwnTimeout(script: seq<Chunk>, calls: seq<Call>) {
    && calls != [] && calls[|calls| - 1] == TimedRead(false)
    && var v := After(script, calls[..|calls| - 1]).0; v.cache == [] && v.err.None?
  }

  // The first error of the source has been pulled, or a deadline has passed
  // before it.
  ghost predicate FirstOrTimeout(script: seq<Chunk>, v: View, err: Option<Error>) {
    var f := FirstError(script);
    (v.next == f + 1 && err == At(script, f).err) || (v.next <= f && err == Some(Timeout))
  }

  // No error before the source's first one; what is kept, and what is reported, is
  // that error or a timeout; a timeout is kept if and only if the sniffer ran into
  // one, and reported if and only if one is kept or the reader ran into its own.
  ghost predicate Told(script: seq<Chunk>, v: View, out: seq<Chunk>, sniffed: bool, own: bool) {
    && (v.err.None? && NoError(out) ==> v.next <= FirstError(script))
    && (v.err.Some? ==> FirstOrTimeout(script, v, v.err))
    && (v.err == Some(Timeout) <==> sniffed)
    && (!NoError(out) ==>
          v.cache == [] && out != [] && FirstOrTimeout(script, v, out[|out| - 1].err)
          && (out[|out| - 1].err == Some(Timeout) <==> sniffed || own))
  }

  lemma CacheKeepsTold(script: seq<Chunk>, v: View, out: seq<Chunk>, sniffed: bool, own: bool, ready: bool)
    requires OwnErrors(script) && Told(script, v, out, sniffed, own) && NoError(out) && v.err.None?
    ensures Told(script, Cached(script, v, ready), out, sniffed || !ready, false)
  {
    assert At(script, v.next).err != Some(Timeout);
    hide NoError;
  }

  lemma ReadKeepsTold(script: seq<Chunk>, v: View, out: seq<Chunk>, sniffed: bool, own: bool, ready: bool)
    requires OwnErrors(script) && Told(script, v, out, sniffed, own) && NoError(out)
    ensures var (w, c) := ReadOnce(script, v, ready);
            Told(script, w, out + [c], sniffed, !ready && v.cache == [] && v.err.None?)
  {
    var (w, c) := ReadOnce(script, v, ready);
    assert At(script, v.next).err != Some(Timeout);
    assert NoError(out + [c]) <==> c.err.None? by {
      assert c in out + [c];
    }
    hide NoError;
  }

  lemma SensibleSoFar(script: seq<Chunk>, calls: seq<Call>)
    requires Sensible(script, calls) && calls != []
    ensures var n := |calls| - 1;
            var (v, out) := After(script, calls[..n]);
            Sensible(script, calls[..n]) && NoError(out) && !calls[n].Interrupt? && (calls[n].Cache? ==> v.err.None?)
  {
    var n := |calls| - 1;
    forall i | 0 <= i < n ensures calls[..n][..i] == calls[..i] {}
    hide After;
  }

  lemma {:induction false} ErrorsComeOnce(script: seq<Chunk>, calls: seq<Call>)
    requires OwnErrors(script) && Sensible(script, calls)
    ensures var (v, out) := After(script, calls);
            Told(script, v, out, Cache(false) in calls, OwnTimeout(script, calls))
  {
    if calls != [] {
      var n := |calls| - 1;
      SensibleSoFar(script, calls);
      hide Sensible, OwnErrors, Told, NoError, Cached, ReadOnce, FirstOrTimeout;
      ErrorsComeOnce(script, calls[..n]);
      assert calls == calls[..n] + [calls[n]];
      var (v, out) := After(script, calls[..n]);
      var sniffed, own := Cache(false) in calls[..n], OwnTimeout(script, calls[..n]);
      match calls[n]
      case Cache(ready) => CacheKeepsTold(script, v, out, sniffed, own, ready);
      case Read => ReadKeepsTold(script, v, out, sniffed, own, true);
      case TimedRead(ready) => ReadKeepsTold(script, v, out, sniffed, own, ready);
    }
  }

  // Up to the first error the reader gets the bytes that were pulled. They are
  // those that the source itself gives up to its first error, followed by that
  // error, unless a deadline passed: one of the sniffer's, whose timeout stays with
  // the reader, or the reader's own.
  lemma {:induction false} Transparent(script: seq<Chunk>, calls: seq<Call>)
    requires OwnErrors(script) && Sensible(script, calls) && !NoError(After(script, calls).1)
    ensures var (v, out) := After(script, calls);
            var f := FirstError(script);
            && out != [] && Contents(out) == Pulled(script, v.next)
            && (out[|out| - 1].err == At(script, f).err <==> !(Cache(false) in calls || OwnTimeout(script, calls)))
            && (out[|out| - 1].err == At(script, f).err ==> Contents(out) == Pulled(script, f + 1))
            && (out[|out| - 1].err == At(script, f).err || out[|out| - 1].err == Some(Timeout))
  {
    ErrorsComeOnce(script, calls);
    NothingIsLost(script, calls);
    var (v, out) := After(script, calls);
    assert v.cache == [] ==> Contents(out) + v.cache == Contents(out);
    assert At(script, FirstError(script)).err != Some(Timeout);
  }

  // ---------- Draining ----------

  function Reads(k: nat): seq<Call> { seq(k, _ => Read) }

  lemma {:induction false} DrainKeeps(script: seq<Chunk>, calls: seq<Call>, k: nat)
    ensures var v, w := After(script, calls).0, After(script, calls + Reads(k)).0;
            && w.err == v.err
            && (k > 0 ==> w.cache == [])
            && (v.err.Some? ==> w.next == v.next)
            && (v.err.None? ==> w.next + 1 >= v.next + k)
            && (k > 0 && v.err.None? && v.cache == [] ==> w.next == v.next + k)
  {
    if k == 0 {
      assert calls + Reads(0) == calls;
    } else {
      var all := calls + Reads(k);
      assert all[..|all| - 1] == calls + Reads(k - 1);
      assert all[|all| - 1] == Read;
      DrainKeeps(script, calls, k - 1);
    }
  }

  lemma {:induction false} PulledBeyond(script: seq<Chunk>, n: nat)
    requires n >= |script|
    ensures Pulled(script, n) == Pulled(script, |script|)
  {
    if n > |script| {
      PulledBeyond(script, n - 1);
    }
  }

  // Reading on after some sniffing delivers the whole source if and only if no
  // Cache call failed, or nothing was left behind the failure.
  lemma {:induction false} WholeStreamIff(script: seq<Chunk>, calls: seq<Call>, k: nat)
    requires Interrupt !in calls && k > |script|
    ensures var v := After(script, calls).0;
            Contents(After(script, calls + Reads(k)).1) == Pulled(script, |script|) <==>
              v.err.None? || Pulled(script, v.next) == Pulled(script, |script|)
  {
    DrainKeeps(script, calls, k);
    NothingIsLost(script, calls + Reads(k));
    var (w, out) := After(script, calls + Reads(k));
    assert Contents(out) + [] == Contents(out);
    if After(script, calls).0.err.None? {
      PulledBeyond(script, w.next);
    }
  }

  // For example when the sniffer's only read times out: then nothing is ever
  // delivered.
  lemma TimeoutStarves(script: seq<Chunk>, k: nat)
    ensures Contents(After(script, [Cache(false)] + Reads(k)).1) == []
  {
    TimedOut(script);
    DrainKeeps(script, [Cache(false)], k);
    NothingIsLost(script, [Cache(false)] + Reads(k));
    assert Pulled(script, 0) == [];
    hide *;
  }

  lemma TimedOut(script: seq<Chunk>)
    ensures After(script, [Cache(false)]).0 == View(0, 0, [], Some(Timeout))
  {
    assert [Cache(false)][..0] == [];
  }
}
