/** The byte-stream reframer of `net_thread_fnc` in lib/examples/pdsch_enodeb.c:
    reads of any size come in, packets of the current transport block size go
    out, and what is left over is moved to the front of the buffer. */
module Reframer {
  import opened Bytes

  /** `1 + (tbs - 1) / 8`, with C's division, which truncates toward zero. */
  function PacketBytes(tbs: nat): (n: nat)
    ensures n >= 1
    ensures tbs <= 8 * n && (tbs > 0 ==> 8 * (n - 1) < tbs)
  {
    if tbs == 0 then 1 else 1 + (tbs - 1) / 8
  }

  // ------------------------------------------------- on values

  function Flatten(packets: seq<seq<byte>>): seq<byte> {
    if packets == [] then [] else packets[0] + Flatten(packets[1..])
  }

  /** The packets of `n` bytes that a run of bytes fills. */
  function Packets(b: seq<byte>, n: nat): seq<seq<byte>>
    requires n >= 1
    decreases |b|
  {
    if |b| < n then [] else [b[..n]] + Packets(b[n..], n)
  }

  function Rest(b: seq<byte>, n: nat): seq<byte>
    requires n >= 1
    decreases |b|
  {
    if |b| < n then b else Rest(b[n..], n)
  }

  lemma {:induction false} FlattenConcat(x: seq<seq<byte>>, y: seq<seq<byte>>)
    ensures Flatten(x + y) == Flatten(x) + Flatten(y)
  {
    if x == [] {
      assert x + y == y;
    } else {
      assert (x + y)[1..] == x[1..] + y;
      FlattenConcat(x[1..], y);
    }
  }

  lemma {:induction false} CutKeepsBytes(b: seq<byte>, n: nat)
    requires n >= 1
    ensures Flatten(Packets(b, n)) + Rest(b, n) == b
    ensures |Rest(b, n)| < n
    ensures forall p :: p in Packets(b, n) ==> |p| == n
    decreases |b|
  {
    if |b| >= n {
      CutKeepsBytes(b[n..], n);
      assert ([b[..n]] + Packets(b[n..], n))[1..] == Packets(b[n..], n);
      assert b == b[..n] + b[n..];
    }
  }

  /** Reads since the last empty one, each with the transport block size, in
      bits, then current. */
  datatype Read = Read(chunk: seq<byte>, tbs: nat) {
    function Nbytes(): (n: nat)
      ensures n >= 1
    { PacketBytes(tbs) }
  }

  function Received(history: seq<Read>): seq<byte> {
    if history == [] then [] else Received(history[..|history| - 1]) + history[|history| - 1].chunk
  }

  /** Packets handed over by a sequence of reads, and the bytes left over. */
  function Handed(history: seq<Read>): (r: (seq<seq<byte>>, seq<byte>))
  {
    if history == [] then ([], [])
    else
      var last := history[|history| - 1];
      var front := Handed(history[..|history| - 1]);
      (front.0 + Packets(front.1 + last.chunk, last.Nbytes()), Rest(front.1 + last.chunk, last.Nbytes()))
  }

  lemma Regroup(x: seq<byte>, y: seq<byte>, z: seq<byte>)
    ensures (x + y) + z == x + (y + z)
  {
  }

  /** Whatever the packet sizes were, the packets in order followed by the left
      over bytes are exactly the bytes received. */
  lemma {:induction false} NothingLost(history: seq<Read>)
    ensures Flatten(Handed(history).0) + Handed(history).1 == Received(history)
  {
    if history != [] {
      var front, last := history[..|history| - 1], history[|history| - 1];
      NothingLost(front);
      var b := Handed(front).1 + last.chunk;
      CutKeepsBytes(b, last.Nbytes());
      FlattenConcat(Handed(front).0, Packets(b, last.Nbytes()));
      Regroup(Flatten(Handed(front).0), Flatten(Packets(b, last.Nbytes())), Rest(b, last.Nbytes()));
      Regroup(Flatten(Handed(front).0), Handed(front).1, last.chunk);
    }
  }

  /** Each read hands over, behind what was handed over before, packets of the size
      then current, until less than one is left. */
  lemma EachReadCuts(history: seq<Read>, r: Read) returns (cut: seq<seq<byte>>)
    ensures Handed(history + [r]).0 == Handed(history).0 + cut
    ensures Flatten(cut) + Handed(history + [r]).1 == Handed(history).1 + r.chunk
    ensures forall p :: p in cut ==> |p| == PacketBytes(r.tbs)
    ensures |Handed(history + [r]).1| < PacketBytes(r.tbs)
  {
    assert (history + [r])[..|history|] == history;
    cut := Packets(Handed(history).1 + r.chunk, PacketBytes(r.tbs));
    CutKeepsBytes(Handed(history).1 + r.chunk, PacketBytes(r.tbs));
  }

  // ------------------------------------------------- in place

  class Stream {
    const data2: array<byte>
    var rpm: nat
    ghost var history: seq<Read>
    ghost var packets: seq<seq<byte>>

    ghost predicate Valid()
      reads this, data2
    {
      && rpm <= data2.Length
      && packets == Handed(history).0 && data2[..rpm] == Handed(history).1
    }

    constructor (size: nat)
      ensures Valid() && fresh(data2) && data2.Length == size && history == []
    {
      data2 := new byte[size](i => 0);
      rpm, history, packets := 0, [], [];
    }

    /** One read of `chunk`, which fits the free part of the buffer, cut into
        packets that hold a transport block of `tbs` bits. */
    method OnRead(chunk: seq<byte>, tbs: nat)
      requires Valid() && 0 < |chunk| <= data2.Length - rpm
      modifies this, data2
      ensures Valid() && history == old(history) + [Read(chunk, tbs)]
      ensures rpm < PacketBytes(tbs)
    {
      var nbytes := PacketBytes(tbs);
      ghost var left := data2[..rpm];
      forall i | 0 <= i < |chunk| { data2[rpm + i] := chunk[i]; }
      rpm := rpm + |chunk|;
      assert data2[..rpm] == left + chunk;
      ghost var cut := CutPackets(nbytes);
      packets := packets + cut;
      history := history + [Read(chunk, tbs)];
      assert history[..|history| - 1] == old(history);
      CutKeepsBytes(left + chunk, nbytes);
    }

    /** The inner loop and the compaction. */
    method CutPackets(nbytes: nat) returns (ghost cut: seq<seq<byte>>)
      requires rpm <= data2.Length && nbytes >= 1
      modifies this`rpm, data2
      ensures rpm <= data2.Length
      ensures cut == Packets(old(data2[..rpm]), nbytes)
      ensures data2[..rpm] == Rest(old(data2[..rpm]), nbytes)
    {
      var wpm := 0;
      cut := [];
      ghost var all := data2[..rpm];
      ghost var rest := all;
      while rpm >= nbytes
        invariant wpm + rpm <= data2.Length && |rest| == rpm && wpm + rpm == |all|
        invariant data2[..] == old(data2[..]) && rest == all[wpm..]
        invariant cut + Packets(rest, nbytes) == Packets(all, nbytes)
        invariant Rest(rest, nbytes) == Rest(all, nbytes)
        invariant wpm == 0 || wpm >= nbytes
        decreases rpm
      {
        assert data2[wpm..wpm + nbytes] == rest[..nbytes];
        cut := cut + [data2[wpm..wpm + nbytes]];
        rest := rest[nbytes..];
        rpm := rpm - nbytes;
        wpm := wpm + nbytes;
      }
      assert data2[wpm..wpm + rpm] == rest;
      if wpm > 0 { Compact(wpm); }
    }

    /** The compaction `memcpy`: its two ranges do not overlap. */
    method Compact(wpm: nat)
      requires rpm <= wpm && wpm + rpm <= data2.Length
      modifies data2
      ensures data2[..rpm] == old(data2[wpm..wpm + rpm])
    {
      forall i | 0 <= i < rpm { data2[i] := data2[wpm + i]; }
    }

    /** A read of no bytes drops what is left over. */
    method OnEmptyRead()
      requires Valid()
      modifies this
      ensures Valid() && rpm == 0 && history == []
    {
      rpm, history, packets := 0, [], [];
    }
  }
}
