/**
  The buffered streams of net/brpc/amf_inl.h.  A zero-copy stream hands out blocks of any sizes,
  empty ones included; the classes below hide the block boundaries from the codec.
*/
module AmfStream {
  import opened Basics
  import opened Bytes

  function Flatten(chunks: seq<seq<byte>>): (s: seq<byte>) {
    if chunks == [] then [] else chunks[0] + Flatten(chunks[1..])
  }

  function Zeros(n: nat): (s: seq<byte>)
    ensures |s| == n
  {
    seq(n, _ => 0)
  }

  /** What a reader may ask of its stream, and what it gets: how many bytes were there, and which, or their value. */
  datatype Cut = CutBytes(n: nat) | CutByte(was: byte) | CutInt(w: nat)

  datatype Piece = Raw(n: nat, bytes: seq<byte>) | Value(n: nat, val: nat)

  /** What a flat queue of bytes answers; a short integer is padded with zeros, a missing byte keeps its value. */
  function FlatCut(q: seq<byte>, c: Cut): (p: Piece)
    ensures p.n <= |q|
  {
    match c
    case CutBytes(n) => var k := Min(n, |q|); Raw(k, q[..k])
    case CutByte(was) => if q == [] then Value(0, was) else Value(1, q[0])
    case CutInt(w) => var k := Min(w, |q|); Value(k, FromBE(q[..k] + Zeros(w - k)))
  }

  /** A whole run of cuts: the answers, and the bytes left. */
  function FlatCuts(q: seq<byte>, cuts: seq<Cut>): (r: (seq<Piece>, seq<byte>)) {
    if cuts == [] then ([], q)
    else
      var p := FlatCut(q, cuts[0]);
      var r := FlatCuts(q[p.n..], cuts[1..]);
      ([p] + r.0, r.1)
  }

  datatype Output = PutBytes(data: seq<byte>) | PutByte(val: byte) | PutInt(v: nat, w: nat)

  function Data(p: Output): (s: seq<byte>) {
    match p
    case PutBytes(data) => data
    case PutByte(val) => [val]
    case PutInt(v, w) => BE(v, w)
  }

  /** Everything a run of puts writes. */
  function Written(puts: seq<Output>): (s: seq<byte>) {
    if puts == [] then [] else Written(puts[..|puts| - 1]) + Data(puts[|puts| - 1])
  }

  class InputStream {
    var buf: seq<byte>          // the unread part of the current block: _data and _size
    var chunks: seq<seq<byte>>  // blocks the zero-copy stream has yet to hand out
    var popped: nat

    ghost function Contents(): (s: seq<byte>)
      reads this
    {
      buf + Flatten(chunks)
    }

    constructor (blocks: seq<seq<byte>>)
      ensures Contents() == Flatten(blocks) && popped == 0
    {
      buf, chunks, popped := [], blocks, 0;
    }

    /** ZeroCopyInputStream::Next, replacing the current block. */
    method Next() returns (more: bool)
      modifies this
      ensures more <==> old(chunks) != []
      ensures more ==> |chunks| < |old(chunks)| && Contents() == Flatten(old(chunks))
      ensures !more ==> buf == old(buf) && chunks == []
      ensures popped == old(popped)
    {
      more := chunks != [];
      if more {
        buf, chunks := chunks[0], chunks[1..];
      }
    }

    /** Takes n bytes off the front, or all there is when that is less. */
    method CutN(n: nat) returns (out: seq<byte>)
      modifies this
      ensures |out| == Min(n, |old(Contents())|)
      ensures out == old(Contents())[..|out|] && Contents() == old(Contents())[|out|..]
      ensures popped == old(popped) + |out|
    {
      out := [];
      var need: nat := n;
      ghost var all := Contents();
      while true
        invariant out + Contents() == all && |out| + need == n && popped == old(popped)
        decreases |chunks|
      {
        if |buf| >= need {
          ghost var before := out + Contents();
          out := out + buf[..need];
          buf := buf[need..];
          popped := popped + n;
          assert before == out + Contents();
          return;
        }
        ghost var before := out + Contents();
        if |buf| > 0 {
          out := out + buf;
          need := need - |buf|;
        }
        var more := Next();
        if !more { break; }
        assert before == out + Contents();
      }
      buf := [];
      popped := popped + (n - need);
    }

    /** cut_u8: the one-byte fast path; the target keeps its old value on an empty stream. */
    method CutU8(was: byte) returns (n: nat, val: byte)
      modifies this
      ensures n == Min(1, |old(Contents())|) && Contents() == old(Contents())[n..]
      ensures val == if n == 1 then old(Contents())[0] else was
      ensures popped == old(popped) + n
    {
      if |buf| >= 1 {
        val := buf[0];
        ghost var before := Contents();
        buf, popped, n := buf[1..], popped + 1, 1;
        assert before == [val] + Contents();
      } else {
        var out := CutN(1);
        n, val := |out|, if |out| == 1 then out[0] else was;
      }
    }

    /** cut_u16, cut_u32 and cut_u64: a big-endian integer, possibly straddling blocks. */
    method CutUint(w: nat) returns (n: nat, val: nat)
      modifies this
      ensures n == Min(w, |old(Contents())|) && Contents() == old(Contents())[n..]
      ensures val == FromBE(old(Contents())[..n] + Zeros(w - n))
      ensures popped == old(popped) + n
    {
      ghost var before := Contents();
      if |buf| >= w {
        val := FromBE(buf[..w]);
        assert before[..w] + Zeros(0) == buf[..w];
        buf, popped, n := buf[w..], popped + w, w;
        assert before[w..] == Contents();
      } else {
        var out := CutN(w);
        n, val := |out|, FromBE(out + Zeros(w - |out|));
      }
    }

    method Serve(c: Cut) returns (p: Piece)
      modifies this
      ensures p == FlatCut(old(Contents()), c) && Contents() == old(Contents())[p.n..]
      ensures popped == old(popped) + p.n
    {
      match c {
        case CutBytes(n) =>
          var out := CutN(n);
          p := Raw(|out|, out);
        case CutByte(was) =>
          var n, val := CutU8(was);
          p := Value(n, val);
        case CutInt(w) =>
          var n, val := CutUint(w);
          p := Value(n, val);
      }
    }

    /** Buffering is invisible: any mixture of cuts answers as the flat queue would, and leaves the same. */
    method CutAll(cuts: seq<Cut>) returns (pieces: seq<Piece>)
      modifies this
      ensures (pieces, Contents()) == FlatCuts(old(Contents()), cuts)
      ensures popped - old(popped) == |old(Contents())| - |Contents()|
    {
      hide FlatCut;
      pieces := [];
      ghost var all := FlatCuts(Contents(), cuts);
      ghost var size := |Contents()|;
      assert cuts[0..] == cuts;
      for i := 0 to |cuts|
        invariant var r := FlatCuts(Contents(), cuts[i..]); pieces + r.0 == all.0 && r.1 == all.1
        invariant popped + |Contents()| == old(popped) + size
      {
        assert cuts[i..][0] == cuts[i] && cuts[i..][1..] == cuts[i + 1..];
        var p := Serve(cuts[i]);
        ghost var later := FlatCuts(Contents(), cuts[i + 1..]).0;
        assert pieces + ([p] + later) == (pieces + [p]) + later;
        pieces := pieces + [p];
      }
      assert cuts[|cuts|..] == [] && pieces + [] == pieces;
    }
  }

  class OutputStream {
    var good: bool
    var size: nat         // room left in the current block
    var sink: seq<byte>   // every byte of every block handed out so far
    var sizes: seq<nat>   // blocks the zero-copy stream has yet to hand out
    var pushed: nat

    ghost predicate Valid()
      reads this
    {
      size <= |sink| && pushed == |sink| - size
    }

    /** The bytes written so far. */
    ghost function Contents(): (s: seq<byte>)
      requires Valid()
      reads this
    {
      sink[..|sink| - size]
    }

    /** Bytes that can still be written. */
    ghost function Room(): (n: nat)
      reads this
    {
      size + Sum(sizes)
    }

    constructor (blocks: seq<nat>)
      ensures Valid() && good && Contents() == [] && Room() == Sum(blocks)
    {
      good, size, sink, sizes, pushed := true, 0, [], blocks, 0;
    }

    /** ZeroCopyOutputStream::Next; the bytes of a fresh block are whatever they are. */
    method Next(filler: byte) returns (more: bool)
      requires size == 0 && Valid()
      modifies this
      ensures Valid() && good == old(good)
      ensures Contents() == old(Contents()) && Room() == old(Room())
      ensures more <==> old(sizes) != []
      ensures |sizes| == |old(sizes)| - if more then 1 else 0
      ensures !more ==> size == 0
    {
      more := sizes != [];
      if more {
        var n := sizes[0];
        sink, size, sizes := sink + seq(n, _ => filler), n, sizes[1..];
      }
    }

    /** memcpy to the write position, which moves on. */
    method Copy(data: seq<byte>)
      requires Valid() && |data| <= size
      modifies `sink, `size, `pushed
      ensures Valid() && size == old(size) - |data|
      ensures Contents() == old(Contents()) + data && Room() == old(Room()) - |data|
    {
      var at := |sink| - size;
      sink := sink[..at] + data + sink[at + |data|..];
      size, pushed := size - |data|, pushed + |data|;
    }

    method PutN(data: seq<byte>)
      requires Valid()
      modifies this
      ensures Valid()
      ensures var n := Min(|data|, old(Room()));
              Contents() == old(Contents()) + data[..n] && Room() == old(Room()) - n
      ensures good == (old(good) && |data| <= old(Room()))
    {
      var off := 0;
      while true
        invariant Valid() && 0 <= off <= |data| && good == old(good)
        invariant Contents() == old(Contents()) + data[..off] && Room() == old(Room()) - off
        decreases |sizes|
      {
        var n := Min(|data| - off, size);
        Copy(data[off..off + n]);
        assert data[..off] + data[off..off + n] == data[..off + n];
        off := off + n;
        if off == |data| {
          return;
        }
        var more := Next(0);
        if !more { break; }
      }
      good := false;
    }

    method PutU8(val: byte)
      requires Valid()
      modifies this
      ensures Valid()
      ensures good == (old(good) && 1 <= old(Room()))
      ensures Contents() == old(Contents()) + if 1 <= old(Room()) then [val] else []
      ensures Room() == old(Room()) - Min(1, old(Room()))
    {
      while true
        invariant Valid() && good == old(good)
        invariant Contents() == old(Contents()) && Room() == old(Room())
        decreases |sizes|
      {
        if size > 0 {
          Copy([val]);
          return;
        }
        var more := Next(0);
        if !more { break; }
      }
      good := false;
    }

    method Take(p: Output)
      requires Valid()
      modifies this
      ensures Valid()
      ensures var n := Min(|Data(p)|, old(Room()));
              Contents() == old(Contents()) + Data(p)[..n] && Room() == old(Room()) - n
      ensures good == (old(good) && |Data(p)| <= old(Room()))
    {
      match p {
        case PutBytes(data) => PutN(data);
        case PutByte(val) => PutU8(val);
        case PutInt(v, w) => PutN(BE(v, w));
      }
    }

    /** Gives the unused tail of the last block back; a bad stream keeps it. */
    method Done()
      requires Valid()
      modifies this
      ensures Valid() && good == old(good) && Contents() == old(Contents())
      ensures good ==> sink == old(Contents()) && pushed == |sink|
    {
      if good && size > 0 {
        sink, size := sink[..|sink| - size], 0;
      }
    }

    /** Any run of puts, then done: a good stream holds exactly what was put; it is good exactly with room for all. */
    method PutAll(puts: seq<Output>)
      requires Valid()
      modifies this
      ensures Valid() && good == (old(good) && |Written(puts)| <= old(Room()))
      ensures Contents() == old(Contents()) + Written(puts)[..Min(|Written(puts)|, old(Room()))]
      ensures good ==> sink == old(Contents()) + Written(puts) && pushed == |sink|
    {
      hide OutputStream.Valid, OutputStream.Contents, OutputStream.Room, Data;
      ghost var before, room := Contents(), Room();
      for i := 0 to |puts|
        invariant Valid()
        invariant var all := Written(puts[..i]);
                  && good == (old(good) && |all| <= room) && Room() == room - Min(|all|, room)
                  && Contents() == before + all[..Min(|all|, room)]
      {
        ghost var all, d := Written(puts[..i]), Data(puts[i]);
        assert puts[..i + 1][..i] == puts[..i];
        Take(puts[i]);
        Clipped(before, all, d, room);
      }
      assert puts[..|puts|] == puts;
      Done();
    }
  }

  /** Clipping as one goes is clipping the whole. */
  lemma Clipped(before: seq<byte>, all: seq<byte>, d: seq<byte>, room: nat)
    ensures var k := Min(|all|, room);
            before + all[..k] + d[..Min(|d|, room - k)] == before + (all + d)[..Min(|all + d|, room)]
  {
  }
}
