/** Pipelined memcached requests: MemcacheRequest of net/brpc/memcache.cpp and the 24-byte header. */
module MemcacheRequest {
  import opened Basics
  import opened Bytes

  const MAGIC: byte := 0x80
  const FLUSH: byte := 0x08
  const VERSION: byte := 0x0b
  const TOUCH: byte := 0x1c

  const LIMIT: nat := 0x1_0000_0000

  /** One command as the protocol sees it. */
  datatype Command = Command(code: byte, extras: seq<byte>, key: seq<byte>, value: seq<byte>, cas: nat)

  function Size(c: Command): (n: nat) { |c.extras| + |c.key| + |c.value| }

  /** The header: lengths are cut down to the 16 and 32 bits of their fields. */
  function Header(code: byte, key: nat, extras: byte, body: nat, cas: nat): (s: seq<byte>)
    ensures |s| == 24
  {
    [MAGIC, code] + BE(key, 2) + [extras, 0] + BE(0, 2) + BE(body, 4) + BE(0, 4) + BE(cas, 8)
  }

  function Frame(c: Command): (s: seq<byte>)
    requires |c.extras| < 256
  {
    Header(c.code, |c.key|, |c.extras|, Size(c), c.cas) + (c.extras + c.key + c.value)
  }

  function BodyLength(s: seq<byte>): (n: nat)
    requires |s| >= 24
  {
    FromBE(s[8..12])
  }

  /** How many frames the bytes are, if they are nothing but whole frames. */
  function Parse(s: seq<byte>): (n: Option<nat>)
    decreases |s|
  {
    if s == [] then Some(0)
    else if |s| < 24 || s[0] != MAGIC || |s| < 24 + BodyLength(s) then None
    else More(Parse(s[24 + BodyLength(s)..]), 1)
  }

  function More(n: Option<nat>, k: nat): (r: Option<nat>) {
    if n.Some? then Some(n.value + k) else None
  }

  class Request {
    var buf: seq<byte>
    var count: nat

    /** The buffer is exactly as many frames as the request counts. */
    predicate Valid()
      reads this
    {
      Parse(buf) == Some(count)
    }

    constructor ()
      ensures Valid() && buf == [] && count == 0
    {
      buf, count := [], 0;
    }

    method Clear()
      modifies this
      ensures Valid() && buf == [] && count == 0
    {
      buf, count := [], 0;
    }

    method GetOrDelete(code: byte, key: seq<byte>)
      modifies this
      ensures buf == old(buf) + Frame(Command(code, [], key, [], 0)) && count == old(count) + 1
      ensures old(Valid()) ==> (Valid() <==> |key| < LIMIT)
    {
      hide Parse, BE, Header;
      ghost var c := Command(code, [], key, [], 0);
      Appended(buf, count, c);
      Regroup(buf, Header(code, |key|, 0, |key|, 0), [], key, []);
      buf := buf + Header(code, |key|, 0, |key|, 0);
      buf := buf + key;
      count := count + 1;
    }

    method Flush(timeout: nat)
      requires timeout < LIMIT
      modifies this
      ensures buf == old(buf) + Frame(Command(0x08, if timeout == 0 then [] else BE(timeout, 4), [], [], 0))
      ensures count == old(count) + 1 && (old(Valid()) ==> Valid())
    {
      var extras := if timeout == 0 then 0 else 4;
      ghost var c := Command(FLUSH, if timeout == 0 then [] else BE(timeout, 4), [], [], 0);
      Appended(buf, count, c);
      assert c.extras + [] + [] == c.extras;
      var header := Header(FLUSH, 0, extras, extras, 0);
      buf := buf + if extras == 0 then header else header + BE(timeout, 4);
      count := count + 1;
    }

    method Store(code: byte, key: seq<byte>, value: seq<byte>, flags: nat, exptime: nat, cas: nat)
      modifies this
      ensures buf == old(buf) + Frame(Command(code, BE(flags, 4) + BE(exptime, 4), key, value, cas))
      ensures count == old(count) + 1
      ensures old(Valid()) ==> (Valid() <==> 8 + |key| + |value| < LIMIT)
    {
      hide Parse, BE, Header;
      ghost var c := Command(code, BE(flags, 4) + BE(exptime, 4), key, value, cas);
      Appended(buf, count, c);
      Regroup(buf, Header(code, |key|, 8, 8 + |key| + |value|, cas), c.extras, key, value);
      buf := buf + (Header(code, |key|, 8, 8 + |key| + |value|, cas) + (BE(flags, 4) + BE(exptime, 4)));
      buf := buf + key;
      buf := buf + value;
      count := count + 1;
    }

    /** Append and Prepend refuse an empty value. */
    method StoreNonEmpty(code: byte, key: seq<byte>, value: seq<byte>, flags: nat, exptime: nat, cas: nat)
      returns (ok: bool)
      requires code == 0x0e || code == 0x0f  // Append, Prepend
      modifies this
      ensures ok <==> value != []
      ensures !ok ==> buf == old(buf) && count == old(count)
      ensures ok ==> buf == old(buf) + Frame(Command(code, BE(flags, 4) + BE(exptime, 4), key, value, cas))
      ensures ok ==> count == old(count) + 1
      ensures old(Valid()) ==> (Valid() <==> !ok || 8 + |key| + |value| < LIMIT)
    {
      if value == [] {
        return false;
      }
      Store(code, key, value, flags, exptime, cas);
      ok := true;
    }

    method Counter(code: byte, key: seq<byte>, delta: nat, initial: nat, exptime: nat)
      modifies this
      ensures buf == old(buf) + Frame(Command(code, BE(delta, 8) + BE(initial, 8) + BE(exptime, 4), key, [], 0))
      ensures count == old(count) + 1
      ensures old(Valid()) ==> (Valid() <==> 20 + |key| < LIMIT)
    {
      hide Parse, BE, Header;
      var extras := BE(delta, 8) + BE(initial, 8) + BE(exptime, 4);
      ghost var c := Command(code, extras, key, [], 0);
      Appended(buf, count, c);
      Regroup(buf, Header(code, |key|, 20, 20 + |key|, 0), extras, key, []);
      buf := buf + (Header(code, |key|, 20, 20 + |key|, 0) + extras);
      buf := buf + key;
      count := count + 1;
    }

    method Touch(key: seq<byte>, exptime: nat)
      modifies this
      ensures buf == old(buf) + Frame(Command(0x1c, BE(exptime, 4), key, [], 0)) && count == old(count) + 1
      ensures old(Valid()) ==> (Valid() <==> 4 + |key| < LIMIT)
    {
      hide Parse, BE, Header;
      ghost var c := Command(TOUCH, BE(exptime, 4), key, [], 0);
      Appended(buf, count, c);
      Regroup(buf, Header(TOUCH, |key|, 4, 4 + |key|, 0), c.extras, key, []);
      buf := buf + (Header(TOUCH, |key|, 4, 4 + |key|, 0) + BE(exptime, 4));
      buf := buf + key;
      count := count + 1;
    }

    method Version()
      modifies this
      ensures buf == old(buf) + Frame(Command(0x0b, [], [], [], 0)) && count == old(count) + 1
      ensures old(Valid()) ==> Valid()
    {
      hide Parse, BE, Header;
      Appended(buf, count, Command(VERSION, [], [], [], 0));
      assert buf + Header(VERSION, 0, 0, 0, 0) == buf + (Header(VERSION, 0, 0, 0, 0) + ([] + [] + []));
      buf := buf + Header(VERSION, 0, 0, 0, 0);
      count := count + 1;
    }

    method MergeFrom(from: Request)
      requires from != this
      modifies this
      ensures buf == old(buf) + from.buf && count == old(count) + from.count
      ensures old(Valid()) && from.Valid() ==> Valid()
    {
      ParseConcat(buf, from.buf);
      buf := buf + from.buf;
      count := count + from.count;
    }

    /** MergePartialFromCodedStream: takes the data if it is whole frames, and leaves all alone if not. */
    method MergePartial(data: seq<byte>) returns (ok: bool)
      modifies this
      ensures ok <==> Parse(data).Some?
      ensures ok ==> buf == old(buf) + data && count == old(count) + Parse(data).value
      ensures !ok ==> buf == old(buf) && count == old(count)
      ensures old(Valid()) ==> Valid()
    {
      var tmp := data;
      var n := 0;
      while tmp != []
        invariant Parse(data) == More(Parse(tmp), n)
        decreases |tmp|
      {
        if |tmp| < 24 || tmp[0] != MAGIC || |tmp| < 24 + BodyLength(tmp) {
          return false;
        }
        tmp := tmp[24 + BodyLength(tmp)..];
        n := n + 1;
      }
      ParseConcat(buf, data);
      buf := buf + data;
      count := count + n;
      ok := true;
    }
  }

  // ---- Framing ----

  lemma Regroup(buf: seq<byte>, header: seq<byte>, extras: seq<byte>, key: seq<byte>, value: seq<byte>)
    ensures buf + (header + extras) + key + value == buf + (header + (extras + key + value))
    ensures buf + (header + extras) + key == buf + (header + (extras + key + []))
    ensures buf + header + key == buf + (header + ([] + key + []))
  {
  }

  lemma {:induction false} ParseConcat(a: seq<byte>, b: seq<byte>)
    ensures Parse(a).Some? ==> Parse(a + b) == More(Parse(b), Parse(a).value)
    decreases |a|
  {
    hide FromBE;
    if a == [] {
      assert a + b == b;
    } else if Parse(a).Some? {
      var n := 24 + BodyLength(a);
      assert (a + b)[8..12] == a[8..12];
      assert (a + b)[n..] == a[n..] + b;
      ParseConcat(a[n..], b);
    }
  }

  /** A frame: the magic byte, and a header that announces the length of what follows it. */
  predicate Whole(f: seq<byte>) {
    |f| >= 24 && f[0] == 0x80 && |f| == 24 + FromBE(f[8..12])
  }

  function Joined(fs: seq<seq<byte>>): (s: seq<byte>) {
    if fs == [] then [] else fs[0] + Joined(fs[1..])
  }

  ghost predicate Splits(s: seq<byte>, n: nat) {
    exists fs: seq<seq<byte>> :: |fs| == n && (forall f <- fs :: Whole(f)) && Joined(fs) == s
  }

  lemma {:induction false} JoinedParses(fs: seq<seq<byte>>)
    requires forall f <- fs :: Whole(f)
    ensures Parse(Joined(fs)) == Some(|fs|)
  {
    if fs != [] {
      var f := fs[0];
      assert f in fs && Whole(f);
      JoinedParses(fs[1..]);
      assert f[|f|..] == [] && Parse([]) == Some(0);
      assert Parse(f) == Some(1);
      hide Parse, Whole;
      ParseConcat(f, Joined(fs[1..]));
    }
  }

  lemma {:induction false} ParsedSplits(s: seq<byte>) returns (fs: seq<seq<byte>>)
    requires Parse(s).Some?
    ensures |fs| == Parse(s).value && (forall f <- fs :: Whole(f)) && Joined(fs) == s
    decreases |s|
  {
    hide FromBE;
    if s == [] {
      fs := [];
    } else {
      var n := 24 + BodyLength(s);
      var gs := ParsedSplits(s[n..]);
      assert s[..n][8..12] == s[8..12];
      fs := [s[..n]] + gs;
      assert fs[1..] == gs;
    }
  }

  /** The bytes count as n frames exactly when they are n whole frames, one after another. */
  lemma ParsesIff(s: seq<byte>, n: nat)
    ensures Parse(s) == Some(n) <==> Splits(s, n)
  {
    hide Parse, Joined, Whole;
    if Splits(s, n) {
      var fs: seq<seq<byte>> :| |fs| == n && (forall f <- fs :: Whole(f)) && Joined(fs) == s;
      JoinedParses(fs);
    }
    if Parse(s) == Some(n) {
      var fs := ParsedSplits(s);
    }
  }

  lemma BodyField(c: Command, s: seq<byte>)
    requires |c.extras| < 256
    ensures var f := Frame(c) + s;
            |f| >= 24 && f[0] == 0x80 && f[8..12] == BE(Size(c), 4)
  {
    var f := Frame(c) + s;
    assert f[..24] == Header(c.code, |c.key|, |c.extras|, Size(c), c.cas);
    assert f[8..12] == f[..24][8..12];
  }

  /** One frame parses as one frame exactly when its body length fits the 32-bit field. */
  lemma FrameIsOneIff(c: Command)
    requires |c.extras| < 256
    ensures Parse(Frame(c)) == Some(1) <==> Size(c) < LIMIT
  {
    var f := Frame(c);
    BodyField(c, []);
    assert f + [] == f;
    Truncated(Size(c), 4);
    Widths();
    hide BE, Header;
    if Size(c) < LIMIT {
      assert BodyLength(f) == Size(c) && f[24 + Size(c)..] == [];
      assert Parse([]) == Some(0);
    } else {
      assert BodyLength(f) < LIMIT && |f| > 24 + BodyLength(f);
      NotEmpty(f[24 + BodyLength(f)..]);
    }
  }

  lemma NotEmpty(s: seq<byte>)
    requires s != []
    ensures Parse(s) != Some(0)
  {
  }

  /** A length field holds its length exactly when it fits. */
  lemma Truncated(v: nat, w: nat)
    ensures FromBE(BE(v, w)) < Pow256(w) && (v < Pow256(w) ==> FromBE(BE(v, w)) == v)
  {
    FromBEBounded(BE(v, w));
    if v < Pow256(w) {
      BERoundTrip(v, w);
    }
  }

  /** One more frame is counted as one more exactly when its body length fits. */
  lemma Appended(s: seq<byte>, n: nat, c: Command)
    requires |c.extras| < 256
    ensures Parse(s) == Some(n) ==> (Parse(s + Frame(c)) == Some(n + 1) <==> Size(c) < LIMIT)
  {
    hide Parse, Frame;
    ParseConcat(s, Frame(c));
    FrameIsOneIff(c);
  }

  // ---- What a server reads ----

  /** A command read off the front by the layout of the memcached binary protocol. */
  function ReadCommand(s: seq<byte>): (r: Option<(Command, seq<byte>)>)
    ensures r.Some? ==> |r.value.1| < |s|
  {
    if |s| < 24 || s[0] != 0x80 || |s| < 24 + BodyLength(s) then None
    else
      var extras, key, body := s[4], FromBE(s[2..4]), BodyLength(s);
      if extras + key > body then None
      else
        var k, v := 24 + extras, 24 + extras + key;
        Some((Command(s[1], s[24..k], s[k..v], s[v..24 + body], FromBE(s[16..24])), s[24 + body..]))
  }

  function ReadAll(s: seq<byte>): (r: Option<seq<Command>>)
    decreases |s|
  {
    if s == [] then Some([])
    else match ReadCommand(s)
      case None => None
      case Some((c, rest)) =>
        match ReadAll(rest)
        case None => None
        case Some(cs) => Some([c] + cs)
  }

  function Frames(cs: seq<Command>): (s: seq<byte>)
    requires forall k :: 0 <= k < |cs| ==> Sendable(cs[k])
  {
    if cs == [] then [] else assert Sendable(cs[0]); Frame(cs[0]) + Frames(cs[1..])
  }

  lemma HeaderFields(c: Command, s: seq<byte>)
    requires |c.extras| < 256
    ensures var f := Frame(c) + s;
            && |f| >= 24 && f[0] == 0x80 && f[1] == c.code && f[4] == |c.extras|
            && f[2..4] == BE(|c.key|, 2) && f[16..24] == BE(c.cas, 8)
  {
    var h := Header(c.code, |c.key|, |c.extras|, Size(c), c.cas);
    var f := Frame(c) + s;
    assert f[..24] == h;
    assert h[2..4] == BE(|c.key|, 2) && h[16..24] == BE(c.cas, 8);
    assert f[2..4] == f[..24][2..4] && f[16..24] == f[..24][16..24];
  }

  lemma BodyParts(c: Command, s: seq<byte>)
    requires |c.extras| < 256
    ensures var f := Frame(c) + s;
            var k, v, e := 24 + |c.extras|, 24 + |c.extras| + |c.key|, 24 + Size(c);
            && |f| >= e && f[24..k] == c.extras && f[k..v] == c.key && f[v..e] == c.value && f[e..] == s
  {
  }

  predicate Sendable(c: Command) {
    |c.extras| < 256 && Size(c) < LIMIT && c.cas < Pow256(8)
  }

  /** A server reads back the command sent exactly when its key fits the 16-bit length field. */
  lemma CommandRoundTripIff(c: Command, s: seq<byte>)
    requires Sendable(c)
    ensures ReadCommand(Frame(c) + s) == Some((c, s)) <==> |c.key| < 0x1_0000
  {
    HeaderFields(c, s);
    BodyField(c, s);
    BodyParts(c, s);
    Truncated(|c.key|, 2);
    Truncated(Size(c), 4);
    Truncated(c.cas, 8);
    Widths();
    hide Frame, BE, Pow256, FromBE, Size;
    ReadsIff(Frame(c) + s, c, s);
  }

  /** The same for any bytes with the fields and the parts of the command at their places. */
  lemma ReadsIff(f: seq<byte>, c: Command, s: seq<byte>)
    requires |f| >= 24 && f[0] == 0x80 && f[1] == c.code && f[4] == |c.extras| && FromBE(f[16..24]) == c.cas
    requires BodyLength(f) == Size(c) && FromBE(f[2..4]) < 0x1_0000
    requires |c.key| < 0x1_0000 ==> FromBE(f[2..4]) == |c.key|
    requires var k, v, e := 24 + |c.extras|, 24 + |c.extras| + |c.key|, 24 + Size(c);
             |f| >= e && f[24..k] == c.extras && f[k..v] == c.key && f[v..e] == c.value && f[e..] == s
    ensures ReadCommand(f) == Some((c, s)) <==> |c.key| < 0x1_0000
  {
    hide FromBE;
  }

  /** A pipeline of commands reads back as the same commands in the same order. */
  lemma {:induction false} PipelineRoundTrip(cs: seq<Command>)
    requires forall k :: 0 <= k < |cs| ==> Sendable(cs[k])
    requires forall k :: 0 <= k < |cs| ==> |cs[k].key| < 0x1_0000
    ensures ReadAll(Frames(cs)) == Some(cs)
  {
    if cs != [] {
      hide Frame, ReadCommand, Sendable;
      var c, rest := cs[0], Frames(cs[1..]);
      PipelineRoundTrip(cs[1..]);
      CommandRoundTripIff(c, rest);
      FrameNotEmpty(c);
      assert cs == [c] + cs[1..];
    }
  }

  lemma {:induction false} PipelineCounts(cs: seq<Command>)
    requires forall k :: 0 <= k < |cs| ==> Sendable(cs[k])
    ensures Parse(Frames(cs)) == Some(|cs|)
  {
    if cs != [] {
      assert Sendable(cs[0]);
      hide Frame, Parse, Sendable;
      PipelineCounts(cs[1..]);
      FrameIsOneIff(cs[0]);
      ParseConcat(Frame(cs[0]), Frames(cs[1..]));
    }
  }

  lemma FrameNotEmpty(c: Command)
    requires Sendable(c)
    ensures |Frame(c)| >= 24
  {
  }
}
