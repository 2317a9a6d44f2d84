/** Popping pipelined memcached responses: MemcacheResponse of net/brpc/memcache.cpp. */
module MemcacheResponse {
  import opened Basics
  import opened Bytes

  const GET: byte := 0x00
  const VERSION: byte := 0x0b

  /** A response as the parser hands it over, its integers already in host order. */
  datatype Response = Response(
    command: byte, status: nat, extras: seq<byte>, key: seq<byte>, value: seq<byte>, cas: nat)

  function Size(r: Response): (n: nat) { |r.extras| + |r.key| + |r.value| }

  /** Little-endian host integers. */
  function Host(v: nat, w: nat): (s: seq<byte>)
    ensures |s| == w
  {
    if w == 0 then [] else [v % 256] + Host(v / 256, w - 1)
  }

  function FromHost(s: seq<byte>): (v: nat) {
    if s == [] then 0 else s[0] + 256 * FromHost(s[1..])
  }

  lemma {:induction false} HostRoundTrip(v: nat, w: nat)
    requires v < Pow256(w)
    ensures FromHost(Host(v, w)) == v
  {
    if w > 0 {
      HostRoundTrip(v / 256, w - 1);
      assert Host(v, w)[1..] == Host(v / 256, w - 1);
    }
  }

  function Header(r: Response): (s: seq<byte>)
    requires |r.extras| < 256
    ensures |s| == 24
  {
    [0x81, r.command] + Host(|r.key|, 2) + [|r.extras|, 0] + Host(r.status, 2) + Host(Size(r), 4)
    + Host(0, 4) + Host(r.cas, 8)
  }

  function Frame(r: Response): (s: seq<byte>)
    requires |r.extras| < 256
  {
    Header(r) + (r.extras + r.key + r.value)
  }

  // ---- The fields a pop looks at ----

  datatype Head = Head(command: byte, key: nat, extras: nat, status: nat, body: nat, cas: nat)

  function ReadHead(s: seq<byte>): (h: Head)
    requires |s| >= 24
  {
    Head(s[1], FromHost(s[2..4]), s[4], FromHost(s[6..8]), FromHost(s[8..12]), FromHost(s[16..24]))
  }

  /** What is left for the value, in the 32-bit signed arithmetic of the pops. */
  function ValueSize(h: Head): (n: int) {
    (if h.body < 0x8000_0000 then h.body else h.body - 0x1_0000_0000) - h.extras - h.key
  }

  function Drop(s: seq<byte>, n: nat): (r: seq<byte>) { s[Min(n, |s|)..] }

  /** What cutn takes; a negative count turns into a huge unsigned one. */
  function Take(s: seq<byte>, n: int): (r: seq<byte>)
    ensures r <= s
  {
    if n < 0 then s else s[..Min(n, |s|)]
  }

  datatype Error = Clear | Printed | Server(text: seq<byte>)

  /** What a pop leaves in the buffer, what it reports and what it hands out. */
  datatype Outcome = Outcome(rest: seq<byte>, err: Error, ok: bool, payload: seq<byte>, cas: nat)

  function Refuse(rest: seq<byte>): (o: Outcome) { Outcome(rest, Printed, false, [], 0) }

  /** Drops a prefix, then cuts n bytes out as the server's error text. */
  function Fail(s: seq<byte>, skip: nat, n: int): (o: Outcome) {
    var t := Drop(s, skip);
    Outcome(t[|Take(t, n)|..], Server(Take(t, n)), false, [], 0)
  }

  predicate Complete(s: seq<byte>, command: byte) {
    |s| >= 24 && ReadHead(s).command == command && |s| >= 24 + ReadHead(s).body
  }

  /** The payload of a get is the four bytes of flags and the value. */
  function Got(s: seq<byte>, wanted: bool): (o: Outcome) {
    if !Complete(s, GET) then Refuse(s)
    else
      var h := ReadHead(s);
      var n := ValueSize(h);
      if h.status != 0 then (if n < 0 then Refuse(s) else Fail(s, 24 + h.extras + h.key, n))
      else if h.extras != 4 || h.key != 0 || n < 0 then Refuse(s)
      else
        var t := Drop(s, 28);
        var v := if wanted then Take(t, n) else [];
        Outcome(t[|v|..], Clear, true, Take(Drop(s, 24), 4) + v, h.cas)
  }

  function Stored(s: seq<byte>, command: byte): (o: Outcome) {
    if !Complete(s, command) then Refuse(s)
    else
      var h := ReadHead(s);
      if h.status != 0 then Fail(s, 24 + h.extras + h.key, ValueSize(h))
      else Outcome(Drop(s, 24 + h.body), Clear, true, [], h.cas)
  }

  function Counted(s: seq<byte>, command: byte): (o: Outcome) {
    if !Complete(s, command) then Refuse(s)
    else
      var h := ReadHead(s);
      var n := ValueSize(h);
      var skip := 24 + h.extras + h.key;
      if h.status != 0 then (if n < 0 then Refuse(Drop(s, skip)) else Fail(s, skip, n))
      else if n != 8 then Refuse(Drop(s, skip))
      else
        var t := Drop(s, skip);
        Outcome(t[|Take(t, 8)|..], Clear, true, Take(t, 8), h.cas)
  }

  function Versioned(s: seq<byte>, wanted: bool): (o: Outcome) {
    if !Complete(s, VERSION) then Refuse(s)
    else
      var h := ReadHead(s);
      var n := ValueSize(h);
      var skip := 24 + h.extras + h.key;
      if n < 0 then Refuse(Drop(s, skip))
      else if h.status != 0 then Fail(s, skip, n)
      else
        var t := Drop(s, skip);
        var v := if wanted then Take(t, n) else [];
        Outcome(t[|v|..], Clear, true, v, 0)
  }

  class Responses {
    var buf: seq<byte>
    var err: Error

    constructor (frames: seq<byte>)
      ensures buf == frames && err == Clear
    {
      buf, err := frames, Clear;
    }

    method PopFront(n: nat)
      modifies `buf
      ensures buf == Drop(old(buf), n)
    {
      buf := buf[Min(n, |buf|)..];
    }

    method CutN(n: int) returns (out: seq<byte>)
      modifies `buf
      ensures out == Take(old(buf), n) && buf == old(buf)[|out|..]
    {
      var k := if n < 0 then |buf| else Min(n, |buf|);
      out := buf[..k];
      buf := buf[k..];
    }

    method PopGet(wanted: bool) returns (ok: bool, flags: nat, value: seq<byte>, cas: nat)
      modifies this
      ensures var o := Got(old(buf), wanted);
              && buf == o.rest && err == o.err && ok == o.ok
              && (ok ==> flags == FromBE(Take(o.payload, 4)) && value == Drop(o.payload, 4) && cas == o.cas)
    {
      hide ReadHead, FromBE, Take, Drop;
      flags, value, cas := 0, [], 0;
      if |buf| < 24 {
        err := Printed;
        return false, 0, [], 0;
      }
      var h := ReadHead(buf);
      if h.command != GET || |buf| < 24 + h.body {
        err := Printed;
        return false, 0, [], 0;
      }
      var n := ValueSize(h);
      if h.status != 0 {
        if n < 0 {
          err := Printed;
          return false, 0, [], 0;
        }
        PopFront(24 + h.extras + h.key);
        var text := CutN(n);
        err := Server(text);
        return false, 0, [], 0;
      }
      if h.extras != 4 || h.key != 0 || n < 0 {
        err := Printed;
        return false, 0, [], 0;
      }
      ghost var s := buf;
      PopFront(24);
      var raw := CutN(4);
      flags := FromBE(raw);
      CutFour(s);
      if wanted {
        value := CutN(n);
      }
      Rejoin(raw, value);
      cas := h.cas;
      err := Clear;
      ok := true;
    }

    method PopStore(command: byte) returns (ok: bool, cas: nat)
      modifies this
      ensures var o := Stored(old(buf), command);
              buf == o.rest && err == o.err && ok == o.ok && (ok ==> cas == o.cas)
    {
      hide ReadHead, ValueSize, Take, Drop;
      if |buf| < 24 {
        err := Printed;
        return false, 0;
      }
      var h := ReadHead(buf);
      if h.command != command || |buf| < 24 + h.body {
        err := Printed;
        return false, 0;
      }
      var n := ValueSize(h);
      if h.status != 0 {
        PopFront(24 + h.extras + h.key);
        var text := CutN(n);
        err := Server(text);
        return false, 0;
      }
      PopFront(24 + h.body);
      err := Clear;
      return true, h.cas;
    }

    method PopCounter(command: byte) returns (ok: bool, value: nat, cas: nat)
      modifies this
      ensures var o := Counted(old(buf), command);
              buf == o.rest && err == o.err && ok == o.ok && (ok ==> value == FromBE(o.payload) && cas == o.cas)
    {
      hide ReadHead, ValueSize, FromBE, Take, Drop;
      if |buf| < 24 {
        err := Printed;
        return false, 0, 0;
      }
      var h := ReadHead(buf);
      if h.command != command || |buf| < 24 + h.body {
        err := Printed;
        return false, 0, 0;
      }
      var n := ValueSize(h);
      PopFront(24 + h.extras + h.key);
      if h.status != 0 {
        if n < 0 {
          err := Printed;
        } else {
          var text := CutN(n);
          err := Server(text);
        }
        return false, 0, 0;
      }
      if n != 8 {
        err := Printed;
        return false, 0, 0;
      }
      var raw := CutN(8);
      err := Clear;
      return true, FromBE(raw), h.cas;
    }

    method PopVersion(wanted: bool) returns (ok: bool, version: seq<byte>)
      modifies this
      ensures var o := Versioned(old(buf), wanted);
              buf == o.rest && err == o.err && ok == o.ok && (ok ==> version == o.payload)
    {
      hide ReadHead, ValueSize, Take, Drop;
      version := [];
      if |buf| < 24 {
        err := Printed;
        return false, [];
      }
      var h := ReadHead(buf);
      if h.command != VERSION || |buf| < 24 + h.body {
        err := Printed;
        return false, [];
      }
      var n := ValueSize(h);
      PopFront(24 + h.extras + h.key);
      if n < 0 {
        err := Printed;
        return false, [];
      }
      if h.status != 0 {
        var text := CutN(n);
        err := Server(text);
        return false, [];
      }
      if wanted {
        version := CutN(n);
      }
      err := Clear;
      ok := true;
    }
  }

  // ---- One pop, one frame ----

  /** The response fits its header fields. */
  predicate Fits(r: Response) {
    && |r.extras| < 256 && |r.key| < 0x1_0000 && r.status < 0x1_0000
    && Size(r) < 0x1_0000_0000 && r.cas < 0x1_0000_0000_0000_0000
  }

  /** Its body also fits the signed arithmetic of the pops. */
  predicate Small(r: Response) { Size(r) < 0x8000_0000 }

  lemma HeaderFields(r: Response, s: seq<byte>)
    requires |r.extras| < 256
    ensures var f := Frame(r) + s;
            && |f| >= 24 && f[1] == r.command && f[2..4] == Host(|r.key|, 2) && f[4] == |r.extras|
            && f[6..8] == Host(r.status, 2) && f[8..12] == Host(Size(r), 4) && f[16..24] == Host(r.cas, 8)
  {
    hide Host;
    var f, h := Frame(r) + s, Header(r);
    assert f[..24] == h;
    assert f[2..4] == f[..24][2..4] && f[6..8] == f[..24][6..8];
    assert f[8..12] == f[..24][8..12] && f[16..24] == f[..24][16..24];
  }

  lemma ReadsHead(r: Response, s: seq<byte>)
    requires Fits(r)
    ensures |Frame(r) + s| >= 24 + Size(r)
    ensures ReadHead(Frame(r) + s) == Head(r.command, |r.key|, |r.extras|, r.status, Size(r), r.cas)
  {
    Widths();
    HeaderFields(r, s);
    HostRoundTrip(|r.key|, 2);
    HostRoundTrip(r.status, 2);
    HostRoundTrip(Size(r), 4);
    HostRoundTrip(r.cas, 8);
    hide Host, FromHost, Header, Pow256;
  }

  /** Dropping header, extras and key leaves the value and what follows it. */
  lemma BodyParts(r: Response, s: seq<byte>)
    requires |r.extras| < 256
    ensures var f := Frame(r) + s;
            && Drop(f, 24 + |r.extras| + |r.key|) == r.value + s
            && Drop(f, 24 + Size(r)) == s
            && Take(Drop(f, 24), |r.extras|) == r.extras
  {
    hide Header;
    var f := Frame(r) + s;
    assert f == Header(r) + (r.extras + (r.key + (r.value + s)));
  }

  lemma Cut(a: seq<byte>, s: seq<byte>)
    ensures Take(a + s, |a|) == a && (a + s)[|a|..] == s
  {
  }

  lemma CutFour(s: seq<byte>)
    requires |s| >= 28
    ensures var raw := Take(Drop(s, 24), 4); |raw| == 4 && |Drop(s, 24)| >= 4 && Drop(s, 24)[4..] == Drop(s, 28)
  {
  }

  lemma Rejoin(raw: seq<byte>, value: seq<byte>)
    requires |raw| == 4
    ensures Take(raw + value, 4) == raw && Drop(raw + value, 4) == value
  {
  }

  datatype Pop = Get | Store(command: byte) | Counter(command: byte) | Version

  function Apply(p: Pop, s: seq<byte>): (o: Outcome) {
    match p
    case Get => Got(s, true)
    case Store(command) => Stored(s, command)
    case Counter(command) => Counted(s, command)
    case Version => Versioned(s, true)
  }

  /**
    The response a pop is meant for: its command, and on success the parts the protocol prescribes.
    With a body too large for signed arithmetic only a store can be popped, and one that failed only
    if nothing follows it.
  */
  predicate Answered(p: Pop, r: Response, s: seq<byte>) {
    && (Small(r) || (p.Store? && (r.status == 0 || s == [])))
    && match p
       case Get => r.command == GET && (r.status == 0 ==> |r.extras| == 4 && r.key == [])
       case Store(command) => r.command == command
       case Counter(command) => r.command == command && (r.status == 0 ==> |r.value| == 8)
       case Version => r.command == VERSION
  }

  function Payload(p: Pop, r: Response): (s: seq<byte>) {
    match p
    case Get => r.extras + r.value
    case Store(_) => []
    case Counter(_) => r.value
    case Version => r.value
  }

  /** What popping a response should come to: its payload, or the server's words, and the rest. */
  function Ideal(p: Pop, r: Response, s: seq<byte>): (o: Outcome) {
    if r.status == 0 then Outcome(s, Clear, true, Payload(p, r), if p.Version? then 0 else r.cas)
    else Outcome(s, Server(r.value), false, [], 0)
  }

  /** Popping a response, whatever follows it, comes to what it should if and only if the two fit. */
  lemma PopsOneFrameIff(p: Pop, r: Response, s: seq<byte>)
    requires Fits(r)
    ensures Apply(p, Frame(r) + s) == Ideal(p, r, s) <==> Answered(p, r, s)
  {
    FrameBegins(r, s);
    hide Frame, Begins, Apply, Ideal, Answered;
    if r.status == 0 {
      PopsSuccess(p, Frame(r) + s, r, s);
    } else {
      PopsFailure(p, Frame(r) + s, r, s);
    }
  }

  /** What both lemmas below need to know about the bytes of a frame. */
  ghost predicate Begins(f: seq<byte>, r: Response, s: seq<byte>) {
    && |f| >= 24 + Size(r)
    && ReadHead(f) == Head(r.command, |r.key|, |r.extras|, r.status, Size(r), r.cas)
    && Drop(f, 24 + |r.extras| + |r.key|) == r.value + s
    && Drop(f, 24 + Size(r)) == s && Take(Drop(f, 24), |r.extras|) == r.extras
  }

  lemma FrameBegins(r: Response, s: seq<byte>)
    requires Fits(r)
    ensures Begins(Frame(r) + s, r, s)
  {
    hide Frame, ReadHead, Take, Drop;
    ReadsHead(r, s);
    BodyParts(r, s);
  }

  lemma PopsSuccess(p: Pop, f: seq<byte>, r: Response, s: seq<byte>)
    requires Fits(r) && r.status == 0 && Begins(f, r, s)
    ensures Apply(p, f) == Ideal(p, r, s) <==> Answered(p, r, s)
  {
    hide ReadHead, Take, Drop;
    Cut(r.value, s);
  }

  lemma PopsFailure(p: Pop, f: seq<byte>, r: Response, s: seq<byte>)
    requires Fits(r) && r.status != 0 && Begins(f, r, s)
    ensures Apply(p, f) == Ideal(p, r, s) <==> Answered(p, r, s)
  {
    hide ReadHead, Take, Drop;
    Cut(r.value, s);
    if !Small(r) {
      TakeAll(r.value, s);
    }
  }

  /** A huge count takes everything. */
  lemma TakeAll(a: seq<byte>, s: seq<byte>)
    ensures forall n: int :: n < 0 ==> Take(a + s, n) == a + s
    ensures (a + s)[|a + s|..] == [] && (a + s == a <==> s == [])
  {
    assert |a + s| == |a| + |s|;
    assert a + [] == a;
  }

  /** When a pop takes a frame of any shape: its own command, and on success the parts it insists on. */
  predicate Takes(p: Pop, r: Response, s: seq<byte>) {
    && (Small(r) || (p.Store? && (r.status == 0 || s == [])))
    && match p
       case Get => r.command == GET && (r.status != 0 || (|r.extras| == 4 && r.key == []))
       case Store(command) => r.command == command
       case Counter(command) => r.command == command && (r.status != 0 || |r.value| == 8 || r.value == [])
       case Version => r.command == VERSION
  }

  /** Whatever response is in front, a pop takes exactly its frame if and only if the two fit. */
  lemma TakesFrameIff(p: Pop, r: Response, s: seq<byte>)
    requires Fits(r)
    ensures Apply(p, Frame(r) + s).rest == s <==> Takes(p, r, s)
  {
    var f := Frame(r) + s;
    FrameBegins(r, s);
    hide Frame, Begins, Apply, Takes;
    assert |f| > |s| by { assert |Frame(r)| > 0 by { FrameLength(r); } }
    if r.status != 0 {
      TakesFailure(p, f, r, s);
    } else {
      TakesSuccess(p, f, r, s);
    }
  }

  lemma FrameLength(r: Response)
    requires |r.extras| < 256
    ensures |Frame(r)| == 24 + Size(r)
  {
  }

  lemma TakesSuccess(p: Pop, f: seq<byte>, r: Response, s: seq<byte>)
    requires Fits(r) && r.status == 0 && Begins(f, r, s) && |f| > |s|
    ensures Apply(p, f).rest == s <==> Takes(p, r, s)
  {
    hide ReadHead, Take, Drop;
    Cut(r.value, s);
    Longer(r.value, s);
  }

  lemma TakesFailure(p: Pop, f: seq<byte>, r: Response, s: seq<byte>)
    requires Fits(r) && r.status != 0 && Begins(f, r, s) && |f| > |s|
    ensures Apply(p, f).rest == s <==> Takes(p, r, s)
  {
    hide ReadHead, Take, Drop;
    Cut(r.value, s);
    if !Small(r) {
      TakeAll(r.value, s);
    }
  }

  lemma Longer(a: seq<byte>, s: seq<byte>)
    ensures a + s == s <==> a == []
  {
    assert |a + s| == |a| + |s|;
  }

  /** A version popped without asking for it leaves it in front of the next response. */
  lemma VersionWithoutValueIff(r: Response, s: seq<byte>)
    requires Fits(r) && r.command == VERSION
    ensures Versioned(Frame(r) + s, false).rest == s <==> (Small(r) && r.status != 0) || r.value == []
  {
    FrameBegins(r, s);
    Cut(r.value, s);
    Longer(r.value, s);
    hide Frame, ReadHead, Take, Drop;
  }

  /** A get popped without asking for the value leaves the value in front of the next response. */
  lemma GetWithoutValueIff(r: Response, s: seq<byte>)
    requires Fits(r) && r.command == GET && r.status == 0 && |r.extras| == 4 && r.key == []
    ensures Small(r) ==> Got(Frame(r) + s, false).ok && Got(Frame(r) + s, false).rest == r.value + s
    ensures Got(Frame(r) + s, false).rest == s <==> r.value == []
  {
    FrameBegins(r, s);
    FrameLength(r);
    assert |Frame(r) + s| > |s|;
    Longer(r.value, s);
    hide Frame, ReadHead, Take, Drop;
  }

  /** A counter whose value is not eight bytes is refused, and its value stays in the buffer. */
  lemma OddCounterSticks(r: Response, command: byte, s: seq<byte>)
    requires Fits(r) && r.command == command && r.status == 0 && |r.value| != 8
    ensures var o := Counted(Frame(r) + s, command);
            !o.ok && o.err == Printed && o.rest == r.value + s
  {
    FrameBegins(r, s);
    hide Frame, ReadHead, Take, Drop;
  }

  // ---- Everything a pop can find in front ----

  /** The opcode a pop looks for. */
  function Wanted(p: Pop): (command: byte) {
    match p
    case Get => 0x00
    case Store(command) => command
    case Counter(command) => command
    case Version => 0x0b
  }

  function Little(a: nat, b: nat, c: nat, d: nat): (n: nat) {
    a + 0x100 * b + 0x1_0000 * c + 0x100_0000 * d
  }

  /** The length of the body, from its four bytes in the header. */
  function Announced(s: seq<byte>): (n: nat)
    requires |s| >= 24
  {
    Little(s[8], s[9], s[10], s[11])
  }

  /** The lengths of the extras and the key together. */
  function Prefix(s: seq<byte>): (n: nat)
    requires |s| >= 24
  {
    s[4] as nat + Little(s[2], s[3], 0, 0)
  }

  lemma {:induction false} HostBytes(s: seq<byte>)
    ensures |s| == 2 ==> FromHost(s) == Little(s[0], s[1], 0, 0)
    ensures |s| == 4 ==> FromHost(s) == Little(s[0], s[1], s[2], s[3])
  {
    if |s| == 2 || |s| == 4 {
      assert FromHost(s[1..]) == s[1] + 256 * FromHost(s[2..]) by { assert s[1..][1..] == s[2..]; }
      if |s| == 4 {
        HostBytes(s[2..]);
      }
    }
  }

  lemma HeadBytes(s: seq<byte>)
    requires |s| >= 24
    ensures var h := ReadHead(s);
            && h.command == s[1] && h.body == Announced(s) < 0x1_0000_0000
            && h.extras + h.key == Prefix(s) && (h.status == 0 <==> s[6] == 0 && s[7] == 0)
  {
    HostBytes(s[2..4]);
    HostBytes(s[6..8]);
    HostBytes(s[8..12]);
    hide FromHost;
  }

  /** A header cut short, another command or a body cut short is refused, and nothing is taken. */
  lemma RefusesUnlessArrived(p: Pop, s: seq<byte>)
    requires |s| < 24 || s[1] != Wanted(p) || |s| < 24 + Announced(s)
    ensures var o := Apply(p, s); !o.ok && o.err == Printed && o.rest == s
    ensures p == Get ==> var o := Got(s, false); !o.ok && o.err == Printed && o.rest == s
    ensures p == Version ==> var o := Versioned(s, false); !o.ok && o.err == Printed && o.rest == s
  {
    if |s| >= 24 {
      HeadBytes(s);
    }
    hide ReadHead;
  }

  /** Which responses a pop reports as a success. */
  predicate Succeeds(p: Pop, r: Response) {
    && r.command == Wanted(p) && r.status == 0
    && match p
       case Get => Small(r) && |r.extras| == 4 && r.key == []
       case Store(_) => true
       case Counter(_) => Small(r) && |r.value| == 8
       case Version => Small(r)
  }

  /**
    What a pop should make of any response.  A success clears the error; a failed response of moderate size
    hands over the server's words; a failed store of 2 GB takes all that follows for words; anything else is
    refused, a get or another command with nothing taken, a counter or a version with its value left in front.
  */
  predicate Accounted(o: Outcome, p: Pop, f: seq<byte>, r: Response, s: seq<byte>) {
    && (o.ok <==> Succeeds(p, r))
    && if r.command != Wanted(p) then o.err == Printed && o.rest == f
       else if Succeeds(p, r) then o.err == Clear && o.rest == s
       else if r.status != 0 && Small(r) then o.err == Server(r.value) && o.rest == s
       else if r.status != 0 && p.Store? then o.err == Server(r.value + s) && o.rest == []
       else o.err == Printed && o.rest == if p.Get? then f else r.value + s
  }

  lemma PopsAnyFrame(p: Pop, r: Response, s: seq<byte>)
    requires Fits(r)
    ensures Accounted(Apply(p, Frame(r) + s), p, Frame(r) + s, r, s)
  {
    FrameBegins(r, s);
    hide Frame, Begins, Apply, Accounted;
    if r.status == 0 {
      AccountsSuccess(p, Frame(r) + s, r, s);
    } else {
      AccountsFailure(p, Frame(r) + s, r, s);
    }
  }

  lemma AccountsSuccess(p: Pop, f: seq<byte>, r: Response, s: seq<byte>)
    requires Fits(r) && r.status == 0 && Begins(f, r, s)
    ensures Accounted(Apply(p, f), p, f, r, s)
  {
    hide ReadHead, Take, Drop;
    Cut(r.value, s);
  }

  lemma AccountsFailure(p: Pop, f: seq<byte>, r: Response, s: seq<byte>)
    requires Fits(r) && r.status != 0 && Begins(f, r, s)
    ensures Accounted(Apply(p, f), p, f, r, s)
  {
    hide ReadHead, Take, Drop;
    Cut(r.value, s);
    TakeAll(r.value, s);
  }

  /**
    A header whose extras and key are longer than its body.  Only a store can succeed on it, and goes by the
    length of the body; one that failed takes all that is left for words; the others are refused.
  */
  lemma PopsOverlongHead(p: Pop, s: seq<byte>)
    requires |s| >= 24 && |s| >= 24 + Announced(s) && s[1] == Wanted(p) && Prefix(s) > Announced(s)
    ensures var o, left := Apply(p, s), s[Min(|s|, 24 + Prefix(s))..];
            var failed := s[6] != 0 || s[7] != 0;
            && (o.ok <==> p.Store? && !failed)
            && (o.ok ==> o.err == Clear && o.rest == s[24 + Announced(s)..])
            && (p.Store? && failed ==> o.err == Server(left) && o.rest == [])
            && (!p.Store? ==> o.err == Printed && o.rest == if p.Get? then s else left)
  {
    HeadBytes(s);
    hide ReadHead, Announced, Prefix;
    var h := ReadHead(s);
    assert Drop(s, 24 + h.extras + h.key) == s[Min(|s|, 24 + Prefix(s))..];
    assert Take(Drop(s, 24 + h.extras + h.key), ValueSize(h)) == Drop(s, 24 + h.extras + h.key);
  }

  // ---- A pipeline of responses ----

  predicate AllFit(rs: seq<Response>) {
    forall k :: 0 <= k < |rs| ==> Fits(rs[k])
  }

  function Frames(rs: seq<Response>): (s: seq<byte>)
    requires AllFit(rs)
  {
    if rs == [] then []
    else assert Fits(rs[0]); Frame(rs[0]) + Frames(rs[1..])
  }

  /** Every pop fits the response at its place in the pipeline. */
  predicate AllAnswered(ps: seq<Pop>, rs: seq<Response>)
    requires |ps| == |rs| && AllFit(rs)
  {
    ps == [] || (Answered(ps[0], rs[0], Frames(rs[1..])) && AllAnswered(ps[1..], rs[1..]))
  }

  /** All the pops, one after another. */
  function Drain(ps: seq<Pop>, s: seq<byte>): (os: seq<Outcome>)
    ensures |os| == |ps|
    decreases |ps|
  {
    if ps == [] then []
    else
      var o := Apply(ps[0], s);
      [o] + Drain(ps[1..], o.rest)
  }

  /** Pop k comes to what it should, leaving just the frames after its own. */
  predicate Right(ps: seq<Pop>, rs: seq<Response>, k: nat)
    requires |ps| == |rs| && AllFit(rs) && k < |ps|
  {
    Drain(ps, Frames(rs))[k] == Ideal(ps[k], rs[k], Frames(rs[k + 1..]))
  }

  /** The pops of a pipeline all come to what they should if and only if each fits its response. */
  lemma {:induction false} DrainsInOrderIff(ps: seq<Pop>, rs: seq<Response>)
    requires |ps| == |rs| && AllFit(rs)
    ensures (forall k :: 0 <= k < |ps| ==> Right(ps, rs, k)) <==> AllAnswered(ps, rs)
    decreases |ps|
  {
    if ps != [] {
      assert Right(ps, rs, 0) <==> Answered(ps[0], rs[0], Frames(rs[1..])) by { FirstRightIff(ps, rs); }
      if Right(ps, rs, 0) {
        DrainsInOrderIff(ps[1..], rs[1..]);
        forall k | 0 < k < |ps| ensures Right(ps, rs, k) <==> Right(ps[1..], rs[1..], k - 1) {
          LaterRightIff(ps, rs, k);
        }
        hide Right;
        if !AllAnswered(ps[1..], rs[1..]) {
          var j :| 0 <= j < |ps| - 1 && !Right(ps[1..], rs[1..], j);
          assert !Right(ps, rs, j + 1);
        }
      }
    }
  }

  lemma FirstRightIff(ps: seq<Pop>, rs: seq<Response>)
    requires |ps| == |rs| > 0 && AllFit(rs)
    ensures Right(ps, rs, 0) <==> Answered(ps[0], rs[0], Frames(rs[1..]))
  {
    hide Apply, Frame, Ideal, Answered, Fits;
    PopsOneFrameIff(ps[0], rs[0], Frames(rs[1..]));
  }

  lemma LaterRightIff(ps: seq<Pop>, rs: seq<Response>, k: nat)
    requires |ps| == |rs| && AllFit(rs) && 0 < k < |ps| && Right(ps, rs, 0)
    ensures Right(ps, rs, k) <==> Right(ps[1..], rs[1..], k - 1)
  {
    hide Apply, Frame, Ideal, Fits;
    var rest := Frames(rs[1..]);
    IdealRest(ps[0], rs[0], rest);
    assert rs[1..][k..] == rs[k + 1..];
    assert Drain(ps, Frames(rs))[k] == Drain(ps[1..], rest)[k - 1];
  }

  lemma IdealRest(p: Pop, r: Response, s: seq<byte>)
    ensures Ideal(p, r, s).rest == s
  {
  }
}
