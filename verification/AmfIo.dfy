/**
  The readers and writers of net/brpc/amf.cpp, driven by the buffered streams and proved against
  the codec functions.
*/
module AmfIo {
  import opened Basics
  import opened Bytes
  import opened AmfCodec
  import opened AmfStream
  import opened AmfLaws

  // ---- Reading ----

  /** ReadAMFShortStringBody (w == 2) and ReadAMFLongStringBody (w == 4). */
  method ReadStr(stream: InputStream, w: nat) returns (ok: bool, str: seq<byte>)
    modifies stream
    ensures var r := StrBody(old(stream.Contents()), w);
            ok == r.ok && stream.Contents() == r.rest && (ok ==> str == r.value)
  {
    hide FromBE;
    ghost var s := stream.Contents();
    var n, len := stream.CutUint(w);
    if n != w {
      return false, [];
    }
    assert s[..w] + Zeros(0) == s[..w];
    str := [];
    if len != 0 {
      str := stream.CutN(len);
    }
    ok := |str| == len;
    if ok {
      assert s[w..][len..] == s[w + len..] && s[w..][..len] == s[w..w + len];
    }
  }

  /** The markers that nest nothing, shared by the field and the item readers. */
  method ReadPlain(stream: InputStream, m: byte) returns (ok: bool, v: Option<Field>)
    modifies stream
    ensures var r := ReadScalar(m, old(stream.Contents()));
            ok == r.ok && v == r.value && stream.Contents() == r.rest
  {
    hide FromBE, StrBody;
    ghost var s := stream.Contents();
    ok, v := true, None;
    if m == NUMBER {
      var n, bits := stream.CutUint(8);
      if n == 8 {
        assert s[..8] + Zeros(0) == s[..8];
        v := Some(Number(bits));
      } else {
        ok := false;
      }
    } else if m == BOOLEAN {
      var n, b := stream.CutU8(0);
      if n == 1 {
        v := Some(Boolean(b != 0));
      } else {
        ok := false;
      }
    } else if m == STRING || m == LONG_STRING {
      var str;
      ok, str := ReadStr(stream, if m == STRING then 2 else 4);
      if ok {
        v := Some(Str(str));
      }
    } else if m == NULL {
      v := Some(Null);
    } else if m == UNDEFINED {
      v := Some(Undefined);
    } else if m == UNSUPPORTED {
      v := Some(Unsupported);
    } else {
      ok := !Rejected(m);
    }
  }

  method ReadCount(stream: InputStream) returns (ok: bool, count: nat)
    modifies stream
    ensures var r := Count(old(stream.Contents()));
            ok == r.ok && stream.Contents() == r.rest && (ok ==> count == r.value)
  {
    hide FromBE;
    ghost var s := stream.Contents();
    var n;
    n, count := stream.CutUint(4);
    ok := n == 4;
    if ok {
      assert s[..4] + Zeros(0) == s[..4];
    }
  }

  /** ReadAMFObjectField: reads one field into an object under a name. */
  method ReadObjectField(stream: InputStream, obj: Obj, name: Name) returns (ok: bool, out: Obj)
    modifies stream
    ensures var r := ReadValue(Slot(obj, name), old(stream.Contents()));
            ok == r.ok && stream.Contents() == r.rest && out == PutRead(obj, name, r.value)
    decreases |stream.Contents()|, 0
  {
    hide FromBE, StrBody, ReadBody, ReadEcma, ReadItems, Count, ReadScalar, Put, Slot;
    var v := None;
    var n, m := stream.CutU8(0);
    if n == 0 {
      return false, obj;
    }
    if m == OBJECT || m == TYPED_OBJECT {
      if m == TYPED_OBJECT {
        var _, className := ReadStr(stream, 2);
      }
      var child;
      ok, child := ReadObjectBody(stream, SlotObj(Slot(obj, name)));
      v := Some(Object(child));
    } else if m == ECMA_ARRAY {
      var child;
      ok, child := ReadEcmaBody(stream, SlotObj(Slot(obj, name)));
      v := Some(Object(child));
    } else if m == STRICT_ARRAY {
      var child;
      ok, child := ReadArrayBody(stream, SlotItems(Slot(obj, name)));
      v := Some(Array(child));
    } else {
      ok, v := ReadPlain(stream, m);
    }
    out := PutRead(obj, name, v);
  }

  /** ReadAMFObjectBody: fields until the terminator, or until the stream gives out at a name. */
  method ReadObjectBody(stream: InputStream, obj: Obj) returns (ok: bool, out: Obj)
    modifies stream
    ensures Read(ok, out, stream.Contents()) == ReadBody(obj, old(stream.Contents()))
    decreases |stream.Contents()|, 1
  {
    hide FromBE, StrBody, ReadValue;
    out := obj;
    while true
      invariant |stream.Contents()| <= |old(stream.Contents())|
      invariant ReadBody(out, stream.Contents()) == ReadBody(obj, old(stream.Contents()))
      decreases |stream.Contents()|
    {
      var named, name := ReadStr(stream, 2);
      if !named {
        return true, out;
      }
      if name == [] {
        var n, marker := stream.CutU8(0);
        return n == 1 && marker == OBJECT_END, out;
      }
      ok, out := ReadObjectField(stream, out, name);
      if !ok {
        return;
      }
    }
  }

  /** ReadAMFEcmaArrayBody: as many named fields as the count claims. */
  method ReadEcmaBody(stream: InputStream, obj: Obj) returns (ok: bool, out: Obj)
    modifies stream
    ensures var n := Count(old(stream.Contents()));
            Read(ok, out, stream.Contents()) ==
            if n.ok then ReadEcma(obj, n.value, n.rest) else Read(false, obj, [])
    decreases |stream.Contents()|, 1
  {
    hide FromBE, StrBody, ReadValue;
    ghost var s := stream.Contents();
    var count;
    ok, count := ReadCount(stream);
    out := obj;
    if !ok {
      return;
    }
    var i := 0;
    while i < count
      invariant i <= count && |stream.Contents()| < |s|
      invariant ReadEcma(out, count - i, stream.Contents()) == ReadEcma(obj, count, Count(s).rest)
    {
      var named, name := ReadStr(stream, 2);
      if !named {
        return false, out;
      }
      ok, out := ReadObjectField(stream, out, name);
      if !ok {
        return;
      }
      i := i + 1;
    }
    ok := true;
  }

  /** ReadAMFArrayItem: reads one item and appends it. */
  method ReadArrayItem(stream: InputStream, items: seq<Field>) returns (ok: bool, out: seq<Field>)
    modifies stream
    ensures var r := ReadValue(Undefined, old(stream.Contents()));
            ok == r.ok && stream.Contents() == r.rest && out == AddRead(items, r.value)
    decreases |stream.Contents()|, 0
  {
    hide FromBE, StrBody, ReadBody, ReadEcma, ReadItems, Count, ReadScalar;
    var v := None;
    var n, m := stream.CutU8(0);
    if n == 0 {
      return false, items;
    }
    if m == OBJECT || m == TYPED_OBJECT {
      if m == TYPED_OBJECT {
        var _, className := ReadStr(stream, 2);
      }
      var child;
      ok, child := ReadObjectBody(stream, Nil);
      v := Some(Object(child));
    } else if m == ECMA_ARRAY {
      var child;
      ok, child := ReadEcmaBody(stream, Nil);
      v := Some(Object(child));
    } else if m == STRICT_ARRAY {
      var child;
      ok, child := ReadArrayBody(stream, []);
      v := Some(Array(child));
    } else {
      ok, v := ReadPlain(stream, m);
    }
    out := AddRead(items, v);
  }

  /** ReadAMFArrayBody: as many items as the count claims. */
  method ReadArrayBody(stream: InputStream, items: seq<Field>) returns (ok: bool, out: seq<Field>)
    modifies stream
    ensures var n := Count(old(stream.Contents()));
            Read(ok, out, stream.Contents()) ==
            if n.ok then ReadItems(items, n.value, n.rest) else Read(false, items, [])
    decreases |stream.Contents()|, 1
  {
    hide FromBE, ReadValue;
    ghost var s := stream.Contents();
    var count;
    ok, count := ReadCount(stream);
    out := items;
    if !ok {
      return;
    }
    var i := 0;
    while i < count
      invariant i <= count && |stream.Contents()| < |s|
      invariant ReadItems(out, count - i, stream.Contents()) == ReadItems(items, count, Count(s).rest)
    {
      ok, out := ReadArrayItem(stream, out);
      if !ok {
        return;
      }
      i := i + 1;
    }
    ok := true;
  }

  method ReadAmfObject(stream: InputStream, obj: Obj) returns (ok: bool, out: Obj)
    modifies stream
    ensures Read(ok, out, stream.Contents()) == ReadObject(obj, old(stream.Contents()))
  {
    hide FromBE, ReadBody, ReadEcma, Count;
    var n, m := stream.CutU8(0);
    if n == 0 {
      return false, obj;
    }
    if m == OBJECT {
      ok, out := ReadObjectBody(stream, obj);
    } else if m == ECMA_ARRAY {
      ok, out := ReadEcmaBody(stream, obj);
    } else {
      ok, out := m == NULL, obj;
    }
  }

  method ReadAmfArray(stream: InputStream, items: seq<Field>) returns (ok: bool, out: seq<Field>)
    modifies stream
    ensures Read(ok, out, stream.Contents()) == ReadArray(items, old(stream.Contents()))
  {
    hide FromBE, ReadItems, Count;
    var n, m := stream.CutU8(0);
    if n == 0 {
      return false, items;
    }
    if m == STRICT_ARRAY {
      ok, out := ReadArrayBody(stream, items);
    } else {
      ok, out := m == NULL, items;
    }
  }

  // ---- Skipping ----

  /** ReadAMFObjectField of the message reader when no field takes the value. */
  method SkipField(stream: InputStream) returns (ok: bool)
    modifies stream
    ensures Read(ok, (), stream.Contents()) == SkipValue(old(stream.Contents()))
    decreases |stream.Contents()|, 0
  {
    hide FromBE, StrBody, SkipBody, ReadScalar;
    var n, m := stream.CutU8(0);
    if n == 0 {
      return false;
    }
    if m == OBJECT || m == TYPED_OBJECT {
      if m == TYPED_OBJECT {
        var _, className := ReadStr(stream, 2);
      }
      ok := SkipObjectBody(stream);
    } else if m == ECMA_ARRAY || m == STRICT_ARRAY || m == OBJECT_END {
      ok := false;
    } else {
      var unused;
      ok, unused := ReadPlain(stream, m);
    }
  }

  method SkipObjectBody(stream: InputStream) returns (ok: bool)
    modifies stream
    ensures Read(ok, (), stream.Contents()) == SkipBody(old(stream.Contents()))
    decreases |stream.Contents()|, 1
  {
    hide FromBE, StrBody, SkipValue;
    while true
      invariant |stream.Contents()| <= |old(stream.Contents())|
      invariant SkipBody(stream.Contents()) == SkipBody(old(stream.Contents()))
      decreases |stream.Contents()|
    {
      var named, name := ReadStr(stream, 2);
      if !named {
        return true;
      }
      if name == [] {
        var n, marker := stream.CutU8(0);
        return n == 1 && marker == OBJECT_END;
      }
      ok := SkipField(stream);
      if !ok {
        return;
      }
    }
  }

  // ---- Writing ----

  /** Every object inside the value has names the writer accepts. */
  predicate ShortNames(f: Field) {
    match f
    case Object(o) => ShortNamesObj(o)
    case Array(items) => ShortNamesItems(items)
    case _ => true
  }

  predicate ShortNamesObj(o: Obj) {
    o.Entry? ==> |o.name| < 65536 && ShortNames(o.value) && ShortNamesObj(o.rest)
  }

  predicate ShortNamesItems(items: seq<Field>) {
    items != [] ==> ShortNames(items[0]) && ShortNamesItems(items[1..])
  }

  /** put_u16, put_u32 and put_u64. */
  method PutUint(out: OutputStream, v: nat, w: nat)
    requires out.Valid()
    modifies out
    ensures out.Valid() && out.good == (old(out.good) && w <= old(out.Room()))
    ensures out.good ==> out.Contents() == old(out.Contents()) + BE(v, w) && out.Room() == old(out.Room()) - w
  {
    hide BE;
    out.PutN(BE(v, w));
    assert BE(v, w)[..w] == BE(v, w);
  }

  /** A marker, an optional length, and bytes. */
  method PutTagged(out: OutputStream, m: byte, head: seq<byte>, body: seq<byte>)
    requires out.Valid()
    modifies out
    ensures out.Valid()
    ensures out.good == (old(out.good) && 1 + |head| + |body| <= old(out.Room()))
    ensures out.good ==> out.Contents() == old(out.Contents()) + ([m] + head + body)
                         && out.Room() == old(out.Room()) - (1 + |head| + |body|)
  {
    ghost var c := out.Contents();
    out.PutU8(m);
    out.PutN(head);
    out.PutN(body);
    if out.good {
      assert out.Contents() == c + [m] + head + body;
      assert c + [m] + head + body == c + ([m] + head + body);
    }
  }

  /**
    WriteAMFField: the stream stays good exactly when the names fit and the blocks have room, and
    then the encoding has been appended.
  */
  method WriteField(f: Field, out: OutputStream)
    requires out.Valid()
    modifies out
    ensures out.Valid()
    ensures out.good == (old(out.good) && ShortNames(f) && |Enc(f)| <= old(out.Room()))
    ensures out.good ==> out.Contents() == old(out.Contents()) + Enc(f) && out.Room() == old(out.Room()) - |Enc(f)|
    decreases Weight(f), 0
  {
    hide BE, EncEntries, EncItems;
    match f {
      case Number(v) =>
        PutTagged(out, NUMBER, BE(v, 8), []);
        assert [NUMBER] + BE(v, 8) + [] == Enc(f);
      case Boolean(b) =>
        PutTagged(out, BOOLEAN, [if b then 1 else 0], []);
        assert [BOOLEAN] + [if b then 1 else 0] + [] == Enc(f);
      case Str(s) =>
        if |s| < 65536 {
          PutTagged(out, STRING, BE(|s|, 2), s);
        } else {
          PutTagged(out, LONG_STRING, BE(|s|, 4), s);
        }
      case Object(o) => WriteAmfObject(o, out);
      case Array(items) => WriteAmfArray(items, out);
      case Null => out.PutU8(NULL);
      case Undefined => out.PutU8(UNDEFINED);
      case Unsupported => out.PutU8(UNSUPPORTED);
    }
  }

  method WriteAmfObject(obj: Obj, out: OutputStream)
    requires out.Valid()
    modifies out
    ensures out.Valid()
    ensures out.good == (old(out.good) && ShortNamesObj(obj) && 1 + |EncEntries(obj)| <= old(out.Room()))
    ensures out.good ==> out.Contents() == old(out.Contents()) + ([OBJECT] + EncEntries(obj))
                         && out.Room() == old(out.Room()) - 1 - |EncEntries(obj)|
    decreases WeightObj(obj), 1
  {
    hide BE, Enc, Weight;
    ghost var room, goal := out.Room(), out.Contents() + ([OBJECT] + EncEntries(obj));
    out.PutU8(OBJECT);
    if out.good {
      assert out.Contents() + EncEntries(obj) == goal;
    }
    var rest := obj;
    while rest.Entry?
      invariant out.Valid()
      invariant ShortNamesObj(rest) == ShortNamesObj(obj) && WeightObj(rest) <= WeightObj(obj)
      invariant out.good ==> old(out.good) && out.Contents() + EncEntries(rest) == goal
                             && room - out.Room() + |EncEntries(rest)| == 1 + |EncEntries(obj)|
      invariant !out.good ==> !old(out.good) || room < 1
      decreases rest
    {
      if |rest.name| >= 65536 {
        out.good := false;
        return;
      }
      ghost var c := out.Contents();
      PutName(out, rest.name);
      WriteField(rest.value, out);
      if !out.good {
        return;
      }
      EntryWritten(c, rest, out.Contents());
      rest := rest.rest;
    }
    PutEnd(out);
  }

  method PutName(out: OutputStream, name: Name)
    requires out.Valid()
    modifies out
    ensures out.Valid() && out.good == (old(out.good) && 2 + |name| <= old(out.Room()))
    ensures out.good ==> out.Contents() == old(out.Contents()) + BE(|name|, 2) + name
                         && out.Room() == old(out.Room()) - 2 - |name|
  {
    hide BE;
    PutUint(out, |name|, 2);
    out.PutN(name);
    assert name[..|name|] == name;
  }

  method PutEnd(out: OutputStream)
    requires out.Valid()
    modifies out
    ensures out.Valid() && out.good == (old(out.good) && |EncEntries(Nil)| <= old(out.Room()))
    ensures out.good ==> out.Contents() == old(out.Contents()) + EncEntries(Nil)
                         && out.Room() == old(out.Room()) - |EncEntries(Nil)|
  {
    hide BE;
    ghost var c := out.Contents();
    PutUint(out, 0, 2);
    out.PutU8(OBJECT_END);
    if out.good {
      assert out.Contents() == c + (BE(0, 2) + [OBJECT_END]);
    }
  }

  lemma EntryWritten(before: seq<byte>, rest: Obj, after: seq<byte>)
    requires rest.Entry? && after == before + BE(|rest.name|, 2) + rest.name + Enc(rest.value)
    ensures before + EncEntries(rest) == after + EncEntries(rest.rest)
  {
    hide BE, Enc;
  }

  method WriteAmfArray(items: seq<Field>, out: OutputStream)
    requires out.Valid()
    modifies out
    ensures out.Valid()
    ensures out.good == (old(out.good) && ShortNamesItems(items) && |Enc(Array(items))| <= old(out.Room()))
    ensures out.good ==> out.Contents() == old(out.Contents()) + Enc(Array(items))
                         && out.Room() == old(out.Room()) - |Enc(Array(items))|
    decreases WeightItems(items), 1
  {
    hide BE, WeightItems, Weight;
    ghost var room, goal := out.Room(), out.Contents() + Enc(Array(items));
    PutTagged(out, STRICT_ARRAY, BE(|items|, 4), []);
    assert items[0..] == items;
    if out.good {
      assert out.Contents() + EncItems(items) == goal;
    }
    var i := 0;
    while i < |items|
      invariant 0 <= i <= |items| && out.Valid()
      invariant ShortNamesItems(items[i..]) == ShortNamesItems(items)
      invariant out.good ==> old(out.good) && out.Contents() + EncItems(items[i..]) == goal
                             && room - out.Room() + |EncItems(items[i..])| == |Enc(Array(items))|
      invariant !out.good ==> !old(out.good) || room < 5
    {
      ghost var c := out.Contents();
      ItemWeight(items, i);
      assert items[i..][0] == items[i] && items[i..][1..] == items[i + 1..];
      WriteField(items[i], out);
      if !out.good {
        return;
      }
      assert c + EncItems(items[i..]) == out.Contents() + EncItems(items[i + 1..]);
      i := i + 1;
    }
    assert out.Contents() + [] == out.Contents();
  }

  lemma {:induction false} ItemWeight(items: seq<Field>, i: nat)
    requires i < |items|
    ensures Weight(items[i]) <= WeightItems(items)
  {
    if i < |items| - 1 {
      ItemWeight(items[..|items| - 1], i);
    }
  }

  // ---- From one end to the other ----

  lemma {:induction false} EncodableShort(o: Obj)
    requires EncodableObj(o)
    ensures ShortNamesObj(o)
    decreases o, 0
  {
    if o.Entry? {
      EncodableShortField(o.value);
      EncodableShort(o.rest);
    }
  }

  lemma {:induction false} EncodableShortField(f: Field)
    requires Encodable(f)
    ensures ShortNames(f)
    decreases f, 1
  {
    match f {
      case Object(o) => EncodableShort(o);
      case Array(items) => EncodableShortItems(items);
      case _ =>
    }
  }

  lemma {:induction false} EncodableShortItems(items: seq<Field>)
    requires EncodableItems(items)
    ensures ShortNamesItems(items)
    decreases items, 0
  {
    if items != [] {
      EncodableShortField(items[0]);
      EncodableShortItems(items[1..]);
    }
  }

  /**
    An object written through output blocks of any sizes, re-cut into input blocks of any sizes
    and read back arrives unchanged and uses the stream up, provided the blocks had room; the
    reader refuses it exactly when some field name is empty.
  */
  method Transfer(obj: Obj, blocks: seq<nat>, recut: seq<byte> -> seq<seq<byte>>)
    returns (sent: bool, ok: bool, got: Obj, stream: InputStream)
    requires EncodableObj(obj)
    requires forall s :: Flatten(recut(s)) == s
    ensures sent <==> |Enc(Object(obj))| <= Sum(blocks)
    ensures sent ==> (ok <==> NamedObj(obj))
    ensures sent && ok ==> got == obj && stream.Contents() == []
    ensures fresh(stream)
  {
    hide EncEntries, ReadObject, NamedObj, EncodableObj, ShortNamesObj, Sum;
    var out := new OutputStream(blocks);
    WriteAmfObject(obj, out);
    EncodableShort(obj);
    out.Done();
    sent := out.good;
    if !sent {
      stream := new InputStream([]);
      return false, false, Nil, stream;
    }
    assert out.sink == Enc(Object(obj)) + [];
    stream := new InputStream(recut(out.sink));
    ok, got := ReadAmfObject(stream, Nil);
    ObjectRoundTrip(obj, []);
  }
}
