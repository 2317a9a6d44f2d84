/**
  The bytes of AMF 0 written out, and what the readers of net/brpc/amf.cpp make of bytes that the
  writer never writes: ECMA arrays, typed objects, foreign markers and streams that end early.
*/
module AmfWire {
  import opened Basics
  import opened Bytes
  import opened AmfCodec
  import opened AmfLaws

  // ---- The encoding, byte by byte ----

  /** AMF 0 File Format Specification, sections 2.2-2.5, 2.7-2.8, 2.11-2.12, 2.14 and 2.15. */
  lemma WireFormat(f: Field)
    ensures match f
            case Number(v) => Enc(f) == [0x00] + BE(v, 8)
            case Boolean(b) => Enc(f) == if b then [0x01, 0x01] else [0x01, 0x00]
            case Str(s) => Enc(f) == if |s| < 65536 then [0x02] + BE(|s|, 2) + s else [0x0C] + BE(|s|, 4) + s
            case Object(o) => Enc(f) == [0x03] + EntryBytes(o) + [0x00, 0x00, 0x09]
            case Array(items) => Enc(f) == [0x0A] + BE(|items|, 4) + EncItems(items)
            case Null => Enc(f) == [0x05]
            case Undefined => Enc(f) == [0x06]
            case Unsupported => Enc(f) == [0x0D]
  {
    if f.Object? {
      EntriesEnd(f.obj);
    }
  }

  /** The fields of an object one after another: a 16-bit length, the name, the value. */
  function EntryBytes(o: Obj): (s: seq<byte>) {
    if o.Nil? then [] else BE(|o.name|, 2) + o.name + Enc(o.value) + EntryBytes(o.rest)
  }

  lemma {:induction false} EntriesEnd(o: Obj)
    ensures EncEntries(o) == EntryBytes(o) + [0x00, 0x00, 0x09]
  {
    hide BE, Enc;
    if o.Nil? {
      assert BE(0, 2) == [0x00, 0x00] by { ZeroLength(); }
    } else {
      EntriesEnd(o.rest);
    }
  }

  lemma ZeroLength()
    ensures BE(0, 2) == [0, 0]
  {
    assert BE(0, 1) == BE(0, 0) + [0];
  }

  // ---- ECMA arrays ----

  function Size(o: Obj): (n: nat) { if o.Nil? then 0 else 1 + Size(o.rest) }

  /** Every value can be read back; the names at this level may be empty. */
  predicate NamedValues(o: Obj) {
    o.Entry? ==> Named(o.value) && NamedValues(o.rest)
  }

  /** An ECMA array as other software writes it: a marker, a 32-bit count and the fields, with no end marker. */
  function EncEcma(o: Obj, count: nat): (s: seq<byte>) {
    [0x08] + BE(count, 4) + EntryBytes(o)
  }

  /** One field: its name may be anything that is not there yet. */
  lemma EcmaStep(acc: Obj, name: Name, f: Field, count: nat, tail: seq<byte>)
    requires |name| < 65536 && Encodable(f) && name !in Names(acc)
    ensures var r := ReadEcma(acc, count + 1, BE(|name|, 2) + name + (Enc(f) + tail));
            if Named(f) then r == ReadEcma(Put(acc, name, f), count, tail) else !r.ok
  {
    hide ReadValue, StrBody, Enc, BE, Put, Names;
    Widths();
    StrBodyReads(name, 2, Enc(f) + tail);
    ValueReadsBack(f, Undefined, tail);
  }

  /** A body counts its fields: with as many as there are it ends there, with more it runs on. */
  lemma {:induction false} EcmaBodyReads(acc: Obj, o: Obj, more: nat, suffix: seq<byte>)
    requires EncodableObj(o) && Below(acc, o)
    ensures var r := ReadEcma(acc, Size(o) + more, EntryBytes(o) + suffix);
            if NamedValues(o) then r == ReadEcma(Cat(acc, o), more, suffix) else !r.ok
    decreases o
  {
    hide ReadEcma, Enc, BE, Put, Less;
    if o.Nil? {
      assert EntryBytes(o) + suffix == suffix;
      CatNil(acc);
    } else {
      var tail := EntryBytes(o.rest) + suffix;
      assert EntryBytes(o) + suffix == BE(|o.name|, 2) + o.name + (Enc(o.value) + tail);
      assert o.name in Names(o);
      if o.name in Names(acc) {
        LessAsymmetric(o.name, o.name);
      }
      EcmaStep(acc, o.name, o.value, Size(o.rest) + more, tail);
      if Named(o.value) {
        PutLast(acc, o.name, o.value);
        CatAssociative(acc, Entry(o.name, o.value, Nil), o.rest);
        EcmaBodyReads(Put(acc, o.name, o.value), o.rest, more, suffix);
      }
    }
  }

  lemma CountsFields(o: Obj, count: nat, suffix: seq<byte>)
    requires count < 0x1_0000_0000
    ensures var s := EncEcma(o, count) + suffix;
            s != [] && s[0] == 0x08 && Count(s[1..]) == Read(true, count, EntryBytes(o) + suffix)
  {
    hide BE, FromBE, EntryBytes;
    Widths();
    IntReads(count, 4, EntryBytes(o) + suffix);
    assert (EncEcma(o, count) + suffix)[1..] == BE(count, 4) + (EntryBytes(o) + suffix);
  }

  /** The marker of an ECMA array leads to its body, at the top as under a name. */
  lemma EcmaDispatch(slot: Field, s: seq<byte>, count: nat, t: seq<byte>)
    requires s != [] && s[0] == 0x08 && Count(s[1..]) == Read(true, count, t)
    ensures var acc := if slot.Object? then slot.obj else Nil;
            var r := ReadEcma(acc, count, t);
            ReadObject(acc, s) == r && ReadValue(slot, s) == Read(r.ok, Some(Object(r.value)), r.rest)
  {
    hide ReadEcma, Count;
  }

  lemma EcmaNothing(o: Obj, s: seq<byte>)
    ensures ReadEcma(o, 0, s) == Read(true, o, s)
    ensures forall count: nat :: count > 0 ==> ReadEcma(o, count, []) == Read(false, o, [])
  {
  }

  /**
    An ECMA array adds its fields to the object being read, or starts one where none has been read, and
    leaves the suffix: at the top as under a name, and exactly when the objects inside its values have no
    empty names.  Its own names may be empty, because no end marker is looked for.
  */
  lemma EcmaReadsBack(slot: Field, o: Obj, suffix: seq<byte>)
    requires EncodableObj(o) && Size(o) < 0x1_0000_0000
    requires Below(if slot.Object? then slot.obj else Nil, o)
    ensures var acc, s := if slot.Object? then slot.obj else Nil, EncEcma(o, Size(o)) + suffix;
            if NamedValues(o) then
              && ReadObject(acc, s) == Read(true, Cat(acc, o), suffix)
              && ReadValue(slot, s) == Read(true, Some(Object(Cat(acc, o))), suffix)
            else !ReadObject(acc, s).ok && !ReadValue(slot, s).ok
  {
    hide *;
    var acc := if slot.Object? then slot.obj else Nil;
    CountsFields(o, Size(o), suffix);
    EcmaBodyReads(acc, o, 0, suffix);
    EcmaDispatch(slot, EncEcma(o, Size(o)) + suffix, Size(o), EntryBytes(o) + suffix);
    EcmaNothing(Cat(acc, o), suffix);
  }

  /** A count above the fields present fails at the end of the stream, with the fields it got. */
  lemma EcmaOvercount(acc: Obj, o: Obj, count: nat)
    requires EncodableObj(o) && Below(acc, o) && NamedValues(o) && Size(o) < count < 0x1_0000_0000
    ensures ReadObject(acc, EncEcma(o, count)) == Read(false, Cat(acc, o), [])
  {
    hide *;
    CountsFields(o, count, []);
    EcmaBodyReads(acc, o, count - Size(o), []);
    assert EncEcma(o, count) + [] == EncEcma(o, count);
    EcmaDispatch(Object(acc), EncEcma(o, count), count, EntryBytes(o) + []);
    EcmaNothing(Cat(acc, o), []);
  }

  // ---- Typed objects, and slots that are already filled ----

  /** What follows the marker of an object, or the class name of a typed one, is its body. */
  lemma ObjectDispatch(slot: Field, s: seq<byte>, cls: Name)
    requires |cls| < 65536
    ensures var r := ReadBody(if slot.Object? then slot.obj else Nil, s);
            var v := Read(r.ok, Some(Object(r.value)), r.rest);
            ReadValue(slot, [0x03] + s) == v && ReadValue(slot, [0x10] + (BE(|cls|, 2) + cls + s)) == v
  {
    Widths();
    hide ReadBody, StrBody, BE;
    StrBodyReads(cls, 2, s);
    assert ([0x03] + s)[1..] == s && ([0x10] + (BE(|cls|, 2) + cls + s))[1..] == BE(|cls|, 2) + cls + s;
  }

  lemma ObjectBytes(o: Obj, suffix: seq<byte>)
    ensures Enc(Object(o)) + suffix == [0x03] + (EncEntries(o) + suffix)
  {
  }

  /**
    Reading an object where one has been read already adds its fields to that one.  A typed object is read
    as a plain one, and its class name is dropped.
  */
  lemma ObjectsExtend(acc: Obj, o: Obj, cls: Name, suffix: seq<byte>)
    requires EncodableObj(o) && NamedObj(o) && Below(acc, o) && |cls| < 65536
    ensures ReadValue(Object(acc), Enc(Object(o)) + suffix) == Read(true, Some(Object(Cat(acc, o))), suffix)
    ensures ReadValue(Object(acc), [0x10] + (BE(|cls|, 2) + cls + (EncEntries(o) + suffix))) ==
            Read(true, Some(Object(Cat(acc, o))), suffix)
  {
    hide *;
    BodyReadsBack(acc, o, suffix);
    ObjectBytes(o, suffix);
    ObjectDispatch(Object(acc), EncEntries(o) + suffix, cls);
  }

  lemma ArraysExtend(acc: seq<Field>, items: seq<Field>, suffix: seq<byte>)
    requires Encodable(Array(items)) && NamedItems(items)
    ensures ReadValue(Array(acc), Enc(Array(items)) + suffix) == Read(true, Some(Array(acc + items)), suffix)
    ensures ReadArray(acc, Enc(Array(items)) + suffix) == Read(true, acc + items, suffix)
  {
    CountReads(items, suffix);
    ItemsReadBack(acc, items, suffix);
    hide ReadItems, EncItems, Count, BE;
  }

  // ---- Markers and ends ----

  /** Any byte but zero is true; types not supported fail; an end marker or an unknown one stores nothing. */
  lemma ForeignMarkers(slot: Field, m: byte, t: seq<byte>)
    ensures m == 0x01 && t != [] ==> ReadValue(slot, [m] + t) == Read(true, Some(Boolean(t[0] != 0)), t[1..])
    ensures m in {0x04, 0x07, 0x0B, 0x0E, 0x0F, 0x11} ==> ReadValue(slot, [m] + t) == Read(false, None, t)
    ensures m == 0x09 || m > 0x11 ==> ReadValue(slot, [m] + t) == Read(true, None, t)
  {
    assert ([m] + t)[1..] == t;
  }

  /** A value that the stream is too short for fails, and the stream is used up. */
  lemma ShortValues(slot: Field, t: seq<byte>)
    ensures ReadValue(slot, []) == Read(false, None, [])
    ensures |t| < 8 ==> ReadValue(slot, [0x00] + t) == Read(false, None, [])
    ensures ReadValue(slot, [0x01]) == Read(false, None, [])
    ensures |t| < 2 || |t| - 2 < FromBE(t[..2]) ==> ReadValue(slot, [0x02] + t) == Read(false, None, [])
    ensures |t| < 4 || |t| - 4 < FromBE(t[..4]) ==> ReadValue(slot, [0x0C] + t) == Read(false, None, [])
    ensures |t| < 4 ==> !ReadValue(slot, [0x08] + t).ok && !ReadValue(slot, [0x0A] + t).ok
  {
    hide FromBE, ReadBody, ReadEcma, ReadItems;
    assert forall m: byte :: ([m] + t)[1..] == t;
    assert [0x01][1..] == [];
  }

  /** A body that is cut off at a name counts as read; one that is cut off at a value does not. */
  lemma CutOff(o: Obj, name: Name, s: seq<byte>)
    ensures |s| < 2 || |s| - 2 < FromBE(s[..2]) ==> ReadBody(o, s) == Read(true, o, [])
    ensures 0 < |name| < 65536 ==> !ReadBody(o, BE(|name|, 2) + name).ok
    ensures !ReadBody(o, [0, 0]).ok
    ensures |s| > 0 ==> ReadBody(o, [0, 0] + s) == Read(s[0] == 0x09, o, s[1..])
  {
    hide FromBE, Put, BE;
    Widths();
    if 0 < |name| < 65536 {
      StrBodyReads(name, 2, []);
      assert BE(|name|, 2) + name + [] == BE(|name|, 2) + name;
    }
    ZeroLength();
    StrBodyReads([], 2, []);
    StrBodyReads([], 2, s);
    assert [0, 0] + [] + [] == [0, 0] && [0, 0] + [] + s == [0, 0] + s;
  }

  /** At the top only objects, ECMA arrays, strict arrays and null have a meaning. */
  lemma TopMarkers(o: Obj, items: seq<Field>, m: byte, t: seq<byte>)
    ensures m != 0x03 && m != 0x08 ==> ReadObject(o, [m] + t) == Read(m == 0x05, o, t)
    ensures m != 0x0A ==> ReadArray(items, [m] + t) == Read(m == 0x05, items, t)
    ensures ReadObject(o, []) == Read(false, o, []) && ReadArray(items, []) == Read(false, items, [])
  {
    assert ([m] + t)[1..] == t;
  }

  // ---- The map underneath ----

  /** Storing a field changes what is found under its name and nothing else, and keeps the order. */
  lemma {:induction false} PutThenSlot(o: Obj, name: Name, f: Field, other: Name)
    requires Ordered(o)
    ensures Slot(Put(o, name, f), other) == if other == name then f else Slot(o, other)
    ensures Ordered(Put(o, name, f))
  {
    if o.Entry? {
      LessTotal(name, o.name);
      PutThenSlot(o.rest, name, f, other);
      if name != o.name && Less(name, o.name) {
        forall m <- Names(o) ensures Less(name, m) {
          if m != o.name {
            LessTransitive(name, o.name, m);
          }
        }
      }
    }
  }

  // ---- Skipping ----

  /** No arrays of either kind inside. */
  predicate Flat(f: Field) {
    match f
    case Object(o) => FlatObj(o)
    case Array(_) => false
    case _ => true
  }

  predicate FlatObj(o: Obj) {
    o.Entry? ==> Flat(o.value) && FlatObj(o.rest)
  }

  lemma {:induction false} SkipsValueIff(f: Field, suffix: seq<byte>)
    requires Encodable(f) && Named(f)
    ensures var r := SkipValue(Enc(f) + suffix);
            if Flat(f) then r == Read(true, (), suffix) else !r.ok
    decreases f, 1
  {
    hide SkipBody, ReadScalar, EncEntries, EncItems, BE;
    match f {
      case Object(o) =>
        SkipsWrittenIff(o, suffix);
        assert (Enc(f) + suffix)[1..] == EncEntries(o) + suffix;
      case Array(items) =>
        assert (Enc(f) + suffix)[0] == STRICT_ARRAY;
      case _ =>
        ScalarReadsBack(f, suffix);
    }
  }

  /** Skipping the body of a written object succeeds, and stops at its end, exactly when no array is inside. */
  lemma {:induction false} SkipsWrittenIff(o: Obj, suffix: seq<byte>)
    requires EncodableObj(o) && NamedObj(o)
    ensures var r := SkipBody(EncEntries(o) + suffix);
            if FlatObj(o) then r == Read(true, (), suffix) else !r.ok
    decreases o, 0
  {
    hide SkipValue, StrBody, Enc, BE;
    Widths();
    var e := EncEntries(o) + suffix;
    if o.Nil? {
      StrBodyReads([], 2, [OBJECT_END] + suffix);
      assert e == BE(0, 2) + [] + ([OBJECT_END] + suffix);
    } else {
      var tail := EncEntries(o.rest) + suffix;
      StrBodyReads(o.name, 2, Enc(o.value) + tail);
      assert e == BE(|o.name|, 2) + o.name + (Enc(o.value) + tail);
      SkipsValueIff(o.value, tail);
      if Flat(o.value) {
        SkipsWrittenIff(o.rest, suffix);
      }
    }
  }
}
