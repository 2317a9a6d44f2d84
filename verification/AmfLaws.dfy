/** What the AMF 0 codec promises: round trips, agreement of skipping with reading, size bounds. */
module AmfLaws {
  import opened Basics
  import opened Bytes
  import opened AmfCodec
  import opened AmfCost

  // ---- Names are totally ordered, so an object is a sorted map ----

  lemma LessAsymmetric(a: Name, b: Name)
    requires Less(a, b)
    ensures a != b && !Less(b, a)
  {
  }

  lemma LessTotal(a: Name, b: Name)
    ensures a == b || Less(a, b) || Less(b, a)
  {
    if a != [] && b != [] && a[0] == b[0] {
      assert a == [a[0]] + a[1..] && b == [b[0]] + b[1..];
      LessTotal(a[1..], b[1..]);
    }
  }

  lemma LessTransitive(a: Name, b: Name, c: Name)
    requires Less(a, b) && Less(b, c)
    ensures Less(a, c)
  {
  }

  ghost predicate Below(a: Obj, b: Obj) {
    forall m <- Names(a), n <- Names(b) :: Less(m, n)
  }

  /** Inserting a name above all the others appends it. */
  lemma {:induction false} PutLast(o: Obj, name: Name, f: Field)
    requires forall m <- Names(o) :: Less(m, name)
    ensures Put(o, name, f) == Cat(o, Entry(name, f, Nil))
  {
    if o.Entry? {
      assert o.name in Names(o);
      LessAsymmetric(o.name, name);
      PutLast(o.rest, name, f);
    }
  }

  lemma {:induction false} CatAssociative(a: Obj, b: Obj, c: Obj)
    ensures Cat(Cat(a, b), c) == Cat(a, Cat(b, c))
  {
    if a.Entry? {
      CatAssociative(a.rest, b, c);
    }
  }

  // ---- Round trip ----

  lemma IntReads(v: nat, w: nat, tail: seq<byte>)
    requires v < Pow256(w)
    ensures FromBE((BE(v, w) + tail)[..w]) == v && (BE(v, w) + tail)[w..] == tail
  {
    BERoundTrip(v, w);
    Split(BE(v, w), tail);
  }

  lemma StrBodyReads(s: seq<byte>, w: nat, suffix: seq<byte>)
    requires |s| < Pow256(w)
    ensures StrBody(BE(|s|, w) + s + suffix, w) == Read(true, s, suffix)
  {
    var e := BE(|s|, w) + s + suffix;
    BERoundTrip(|s|, w);
    assert e[..w] == BE(|s|, w);
    assert e[w..w + |s|] == s && e[w + |s|..] == suffix;
  }

  ghost predicate Fresh(slot: Field) { SlotObj(slot) == Nil && SlotItems(slot) == [] }

  lemma ScalarReadsBack(f: Field, suffix: seq<byte>)
    requires Encodable(f) && !f.Object? && !f.Array?
    ensures ReadScalar(Enc(f)[0], (Enc(f) + suffix)[1..]) == Read(true, Some(f), suffix)
  {
    hide BE, FromBE, StrBody;
    var t := (Enc(f) + suffix)[1..];
    Widths();
    match f {
      case Number(v) =>
        IntReads(v, 8, suffix);
        assert t == BE(v, 8) + suffix;
      case Boolean(b) =>
        assert t[1..] == suffix;
      case Str(s) =>
        var w := if |s| < 65536 then 2 else 4;
        StrBodyReads(s, w, suffix);
        assert t == BE(|s|, w) + s + suffix;
      case Null | Undefined | Unsupported =>
        assert t == suffix;
    }
  }

  lemma CountReads(items: seq<Field>, suffix: seq<byte>)
    requires |items| < 0x1_0000_0000
    ensures Count((Enc(Array(items)) + suffix)[1..]) == Read(true, |items|, EncItems(items) + suffix)
  {
    hide BE, FromBE, EncItems;
    Widths();
    IntReads(|items|, 4, EncItems(items) + suffix);
    assert (Enc(Array(items)) + suffix)[1..] == BE(|items|, 4) + (EncItems(items) + suffix);
  }

  lemma {:induction false} ValueReadsBack(f: Field, slot: Field, suffix: seq<byte>)
    requires Encodable(f) && Fresh(slot)
    ensures var r := ReadValue(slot, Enc(f) + suffix);
            if Named(f) then r == Read(true, Some(f), suffix) else !r.ok
    decreases f, 1
  {
    hide ReadBody, ReadEcma, ReadItems, ReadScalar, EncEntries, EncItems, BE;
    match f {
      case Object(o) =>
        BodyReadsBack(Nil, o, suffix);
        assert (Enc(f) + suffix)[1..] == EncEntries(o) + suffix;
      case Array(items) =>
        ItemsReadBack([], items, suffix);
        CountReads(items, suffix);
        assert [] + items == items;
      case _ =>
        ScalarReadsBack(f, suffix);
    }
  }

  lemma {:induction false} BodyReadsBack(acc: Obj, o: Obj, suffix: seq<byte>)
    requires EncodableObj(o) && Below(acc, o)
    ensures var r := ReadBody(acc, EncEntries(o) + suffix);
            if NamedObj(o) then r == Read(true, Cat(acc, o), suffix) else !r.ok
    decreases o, 0
  {
    hide ReadValue, StrBody, Enc, BE, Put, Less;
    var e := EncEntries(o) + suffix;
    Widths();
    if o.Nil? {
      StrBodyReads([], 2, [OBJECT_END] + suffix);
      assert e == BE(0, 2) + [] + ([OBJECT_END] + suffix);
      CatNil(acc);
    } else {
      var tail := EncEntries(o.rest) + suffix;
      StrBodyReads(o.name, 2, Enc(o.value) + tail);
      assert e == BE(|o.name|, 2) + o.name + (Enc(o.value) + tail);
      assert o.name in Names(o);
      if o.name == [] {
        EncNeverEndsObject(o.value);
      } else {
        if o.name in Names(acc) {
          LessAsymmetric(o.name, o.name);
        }
        ValueReadsBack(o.value, Undefined, tail);
        if Named(o.value) {
          var acc' := Put(acc, o.name, o.value);
          PutLast(acc, o.name, o.value);
          CatAssociative(acc, Entry(o.name, o.value, Nil), o.rest);
          BodyReadsBack(acc', o.rest, suffix);
        }
      }
    }
  }

  lemma {:induction false} CatNil(o: Obj)
    ensures Cat(o, Nil) == o
  {
    if o.Entry? {
      CatNil(o.rest);
    }
  }

  lemma EncNeverEndsObject(f: Field)
    ensures Enc(f)[0] != OBJECT_END
  {
  }

  lemma {:induction false} ItemsReadBack(acc: seq<Field>, items: seq<Field>, suffix: seq<byte>)
    requires EncodableItems(items)
    ensures var r := ReadItems(acc, |items|, EncItems(items) + suffix);
            if NamedItems(items) then r == Read(true, acc + items, suffix) else !r.ok
    decreases items, 0
  {
    hide ReadValue, Enc;
    if items == [] {
      assert EncItems(items) + suffix == suffix && acc + items == acc;
    } else {
      var tail := EncItems(items[1..]) + suffix;
      assert EncItems(items) + suffix == Enc(items[0]) + tail;
      ValueReadsBack(items[0], Undefined, tail);
      if Named(items[0]) {
        ItemsReadBack(acc + [items[0]], items[1..], suffix);
        assert acc + [items[0]] + items[1..] == acc + items;
      }
    }
  }

  /**
    Writing an object and reading it back into an empty one, with anything after it in the
    stream, restores the object and leaves that suffix: exactly when no field name is empty,
    because an empty name is how the end of an object is spelt.
  */
  lemma ObjectRoundTrip(o: Obj, suffix: seq<byte>)
    requires EncodableObj(o)
    ensures ReadObject(Nil, Enc(Object(o)) + suffix) == Read(true, o, suffix) <==> NamedObj(o)
    ensures !NamedObj(o) ==> !ReadObject(Nil, Enc(Object(o)) + suffix).ok
  {
    hide ReadBody, EncEntries, NamedObj;
    BodyReadsBack(Nil, o, suffix);
    assert (Enc(Object(o)) + suffix)[1..] == EncEntries(o) + suffix;
  }

  lemma ArrayRoundTrip(items: seq<Field>, suffix: seq<byte>)
    requires Encodable(Array(items))
    ensures ReadArray([], Enc(Array(items)) + suffix) == Read(true, items, suffix) <==> NamedItems(items)
    ensures !NamedItems(items) ==> !ReadArray([], Enc(Array(items)) + suffix).ok
  {
    CountReads(items, suffix);
    ItemsReadBack([], items, suffix);
    assert [] + items == items;
  }

  /** The smallest object that does not survive: one null field with an empty name. */
  lemma EmptyNameIsLost()
    ensures !ReadObject(Nil, Enc(Object(Entry([], Null, Nil)))).ok
  {
    var o := Entry([], Null, Nil);
    assert Enc(Object(o)) + [] == Enc(Object(o));
    ObjectRoundTrip(o, []);
  }

  // ---- Skipping agrees with reading ----

  lemma {:induction false} SkipValueAgrees(slot: Field, s: seq<byte>)
    requires SkipValue(s).ok
    ensures ReadValue(slot, s).ok && ReadValue(slot, s).rest == SkipValue(s).rest
    decreases |s|, 0
  {
    if s[0] == OBJECT {
      SkipAgrees(SlotObj(slot), s[1..]);
    } else if s[0] == TYPED_OBJECT {
      SkipAgrees(SlotObj(slot), StrBody(s[1..], 2).rest);
    }
  }

  /**
    Whatever object is being filled, a body that can be skipped can be read, and both stop at
    the same byte.
  */
  lemma {:induction false} SkipAgrees(o: Obj, s: seq<byte>)
    requires SkipBody(s).ok
    ensures ReadBody(o, s).ok && ReadBody(o, s).rest == SkipBody(s).rest
    decreases |s|, 1
  {
    var nm := StrBody(s, 2);
    if nm.ok && nm.value != [] {
      var slot := Slot(o, nm.value);
      SkipValueAgrees(slot, nm.rest);
      var v := ReadValue(slot, nm.rest);
      SkipAgrees(PutRead(o, nm.value, v.value), v.rest);
    }
  }

  // ---- What is built is bounded by what is consumed ----

  /** Fields of all levels inside a value, itself included. */
  function Weight(f: Field): (n: nat)
    ensures n >= 1
  {
    match f
    case Object(o) => 1 + WeightObj(o)
    case Array(items) => 1 + WeightItems(items)
    case _ => 1
  }

  function WeightObj(o: Obj): (n: nat) {
    if o.Nil? then 0 else Weight(o.value) + WeightObj(o.rest)
  }

  function WeightItems(items: seq<Field>): (n: nat) {
    if items == [] then 0 else WeightItems(items[..|items| - 1]) + Weight(items[|items| - 1])
  }

  /** Levels of nesting; a scalar is one level. */
  function Depth(f: Field): (n: nat)
    ensures n >= 1
  {
    match f
    case Object(o) => 1 + DepthObj(o)
    case Array(items) => 1 + DepthItems(items)
    case _ => 1
  }

  function DepthObj(o: Obj): (n: nat) {
    if o.Nil? then 0 else Max(Depth(o.value), DepthObj(o.rest))
  }

  function DepthItems(items: seq<Field>): (n: nat) {
    if items == [] then 0 else Max(DepthItems(items[..|items| - 1]), Depth(items[|items| - 1]))
  }

  lemma {:induction false} DepthBelowWeight(f: Field)
    ensures Depth(f) <= Weight(f)
    decreases f, 1
  {
    match f {
      case Object(o) => DepthBelowWeightObj(o);
      case Array(items) => DepthBelowWeightItems(items);
      case _ =>
    }
  }

  lemma {:induction false} DepthBelowWeightObj(o: Obj)
    ensures DepthObj(o) <= WeightObj(o)
    decreases o, 0
  {
    if o.Entry? {
      DepthBelowWeight(o.value);
      DepthBelowWeightObj(o.rest);
    }
  }

  lemma {:induction false} DepthBelowWeightItems(items: seq<Field>)
    ensures DepthItems(items) <= WeightItems(items) && |items| <= WeightItems(items)
    decreases items, 0
  {
    if items != [] {
      DepthBelowWeight(items[|items| - 1]);
      DepthBelowWeightItems(items[..|items| - 1]);
    }
  }

  /** Replacing a field changes the weight by the difference; a new name adds the new field. */
  lemma {:induction false} PutWeight(o: Obj, name: Name, f: Field)
    requires Ordered(o)
    ensures Ordered(Put(o, name, f))
    ensures WeightObj(Put(o, name, f)) ==
            WeightObj(o) + Weight(f) - (if name in Names(o) then Weight(Slot(o, name)) else 0)
  {
    if o.Entry? {
      LessTotal(name, o.name);
      if name != o.name && Less(name, o.name) {
        forall m <- Names(o) ensures m != name && Less(name, m) {
          if m != o.name {
            LessTransitive(name, o.name, m);
          }
          LessAsymmetric(name, m);
        }
      } else if name != o.name {
        PutWeight(o.rest, name, f);
      }
      if name == o.name && name in Names(o.rest) {
        LessAsymmetric(name, name);
      }
    }
  }

  ghost predicate WellOrdered(f: Field) {
    match f
    case Object(o) => WellOrderedObj(o)
    case Array(items) => WellOrderedItems(items)
    case _ => true
  }

  ghost predicate WellOrderedObj(o: Obj) {
    Ordered(o) && (o.Entry? ==> WellOrdered(o.value) && WellOrderedObj(o.rest))
  }

  ghost predicate WellOrderedItems(items: seq<Field>) {
    items != [] ==> WellOrderedItems(items[..|items| - 1]) && WellOrdered(items[|items| - 1])
  }

  lemma {:induction false} SlotWellOrdered(o: Obj, name: Name)
    requires WellOrderedObj(o)
    ensures WellOrdered(Slot(o, name))
  {
    if o.Entry? && o.name != name {
      SlotWellOrdered(o.rest, name);
    }
  }

  lemma {:induction false} PutWellOrdered(o: Obj, name: Name, f: Field)
    requires WellOrderedObj(o) && WellOrdered(f)
    ensures WellOrderedObj(Put(o, name, f))
  {
    PutWeight(o, name, f);
    if o.Entry? && name != o.name && !Less(name, o.name) {
      PutWellOrdered(o.rest, name, f);
    }
  }

  /** Weight of what a reader would extend in place. */
  ghost function Inner(slot: Field): (n: nat) { WeightObj(SlotObj(slot)) + WeightItems(SlotItems(slot)) }

  /**
    Nested counts may claim anything; a reader still gains at most one field per byte it
    consumes, on success and on failure alike, and objects stay sorted maps.
  */
  lemma {:induction false} ReadValueBounded(slot: Field, s: seq<byte>)
    requires WellOrdered(slot)
    ensures var r := ReadValue(slot, s);
            r.value.Some? ==>
              WellOrdered(r.value.value) && Weight(r.value.value) <= Inner(slot) + CostValue(slot, s).stores
    decreases |s|, 0
  {
    hide ReadBody, ReadEcma, ReadItems, CostBody, CostEcma, CostItems, StrBody, Count;
    if s != [] {
      var m, t := s[0], s[1..];
      if m == OBJECT {
        ReadBodyBounded(SlotObj(slot), t);
      } else if m == TYPED_OBJECT {
        ReadBodyBounded(SlotObj(slot), StrBody(t, 2).rest);
      } else if m == ECMA_ARRAY && Count(t).ok {
        ReadEcmaBounded(SlotObj(slot), Count(t).value, Count(t).rest);
      } else if m == STRICT_ARRAY && Count(t).ok {
        ReadItemsBounded(SlotItems(slot), Count(t).value, Count(t).rest);
      }
    }
  }

  /** Storing one field that was read under a name. */
  lemma PutReadBounded(o: Obj, name: Name, s: seq<byte>)
    requires WellOrderedObj(o)
    requires var v := ReadValue(Slot(o, name), s);
             v.value.Some? ==> WellOrdered(v.value.value)
                               && Weight(v.value.value) <= Inner(Slot(o, name)) + CostValue(Slot(o, name), s).stores
    ensures var v := ReadValue(Slot(o, name), s); var o' := PutRead(o, name, v.value);
            WellOrderedObj(o') && WeightObj(o') <= WeightObj(o) + CostValue(Slot(o, name), s).stores
  {
    var v := ReadValue(Slot(o, name), s).value;
    if v.Some? {
      PutWeight(o, name, v.value);
      PutWellOrdered(o, name, v.value);
    }
  }

  lemma {:induction false} ReadBodyBounded(o: Obj, s: seq<byte>)
    requires WellOrderedObj(o)
    ensures var r := ReadBody(o, s);
            WellOrderedObj(r.value) && WeightObj(r.value) <= WeightObj(o) + CostBody(o, s).stores
    decreases |s|, 1
  {
    hide ReadValue, StrBody, Slot, PutRead, WellOrdered, WellOrderedObj, Weight, WeightObj, Inner, CostValue;
    var nm := StrBody(s, 2);
    if nm.ok && nm.value != [] {
      SlotWellOrdered(o, nm.value);
      ReadValueBounded(Slot(o, nm.value), nm.rest);
      PutReadBounded(o, nm.value, nm.rest);
      var v := ReadValue(Slot(o, nm.value), nm.rest);
      if v.ok {
        ReadBodyBounded(PutRead(o, nm.value, v.value), v.rest);
      }
    }
  }

  lemma {:induction false} ReadEcmaBounded(o: Obj, count: nat, s: seq<byte>)
    requires WellOrderedObj(o)
    ensures var r := ReadEcma(o, count, s);
            WellOrderedObj(r.value) && WeightObj(r.value) <= WeightObj(o) + CostEcma(o, count, s).stores
    decreases |s|, 1
  {
    hide ReadValue, StrBody, Slot, PutRead, WellOrdered, WellOrderedObj, Weight, WeightObj, Inner, CostValue;
    var nm := StrBody(s, 2);
    if count > 0 && nm.ok {
      SlotWellOrdered(o, nm.value);
      ReadValueBounded(Slot(o, nm.value), nm.rest);
      PutReadBounded(o, nm.value, nm.rest);
      var v := ReadValue(Slot(o, nm.value), nm.rest);
      if v.ok {
        ReadEcmaBounded(PutRead(o, nm.value, v.value), count - 1, v.rest);
      }
    }
  }

  lemma {:induction false} ReadItemsBounded(items: seq<Field>, count: nat, s: seq<byte>)
    requires WellOrderedItems(items)
    ensures var r := ReadItems(items, count, s);
            WellOrderedItems(r.value) && WeightItems(r.value) <= WeightItems(items) + CostItems(items, count, s).stores
    decreases |s|, 1
  {
    if count > 0 {
      ReadValueBounded(Undefined, s);
      var v := ReadValue(Undefined, s);
      var items' := AddRead(items, v.value);
      if v.value.Some? {
        assert items'[..|items|] == items;
      }
      if v.ok {
        ReadItemsBounded(items', count - 1, v.rest);
      }
    }
  }

  /**
    On every byte string: the fields left are among those stored, so neither they nor their levels
    exceed the bytes consumed.
  */
  lemma DecodedObjectBounded(s: seq<byte>)
    ensures var r := ReadObject(Nil, s);
            && WellOrderedObj(r.value)
            && DepthObj(r.value) <= WeightObj(r.value) <= CostObject(Nil, s).stores <= |s| - |r.rest|
  {
    ObjectCostBounded(Nil, s);
    if s != [] && s[0] == OBJECT {
      ReadBodyBounded(Nil, s[1..]);
    } else if s != [] && s[0] == ECMA_ARRAY && Count(s[1..]).ok {
      ReadEcmaBounded(Nil, Count(s[1..]).value, Count(s[1..]).rest);
    }
    DepthBelowWeightObj(ReadObject(Nil, s).value);
  }

  lemma DecodedArrayBounded(s: seq<byte>)
    ensures var r := ReadArray([], s);
            && DepthItems(r.value) <= WeightItems(r.value) <= CostArray([], s).stores <= |s| - |r.rest|
            && |r.value| <= WeightItems(r.value)
  {
    ArrayCostBounded([], s);
    if s != [] && s[0] == STRICT_ARRAY && Count(s[1..]).ok {
      ReadItemsBounded([], Count(s[1..]).value, Count(s[1..]).rest);
    }
    DepthBelowWeightItems(ReadArray([], s).value);
  }
}
