/**
  What the readers of net/brpc/amf.cpp do on the way, beside the value they leave: every field they
  store, even one that is overwritten later, and how deep their calls nest.
*/
module AmfCost {
  import opened Basics
  import opened Bytes
  import opened AmfCodec

  /** Fields stored, and nested calls that read a value. */
  datatype Cost = Cost(stores: nat, levels: nat)

  /** One after the other. */
  function Then(a: Cost, b: Cost): (c: Cost) { Cost(a.stores + b.stores, Max(a.levels, b.levels)) }

  function CostValue(slot: Field, s: seq<byte>): (c: Cost)
    decreases |s|, 0
  {
    if s == [] then Cost(0, 1)
    else
      var m, t := s[0], s[1..];
      var n := Count(t);
      var inner :=
        if m == OBJECT then CostBody(SlotObj(slot), t)
        else if m == TYPED_OBJECT then CostBody(SlotObj(slot), StrBody(t, 2).rest)
        else if m == ECMA_ARRAY && n.ok then CostEcma(SlotObj(slot), n.value, n.rest)
        else if m == STRICT_ARRAY && n.ok then CostItems(SlotItems(slot), n.value, n.rest)
        else Cost(0, 0);
      Cost(inner.stores + (if ReadValue(slot, s).value.Some? then 1 else 0), inner.levels + 1)
  }

  function CostBody(o: Obj, s: seq<byte>): (c: Cost)
    decreases |s|, 1
  {
    var nm := StrBody(s, 2);
    if !nm.ok || nm.value == [] then Cost(0, 0)
    else
      var c, v := CostValue(Slot(o, nm.value), nm.rest), ReadValue(Slot(o, nm.value), nm.rest);
      if v.ok then Then(c, CostBody(PutRead(o, nm.value, v.value), v.rest)) else c
  }

  function CostEcma(o: Obj, count: nat, s: seq<byte>): (c: Cost)
    decreases |s|, 1
  {
    var nm := StrBody(s, 2);
    if count == 0 || !nm.ok then Cost(0, 0)
    else
      var c, v := CostValue(Slot(o, nm.value), nm.rest), ReadValue(Slot(o, nm.value), nm.rest);
      if v.ok then Then(c, CostEcma(PutRead(o, nm.value, v.value), count - 1, v.rest)) else c
  }

  function CostItems(items: seq<Field>, count: nat, s: seq<byte>): (c: Cost)
    decreases |s|, 1
  {
    if count == 0 then Cost(0, 0)
    else
      var c, v := CostValue(Undefined, s), ReadValue(Undefined, s);
      if v.ok then Then(c, CostItems(AddRead(items, v.value), count - 1, v.rest)) else c
  }

  /** The entry points: one call more. */
  function CostObject(o: Obj, s: seq<byte>): (c: Cost) {
    if s == [] then Cost(0, 1)
    else
      var n := Count(s[1..]);
      var inner :=
        if s[0] == OBJECT then CostBody(o, s[1..])
        else if s[0] == ECMA_ARRAY && n.ok then CostEcma(o, n.value, n.rest)
        else Cost(0, 0);
      inner.(levels := inner.levels + 1)
  }

  function CostArray(items: seq<Field>, s: seq<byte>): (c: Cost) {
    if s == [] then Cost(0, 1)
    else
      var n := Count(s[1..]);
      var inner := if s[0] == STRICT_ARRAY && n.ok then CostItems(items, n.value, n.rest) else Cost(0, 0);
      inner.(levels := inner.levels + 1)
  }

  /** Bounded by a number of bytes, with one level to spare where nothing could be read. */
  predicate Within(c: Cost, bytes: int, spare: nat) {
    c.stores <= bytes && c.levels <= bytes + spare
  }

  lemma {:induction false} CostValueBounded(slot: Field, s: seq<byte>)
    ensures Within(CostValue(slot, s), |s| - |ReadValue(slot, s).rest|, if s == [] then 1 else 0)
    decreases |s|, 0
  {
    hide CostBody, CostEcma, CostItems, ReadBody, ReadEcma, ReadItems, StrBody;
    if s != [] {
      var m, t := s[0], s[1..];
      var n := Count(t);
      if m == OBJECT {
        CostBodyBounded(SlotObj(slot), t);
      } else if m == TYPED_OBJECT {
        CostBodyBounded(SlotObj(slot), StrBody(t, 2).rest);
      } else if m == ECMA_ARRAY && n.ok {
        CostEcmaBounded(SlotObj(slot), n.value, n.rest);
      } else if m == STRICT_ARRAY && n.ok {
        CostItemsBounded(SlotItems(slot), n.value, n.rest);
      }
    }
  }

  lemma {:induction false} CostBodyBounded(o: Obj, s: seq<byte>)
    ensures Within(CostBody(o, s), |s| - |ReadBody(o, s).rest|, 0)
    decreases |s|, 1
  {
    hide CostValue, ReadValue, StrBody, Slot, PutRead;
    var nm := StrBody(s, 2);
    if nm.ok && nm.value != [] {
      CostValueBounded(Slot(o, nm.value), nm.rest);
      var v := ReadValue(Slot(o, nm.value), nm.rest);
      if v.ok {
        CostBodyBounded(PutRead(o, nm.value, v.value), v.rest);
      }
    }
  }

  lemma {:induction false} CostEcmaBounded(o: Obj, count: nat, s: seq<byte>)
    ensures Within(CostEcma(o, count, s), |s| - |ReadEcma(o, count, s).rest|, 0)
    decreases |s|, 1
  {
    hide CostValue, ReadValue, StrBody, Slot, PutRead;
    var nm := StrBody(s, 2);
    if count > 0 && nm.ok {
      CostValueBounded(Slot(o, nm.value), nm.rest);
      var v := ReadValue(Slot(o, nm.value), nm.rest);
      if v.ok {
        CostEcmaBounded(PutRead(o, nm.value, v.value), count - 1, v.rest);
      }
    }
  }

  lemma {:induction false} CostItemsBounded(items: seq<Field>, count: nat, s: seq<byte>)
    ensures Within(CostItems(items, count, s), |s| - |ReadItems(items, count, s).rest|, 1)
    decreases |s|, 1
  {
    hide CostValue, ReadValue, AddRead;
    if count > 0 {
      CostValueBounded(Undefined, s);
      var v := ReadValue(Undefined, s);
      if v.ok {
        CostItemsBounded(AddRead(items, v.value), count - 1, v.rest);
      }
    }
  }

  /**
    On every byte string that is not empty, however its 32-bit counts boast and whatever is
    overwritten on the way: fields stored and calls nested never exceed the bytes consumed.
  */
  lemma ObjectCostBounded(o: Obj, s: seq<byte>)
    ensures Within(CostObject(o, s), |s| - |ReadObject(o, s).rest|, if s == [] then 1 else 0)
  {
    hide CostBody, CostEcma, ReadBody, ReadEcma;
    if s != [] {
      var n := Count(s[1..]);
      if s[0] == OBJECT {
        CostBodyBounded(o, s[1..]);
      } else if s[0] == ECMA_ARRAY && n.ok {
        CostEcmaBounded(o, n.value, n.rest);
      }
    }
  }

  lemma ArrayCostBounded(items: seq<Field>, s: seq<byte>)
    ensures Within(CostArray(items, s), |s| - |ReadArray(items, s).rest|, if s == [] then 1 else 0)
  {
    hide CostItems, ReadItems;
    if s != [] {
      var n := Count(s[1..]);
      if s[0] == STRICT_ARRAY && n.ok {
        CostItemsBounded(items, n.value, n.rest);
      }
    }
  }
}
