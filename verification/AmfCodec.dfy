/**
  AMF 0 values, their encoding, and the decoder of net/brpc/amf.cpp as functions of the byte
  string it reads.  The stream-driven readers and writers of AmfIo are proved against these.
*/
module AmfCodec {
  import opened Basics
  import opened Bytes

  const NUMBER: byte := 0x00
  const BOOLEAN: byte := 0x01
  const STRING: byte := 0x02
  const OBJECT: byte := 0x03
  const NULL: byte := 0x05
  const UNDEFINED: byte := 0x06
  const ECMA_ARRAY: byte := 0x08
  const OBJECT_END: byte := 0x09
  const STRICT_ARRAY: byte := 0x0A
  const LONG_STRING: byte := 0x0C
  const UNSUPPORTED: byte := 0x0D
  const TYPED_OBJECT: byte := 0x10

  /** MOVIECLIP, REFERENCE, DATE, RECORDSET, XML_DOCUMENT and AVMPLUS_OBJECT. */
  predicate Rejected(m: byte) { m in {0x04, 0x07, 0x0B, 0x0E, 0x0F, 0x11} }

  type Name = seq<byte>

  /** A number is kept as its 64 bits, which is how it travels. */
  datatype Field =
    | Number(bits: nat)
    | Boolean(b: bool)
    | Str(s: seq<byte>)
    | Object(obj: Obj)
    | Array(items: seq<Field>)
    | Null
    | Undefined
    | Unsupported

  /** AMFObject: a std::map from names to fields, listed in key order. */
  datatype Obj = Nil | Entry(name: Name, value: Field, rest: Obj)

  // ---- The std::map underneath an object ----

  /** std::string's order: bytewise, a proper prefix first. */
  predicate Less(a: Name, b: Name) {
    b != [] && (a == [] || a[0] < b[0] || (a[0] == b[0] && Less(a[1..], b[1..])))
  }

  function Names(o: Obj): (ns: set<Name>) {
    if o.Nil? then {} else {o.name} + Names(o.rest)
  }

  predicate Ordered(o: Obj) {
    o.Entry? ==> (forall m <- Names(o.rest) :: Less(o.name, m)) && Ordered(o.rest)
  }

  /** What operator[] finds under a name; a missing name is created as an undefined field. */
  function Slot(o: Obj, name: Name): (f: Field)
    ensures name !in Names(o) ==> f == Undefined
  {
    if o.Nil? then Undefined else if o.name == name then o.value else Slot(o.rest, name)
  }

  function Put(o: Obj, name: Name, f: Field): (r: Obj)
    ensures Names(r) == Names(o) + {name}
  {
    if o.Nil? || (name != o.name && Less(name, o.name)) then Entry(name, f, o)
    else if o.name == name then Entry(name, f, o.rest)
    else Entry(o.name, o.value, Put(o.rest, name, f))
  }

  function Cat(a: Obj, b: Obj): (r: Obj) {
    if a.Nil? then b else Entry(a.name, a.value, Cat(a.rest, b))
  }

  // ---- Encoding ----

  function EncStr(s: seq<byte>): (r: seq<byte>) {
    if |s| < 65536 then [STRING] + BE(|s|, 2) + s else [LONG_STRING] + BE(|s|, 4) + s
  }

  function Enc(f: Field): (r: seq<byte>)
    ensures |r| > 0
  {
    match f
    case Number(v) => [NUMBER] + BE(v, 8)
    case Boolean(b) => [BOOLEAN, if b then 1 else 0]
    case Str(s) => EncStr(s)
    case Object(o) => [OBJECT] + EncEntries(o)
    case Array(items) => [STRICT_ARRAY] + BE(|items|, 4) + EncItems(items)
    case Null => [NULL]
    case Undefined => [UNDEFINED]
    case Unsupported => [UNSUPPORTED]
  }

  function EncEntries(o: Obj): (r: seq<byte>) {
    if o.Nil? then BE(0, 2) + [OBJECT_END]
    else BE(|o.name|, 2) + o.name + Enc(o.value) + EncEntries(o.rest)
  }

  function EncItems(items: seq<Field>): (r: seq<byte>) {
    if items == [] then [] else Enc(items[0]) + EncItems(items[1..])
  }

  /** The writer can express the value: short names, lengths within their fields. */
  predicate Encodable(f: Field) {
    match f
    case Number(v) => v < 0x1_0000_0000_0000_0000
    case Str(s) => |s| < 0x8000_0000
    case Object(o) => EncodableObj(o)
    case Array(items) => |items| < 0x1_0000_0000 && EncodableItems(items)
    case _ => true
  }

  predicate EncodableObj(o: Obj) {
    o.Entry? ==> |o.name| < 65536 && Encodable(o.value) && EncodableObj(o.rest)
                 && forall m <- Names(o.rest) :: Less(o.name, m)
  }

  predicate EncodableItems(items: seq<Field>) {
    items != [] ==> Encodable(items[0]) && EncodableItems(items[1..])
  }

  /** No object inside the value has a field with an empty name. */
  predicate Named(f: Field) {
    match f
    case Object(o) => NamedObj(o)
    case Array(items) => NamedItems(items)
    case _ => true
  }

  predicate NamedObj(o: Obj) {
    o.Entry? ==> o.name != [] && Named(o.value) && NamedObj(o.rest)
  }

  predicate NamedItems(items: seq<Field>) {
    items != [] ==> Named(items[0]) && NamedItems(items[1..])
  }

  // ---- Decoding ----

  /** Outcome of a reader: what it returned, what it had filled in, what is left in the stream. */
  datatype Read<T> = Read(ok: bool, value: T, rest: seq<byte>)

  /** A length-prefixed string with a prefix of w bytes; a short stream is eaten whole. */
  function StrBody(s: seq<byte>, w: nat): (r: Read<seq<byte>>)
    ensures |r.rest| <= |s| && (r.ok ==> |r.rest| + w + |r.value| == |s|)
    ensures !r.ok ==> r.rest == []
  {
    if |s| < w then Read(false, [], [])
    else
      var n := FromBE(s[..w]);
      if |s| - w < n then Read(false, [], []) else Read(true, s[w..w + n], s[w + n..])
  }

  function SlotObj(f: Field): (o: Obj) { if f.Object? then f.obj else Nil }

  function SlotItems(f: Field): (items: seq<Field>) { if f.Array? then f.items else [] }

  /** The payload behind a marker that nests nothing; None when the marker stores nothing. */
  function ReadScalar(m: byte, t: seq<byte>): (r: Read<Option<Field>>)
    ensures |r.rest| <= |t|
  {
    if m == NUMBER then
      if |t| < 8 then Read(false, None, []) else Read(true, Some(Number(FromBE(t[..8]))), t[8..])
    else if m == BOOLEAN then
      if t == [] then Read(false, None, []) else Read(true, Some(Boolean(t[0] != 0)), t[1..])
    else if m == STRING || m == LONG_STRING then
      var r := StrBody(t, if m == STRING then 2 else 4);
      Read(r.ok, if r.ok then Some(Str(r.value)) else None, r.rest)
    else if m == NULL then Read(true, Some(Null), t)
    else if m == UNDEFINED then Read(true, Some(Undefined), t)
    else if m == UNSUPPORTED then Read(true, Some(Unsupported), t)
    else Read(!Rejected(m), None, t)
  }

  /** The 32-bit count in front of an array; a short stream is eaten whole. */
  function Count(t: seq<byte>): (r: Read<nat>)
    ensures |r.rest| <= |t|
  {
    if |t| < 4 then Read(false, 0, []) else Read(true, FromBE(t[..4]), t[4..])
  }

  /**
    One marker and its payload, read into a slot that already holds a field.  The value is None
    when the slot stays as it was; nested objects and arrays are extended in place.
  */
  function ReadValue(slot: Field, s: seq<byte>): (r: Read<Option<Field>>)
    ensures |r.rest| <= |s| && (r.ok ==> |r.rest| < |s|)
    decreases |s|, 0
  {
    if s == [] then Read(false, None, [])
    else
      var m, t := s[0], s[1..];
      if m == OBJECT || m == TYPED_OBJECT then
        var r := ReadBody(SlotObj(slot), if m == OBJECT then t else StrBody(t, 2).rest);
        Read(r.ok, Some(Object(r.value)), r.rest)
      else if m == ECMA_ARRAY then
        var n := Count(t);
        var r := if n.ok then ReadEcma(SlotObj(slot), n.value, n.rest) else Read(false, SlotObj(slot), []);
        Read(r.ok, Some(Object(r.value)), r.rest)
      else if m == STRICT_ARRAY then
        var n := Count(t);
        var r := if n.ok then ReadItems(SlotItems(slot), n.value, n.rest) else Read(false, SlotItems(slot), []);
        Read(r.ok, Some(Array(r.value)), r.rest)
      else ReadScalar(m, t)
  }

  function PutRead(o: Obj, name: Name, v: Option<Field>): (r: Obj) {
    if v.None? then o else Put(o, name, v.value)
  }

  function AddRead(items: seq<Field>, v: Option<Field>): (r: seq<Field>) {
    if v.None? then items else items + [v.value]
  }

  function ReadBody(o: Obj, s: seq<byte>): (r: Read<Obj>)
    ensures |r.rest| <= |s|
    decreases |s|, 1
  {
    var nm := StrBody(s, 2);
    if !nm.ok then Read(true, o, nm.rest)
    else if nm.value == [] then
      if nm.rest == [] then Read(false, o, []) else Read(nm.rest[0] == OBJECT_END, o, nm.rest[1..])
    else
      var v := ReadValue(Slot(o, nm.value), nm.rest);
      var o' := PutRead(o, nm.value, v.value);
      if v.ok then ReadBody(o', v.rest) else Read(false, o', v.rest)
  }

  function ReadEcma(o: Obj, count: nat, s: seq<byte>): (r: Read<Obj>)
    ensures |r.rest| <= |s|
    decreases |s|, 1
  {
    if count == 0 then Read(true, o, s)
    else
      var nm := StrBody(s, 2);
      if !nm.ok then Read(false, o, nm.rest)
      else
        var v := ReadValue(Slot(o, nm.value), nm.rest);
        var o' := PutRead(o, nm.value, v.value);
        if v.ok then ReadEcma(o', count - 1, v.rest) else Read(false, o', v.rest)
  }

  function ReadItems(items: seq<Field>, count: nat, s: seq<byte>): (r: Read<seq<Field>>)
    ensures |r.rest| <= |s|
    decreases |s|, 1
  {
    if count == 0 then Read(true, items, s)
    else
      var v := ReadValue(Undefined, s);
      var items' := AddRead(items, v.value);
      if v.ok then ReadItems(items', count - 1, v.rest) else Read(false, items', v.rest)
  }

  function ReadObject(o: Obj, s: seq<byte>): (r: Read<Obj>) {
    if s == [] then Read(false, o, [])
    else if s[0] == OBJECT then ReadBody(o, s[1..])
    else if s[0] == ECMA_ARRAY then
      var n := Count(s[1..]);
      if n.ok then ReadEcma(o, n.value, n.rest) else Read(false, o, [])
    else Read(s[0] == NULL, o, s[1..])
  }

  function ReadArray(items: seq<Field>, s: seq<byte>): (r: Read<seq<Field>>) {
    if s == [] then Read(false, items, [])
    else if s[0] == STRICT_ARRAY then
      var n := Count(s[1..]);
      if n.ok then ReadItems(items, n.value, n.rest) else Read(false, items, [])
    else Read(s[0] == NULL, items, s[1..])
  }

  // ---- Skipping an unknown field ----

  function SkipValue(s: seq<byte>): (r: Read<()>)
    ensures |r.rest| <= |s|
    decreases |s|, 0
  {
    if s == [] then Read(false, (), [])
    else
      var m, t := s[0], s[1..];
      if m == OBJECT then SkipBody(t)
      else if m == TYPED_OBJECT then SkipBody(StrBody(t, 2).rest)
      else if m in {ECMA_ARRAY, STRICT_ARRAY, OBJECT_END} then Read(false, (), t)
      else
        var r := ReadScalar(m, t);
        Read(r.ok, (), r.rest)
  }

  function SkipBody(s: seq<byte>): (r: Read<()>)
    ensures |r.rest| <= |s|
    decreases |s|, 1
  {
    var nm := StrBody(s, 2);
    if !nm.ok then Read(true, (), nm.rest)
    else if nm.value == [] then
      if nm.rest == [] then Read(false, (), []) else Read(nm.rest[0] == OBJECT_END, (), nm.rest[1..])
    else
      var v := SkipValue(nm.rest);
      if v.ok then SkipBody(v.rest) else v
  }
}
