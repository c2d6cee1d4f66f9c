/**
 Conversion of protobuf messages to JSON and back (3rdparty/stout/protobuf.hpp), over any schema without groups, oneofs
 or extensions. Floating-point numbers are reals: their rounding is not modelled.
 */
module Protobuf {
  import opened Wrappers
  import opened Base64

  // ------------------------------------------------------------ schemas and messages

  datatype Label = Required | Optional | Repeated

  datatype EnumValue = EnumValue(name: string, number: int)

  datatype Type =
    | Double
    | Float
    | Integer(signed: bool, wide: bool)
    | Boolean
    | Text
    | Bytes
    | Enum(values: seq<EnumValue>)
    | Message(name: string)

  datatype Field = Field(name: string, tag: Label, typ: Type, default: Option<Value>, deprecated: bool)

  /** Message types by name. They may refer to each other in any way. */
  type Schema = map<string, seq<Field>>

  /** The values of one field: none if it is not set, one if it is, any number if it is repeated. */
  datatype Slot = Slot(values: seq<Value>)

  /** A message has a slot for each field of its type. */
  datatype Value =
    | VReal(r: real)
    | VInt(n: int)
    | VBool(b: bool)
    | VText(s: string)
    | VBytes(bytes: seq<bv8>)
    | VEnum(number: int)
    | VMessage(slots: seq<Slot>)

  function FieldsOf(schema: Schema, name: string): seq<Field> {
    if name in schema then schema[name] else []
  }

  predicate IsMessage(schema: Schema, t: Type, v: Value) {
    t.Message? && v.VMessage? && |v.slots| == |FieldsOf(schema, t.name)|
  }

  // ------------------------------------------------------------ JSON

  datatype Number = Floating(r: real) | Signed(n: int) | Unsigned(n: int)

  datatype Json =
    | JNull
    | JBool(b: bool)
    | JNumber(number: Number)
    | JString(s: string)
    | JArray(items: seq<Json>)
    | JObject(members: map<string, Json>)

  function Low(t: Type): int
    requires t.Integer?
  {
    if !t.signed then 0 else if t.wide then -0x8000_0000_0000_0000 else -0x8000_0000
  }

  function Width(t: Type): int
    requires t.Integer?
  {
    if t.wide then 0x1_0000_0000_0000_0000 else 0x1_0000_0000
  }

  /** The value of the type that is the same modulo its width. */
  function Cast(t: Type, n: int): (r: int)
    requires t.Integer?
    ensures Low(t) <= r < Low(t) + Width(t)
    ensures Low(t) <= n < Low(t) + Width(t) ==> r == n
  {
    if Low(t) <= n < Low(t) + Width(t) then n else Low(t) + (n - Low(t)) % Width(t)
  }

  function AsReal(n: Number): real {
    match n
    case Floating(r) => r
    case Signed(i) => i as real
    case Unsigned(i) => i as real
  }

  /** Towards zero. */
  function AsInt(n: Number): int {
    match n
    case Floating(r) => if r >= 0.0 then r.Floor else -((-r).Floor)
    case Signed(i) => i
    case Unsigned(i) => i
  }

  // ------------------------------------------------------------ enums

  /** The first value with the name. */
  function FindByName(values: seq<EnumValue>, name: string): Option<int> {
    if values == [] then None
    else if values[0].name == name then Some(values[0].number)
    else FindByName(values[1..], name)
  }

  function NameOf(values: seq<EnumValue>, number: int): Option<string> {
    if values == [] then None
    else if values[0].number == number then Some(values[0].name)
    else NameOf(values[1..], number)
  }

  predicate DistinctNames(values: seq<EnumValue>) {
    forall i, j :: 0 <= i < j < |values| ==> values[i].name != values[j].name
  }

  lemma {:induction false} EnumNameBack(values: seq<EnumValue>, number: int)
    requires DistinctNames(values) && NameOf(values, number).Some?
    ensures FindByName(values, NameOf(values, number).value) == Some(number)
    ensures exists i :: 0 <= i < |values| && values[i].name == NameOf(values, number).value
  {
    if values[0].number == number {
      assert values[0].name == NameOf(values, number).value;
    } else {
      EnumNameBack(values[1..], number);
      var i :| 0 <= i < |values[1..]| && values[1..][i].name == NameOf(values, number).value;
      assert values[i + 1].name == NameOf(values, number).value;
    }
  }

  // ------------------------------------------------------------ printing

  function PrintScalar(t: Type, v: Value): Json {
    match (t, v)
    case (Double, VReal(r)) => JNumber(Floating(r))
    case (Float, VReal(r)) => JNumber(Floating(r))
    case (Integer(signed, _), VInt(n)) => JNumber(if signed then Signed(n) else Unsigned(n))
    case (Boolean, VBool(b)) => JBool(b)
    case (Text, VText(s)) => JString(s)
    case (Bytes, VBytes(bytes)) => JString(EncodedStandard(bytes))
    case (Enum(values), VEnum(n)) => JString(var name := NameOf(values, n); if name.Some? then name.value else "")
    case _ => JNull // a field holds a value of its type
  }

  function PrintValue(schema: Schema, t: Type, v: Value): Json
    decreases v, 1, 0
  {
    if IsMessage(schema, t, v) then JObject(PrintFields(schema, FieldsOf(schema, t.name), v, |v.slots|))
    else PrintScalar(t, v)
  }

  function PrintAll(schema: Schema, t: Type, vs: seq<Value>): (items: seq<Json>)
    ensures |items| == |vs|
    decreases vs, 0
  {
    if vs == [] then [] else [PrintValue(schema, t, vs[0])] + PrintAll(schema, t, vs[1..])
  }

  predicate FillsIn(f: Field) { f.default.Some? && !f.deprecated }

  /** Set, or not set but with a default that is to be shown. */
  predicate Shown(f: Field, vs: seq<Value>) { vs != [] || (f.tag != Repeated && FillsIn(f)) }

  function PrintSlot(schema: Schema, f: Field, vs: seq<Value>): Json
    requires Shown(f, vs)
    decreases vs, 1
  {
    if f.tag == Repeated then JArray(PrintAll(schema, f.typ, vs))
    else if vs != [] then PrintValue(schema, f.typ, vs[0])
    else PrintScalar(f.typ, f.default.value)
  }

  /** The members for the first `n` fields. */
  function PrintFields(schema: Schema, fields: seq<Field>, v: Value, n: nat): map<string, Json>
    requires v.VMessage? && n <= |v.slots| && n <= |fields|
    decreases v, 0, n
  {
    if n == 0 then map[]
    else
      var members := PrintFields(schema, fields, v, n - 1);
      if Shown(fields[n - 1], v.slots[n - 1].values)
      then members[fields[n - 1].name := PrintSlot(schema, fields[n - 1], v.slots[n - 1].values)]
      else members
  }

  // ------------------------------------------------------------ parsing

  /** The value of a JSON string, number or boolean for a type. */
  function ParseScalar(t: Type, j: Json): Try<Value> {
    match j
    case JString(s) =>
      if t.Text? then Ok(VText(s))
      else if t.Bytes? then
        var bytes := DecodedStandard(s);
        if bytes.Ok? then Ok(VBytes(bytes.value)) else Error
      else if t.Enum? then
        var number := FindByName(t.values, s);
        if number.Some? then Ok(VEnum(number.value)) else Error
      else Error
    case JNumber(n) =>
      if t.Double? || t.Float? then Ok(VReal(AsReal(n)))
      else if t.Integer? then Ok(VInt(Cast(t, AsInt(n))))
      else Error
    case JBool(b) => if t.Boolean? then Ok(VBool(b)) else Error
    case _ => Error
  }

  function EmptySlots(n: nat): (slots: seq<Slot>)
    ensures |slots| == n && forall i :: 0 <= i < n ==> slots[i] == Slot([])
  {
    if n == 0 then [] else EmptySlots(n - 1) + [Slot([])]
  }

  /** `MutableMessage`: the message that is there, or an empty one. */
  function Mutable(schema: Schema, name: string, vs: seq<Value>): (slots: seq<Slot>)
    ensures |slots| == |FieldsOf(schema, name)|
  {
    var n := |FieldsOf(schema, name)|;
    if |vs| == 1 && vs[0].VMessage? && |vs[0].slots| == n then vs[0].slots else EmptySlots(n)
  }

  /** `AddX` or `SetX`. */
  function Put(f: Field, vs: seq<Value>, v: Value): seq<Value> {
    if f.tag == Repeated then vs + [v] else [v]
  }

  /** `Parser`: the field after a JSON value has been read into it. Null leaves it as it is. */
  function Apply(schema: Schema, f: Field, vs: seq<Value>, j: Json): Try<seq<Value>>
    decreases j, 1, 0
  {
    match j
    case JNull => Ok(vs)
    case JArray(items) => if f.tag == Repeated then ApplyAll(schema, f, vs, items) else Error
    case JObject(_) =>
      if !f.typ.Message? then Error
      else
        var base := Mutable(schema, f.typ.name, if f.tag == Repeated then [] else vs);
        var r := ParseFields(schema, FieldsOf(schema, f.typ.name), base, j, |base|);
        if r.Error? then Error else Ok(Put(f, vs, VMessage(r.value)))
    case _ =>
      var v := ParseScalar(f.typ, j);
      if v.Error? then Error else Ok(Put(f, vs, v.value))
  }

  function ApplyAll(schema: Schema, f: Field, vs: seq<Value>, items: seq<Json>): Try<seq<Value>>
    decreases items
  {
    if items == [] then Ok(vs)
    else
      var r := Apply(schema, f, vs, items[0]);
      if r.Error? then Error else ApplyAll(schema, f, r.value, items[1..])
  }

  /** The first `n` slots after the members of an object have been read. Members of other names are ignored. */
  function ParseFields(schema: Schema, fields: seq<Field>, slots: seq<Slot>, j: Json, n: nat): (r: Try<seq<Slot>>)
    requires j.JObject? && n <= |fields| && n <= |slots|
    ensures r.Ok? ==> |r.value| == n
    decreases j, 0, n
  {
    if n == 0 then Ok([])
    else
      var f, vs := fields[n - 1], slots[n - 1].values;
      var front := ParseFields(schema, fields, slots, j, n - 1);
      var last := if f.name in j.members then Apply(schema, f, vs, j.members[f.name]) else Ok(vs);
      if front.Error? || last.Error? then Error else Ok(front.value + [Slot(last.value)])
  }

  // ------------------------------------------------------------ well-formed messages

  predicate ScalarTyped(t: Type, v: Value) {
    match t
    case Double => v.VReal?
    case Float => v.VReal?
    case Integer(_, _) => v.VInt? && Low(t) <= v.n < Low(t) + Width(t)
    case Boolean => v.VBool?
    case Text => v.VText?
    case Bytes => v.VBytes?
    case Enum(values) => v.VEnum? && NameOf(values, v.number).Some?
    case Message(_) => false
  }

  predicate FieldOk(f: Field) {
    && (f.default.Some? ==> f.tag != Repeated && ScalarTyped(f.typ, f.default.value))
    && (f.typ.Enum? ==> DistinctNames(f.typ.values))
  }

  predicate FieldsOk(fields: seq<Field>) {
    && (forall i :: 0 <= i < |fields| ==> FieldOk(fields[i]))
    && (forall i, j :: 0 <= i < j < |fields| ==> fields[i].name != fields[j].name)
  }

  /** Field and enum names are unique, and defaults fit their fields. */
  predicate SchemaOk(schema: Schema) { forall name <- schema :: FieldsOk(schema[name]) }

  predicate Typed(schema: Schema, t: Type, v: Value)
    decreases v, 1, 0
  {
    if IsMessage(schema, t, v) then SlotsTyped(schema, FieldsOf(schema, t.name), v, |v.slots|) else ScalarTyped(t, v)
  }

  predicate AllTyped(schema: Schema, t: Type, vs: seq<Value>)
    decreases vs
  {
    vs == [] || (Typed(schema, t, vs[0]) && AllTyped(schema, t, vs[1..]))
  }

  predicate SlotsTyped(schema: Schema, fields: seq<Field>, v: Value, n: nat)
    requires v.VMessage? && n <= |v.slots| && n <= |fields|
    decreases v, 0, n
  {
    n == 0 ||
    (&& (fields[n - 1].tag == Repeated || |v.slots[n - 1].values| <= 1)
     && AllTyped(schema, fields[n - 1].typ, v.slots[n - 1].values)
     && SlotsTyped(schema, fields, v, n - 1))
  }

  /** `IsInitialized`: all required fields are set, in the message and in those it holds. */
  predicate Initialized(schema: Schema, t: Type, v: Value)
    decreases v, 1, 0
  {
    IsMessage(schema, t, v) ==> SlotsInitialized(schema, FieldsOf(schema, t.name), v, |v.slots|)
  }

  predicate AllInitialized(schema: Schema, t: Type, vs: seq<Value>)
    decreases vs
  {
    vs == [] || (Initialized(schema, t, vs[0]) && AllInitialized(schema, t, vs[1..]))
  }

  predicate SlotsInitialized(schema: Schema, fields: seq<Field>, v: Value, n: nat)
    requires v.VMessage? && n <= |v.slots| && n <= |fields|
    decreases v, 0, n
  {
    n == 0 ||
    (&& (fields[n - 1].tag == Required ==> v.slots[n - 1].values != [])
     && AllInitialized(schema, fields[n - 1].typ, v.slots[n - 1].values)
     && SlotsInitialized(schema, fields, v, n - 1))
  }

  // ------------------------------------------------------------ defaults filled in

  function Fill(schema: Schema, t: Type, v: Value): Value
    decreases v, 1, 0
  {
    if IsMessage(schema, t, v) then VMessage(FillSlots(schema, FieldsOf(schema, t.name), v, |v.slots|)) else v
  }

  function FillAll(schema: Schema, t: Type, vs: seq<Value>): (filled: seq<Value>)
    ensures |filled| == |vs|
    decreases vs, 0
  {
    if vs == [] then [] else [Fill(schema, t, vs[0])] + FillAll(schema, t, vs[1..])
  }

  function FillSlot(schema: Schema, f: Field, vs: seq<Value>): seq<Value>
    decreases vs, 1
  {
    if vs == [] && f.tag != Repeated && FillsIn(f) then [f.default.value] else FillAll(schema, f.typ, vs)
  }

  /** The first `n` slots with the defaults that are not deprecated, and the messages in them filled in as well. */
  function FillSlots(schema: Schema, fields: seq<Field>, v: Value, n: nat): (slots: seq<Slot>)
    requires v.VMessage? && n <= |v.slots| && n <= |fields|
    ensures |slots| == n
    decreases v, 0, n
  {
    if n == 0 then []
    else FillSlots(schema, fields, v, n - 1) + [Slot(FillSlot(schema, fields[n - 1], v.slots[n - 1].values))]
  }

  /** `Parse<T>` */
  function Parse(schema: Schema, name: string, j: Json): Try<Value> {
    if !j.JObject? then Error
    else
      var n := |FieldsOf(schema, name)|;
      var r := ParseFields(schema, FieldsOf(schema, name), EmptySlots(n), j, n);
      if r.Error? || !Initialized(schema, Message(name), VMessage(r.value)) then Error else Ok(VMessage(r.value))
  }

  // ------------------------------------------------------------ there and back

  lemma {:induction false} ScalarBack(t: Type, v: Value)
    requires ScalarTyped(t, v) && (t.Enum? ==> DistinctNames(t.values))
    ensures ParseScalar(t, PrintScalar(t, v)) == Ok(v)
    ensures var j := PrintScalar(t, v); j.JNumber? || j.JBool? || j.JString?
  {
    if t.Bytes? { DecodeEncodeStandard(v.bytes); }
    if t.Enum? { EnumNameBack(t.values, v.number); }
  }

  /** A member is there exactly if its field is shown. */
  lemma {:induction false} Lookup(schema: Schema, fields: seq<Field>, v: Value, n: nat, i: nat)
    requires FieldsOk(fields) && v.VMessage? && n <= |v.slots| == |fields| && i < |fields|
    ensures var members := PrintFields(schema, fields, v, n);
            && (fields[i].name in members <==> i < n && Shown(fields[i], v.slots[i].values))
            && (fields[i].name in members ==> members[fields[i].name] == PrintSlot(schema, fields[i], v.slots[i].values))
  {
    if n > 0 {
      Lookup(schema, fields, v, n - 1, i);
      assert i < n - 1 ==> fields[i].name != fields[n - 1].name;
      assert n - 1 < i ==> fields[n - 1].name != fields[i].name;
    }
  }

  /** Reading back a single value, into a field that is repeated or not set. */
  lemma {:induction false} ValueBack(schema: Schema, f: Field, vs: seq<Value>, v: Value)
    requires SchemaOk(schema) && FieldOk(f) && Typed(schema, f.typ, v) && (f.tag == Repeated || vs == [])
    ensures var r := Apply(schema, f, vs, PrintValue(schema, f.typ, v)); r.Ok? && r.value == vs + [Fill(schema, f.typ, v)]
    decreases v, 1, 0
  {
    if IsMessage(schema, f.typ, v) {
      MessageBack(schema, f.typ.name, v, |v.slots|);
    } else {
      ScalarBack(f.typ, v);
    }
  }

  lemma {:induction false} AllBack(schema: Schema, f: Field, vs: seq<Value>, more: seq<Value>)
    requires SchemaOk(schema) && FieldOk(f) && AllTyped(schema, f.typ, more) && f.tag == Repeated
    ensures var r := ApplyAll(schema, f, vs, PrintAll(schema, f.typ, more));
            r.Ok? && r.value == vs + FillAll(schema, f.typ, more)
    decreases more, 0
  {
    if more != [] {
      ValueBack(schema, f, vs, more[0]);
      var one := [Fill(schema, f.typ, more[0])];
      AllBack(schema, f, vs + one, more[1..]);
      assert PrintAll(schema, f.typ, more)[1..] == PrintAll(schema, f.typ, more[1..]);
      assert vs + one + FillAll(schema, f.typ, more[1..]) == vs + FillAll(schema, f.typ, more);
    }
  }

  lemma {:induction false} SlotBack(schema: Schema, f: Field, vs: seq<Value>)
    requires SchemaOk(schema) && FieldOk(f) && Shown(f, vs) && AllTyped(schema, f.typ, vs)
    requires f.tag == Repeated || |vs| <= 1
    ensures var r := Apply(schema, f, [], PrintSlot(schema, f, vs)); r.Ok? && r.value == FillSlot(schema, f, vs)
    decreases vs, 1
  {
    if f.tag == Repeated {
      AllBack(schema, f, [], vs);
      assert [] + FillAll(schema, f.typ, vs) == FillAll(schema, f.typ, vs);
    } else if vs != [] {
      ValueBack(schema, f, [], vs[0]);
      assert vs[1..] == [];
      assert FillAll(schema, f.typ, vs) == [Fill(schema, f.typ, vs[0])];
    } else {
      ScalarBack(f.typ, f.default.value);
    }
  }

  /** Reading the printed object into an empty message fills in the defaults. */
  lemma {:induction false} MessageBack(schema: Schema, name: string, v: Value, n: nat)
    requires SchemaOk(schema) && IsMessage(schema, Message(name), v) && n <= |v.slots|
    requires SlotsTyped(schema, FieldsOf(schema, name), v, n)
    ensures var fields := FieldsOf(schema, name);
            var j := JObject(PrintFields(schema, fields, v, |v.slots|));
            var r := ParseFields(schema, fields, EmptySlots(|fields|), j, n);
            r.Ok? && r.value == FillSlots(schema, fields, v, n)
    decreases v, 0, n
  {
    var fields := FieldsOf(schema, name);
    if n > 0 {
      MessageBack(schema, name, v, n - 1);
      assert FieldsOk(fields);
      Lookup(schema, fields, v, |v.slots|, n - 1);
      var f, vs := fields[n - 1], v.slots[n - 1].values;
      if Shown(f, vs) {
        SlotBack(schema, f, vs);
      }
    }
  }

  // ------------------------------------------------------------ filling in

  lemma {:induction false} FillInitialized(schema: Schema, t: Type, v: Value)
    requires SchemaOk(schema) && Initialized(schema, t, v)
    ensures Initialized(schema, t, Fill(schema, t, v))
    decreases v, 1, 0
  {
    if IsMessage(schema, t, v) {
      FillSlotsInitialized(schema, t.name, v, Fill(schema, t, v), |v.slots|);
    }
  }

  lemma {:induction false} FillAllInitialized(schema: Schema, t: Type, vs: seq<Value>)
    requires SchemaOk(schema) && AllInitialized(schema, t, vs)
    ensures AllInitialized(schema, t, FillAll(schema, t, vs))
    decreases vs, 0
  {
    if vs != [] {
      FillInitialized(schema, t, vs[0]);
      FillAllInitialized(schema, t, vs[1..]);
      assert FillAll(schema, t, vs)[1..] == FillAll(schema, t, vs[1..]);
    }
  }

  lemma {:induction false} FillSlotAt(schema: Schema, fields: seq<Field>, v: Value, n: nat, i: nat)
    requires v.VMessage? && i < n <= |v.slots| && n <= |fields|
    ensures FillSlots(schema, fields, v, n)[i] == Slot(FillSlot(schema, fields[i], v.slots[i].values))
  {
    if i < n - 1 { FillSlotAt(schema, fields, v, n - 1, i); }
  }

  lemma {:induction false} FillSlotsInitialized(schema: Schema, name: string, v: Value, filled: Value, n: nat)
    requires SchemaOk(schema) && IsMessage(schema, Message(name), v) && n <= |v.slots|
    requires SlotsInitialized(schema, FieldsOf(schema, name), v, n) && filled == Fill(schema, Message(name), v)
    ensures SlotsInitialized(schema, FieldsOf(schema, name), filled, n)
    decreases v, 0, n
  {
    var fields := FieldsOf(schema, name);
    if n > 0 {
      FillSlotsInitialized(schema, name, v, filled, n - 1);
      FillSlotAt(schema, fields, v, |v.slots|, n - 1);
      var f, vs := fields[n - 1], v.slots[n - 1].values;
      FillAllInitialized(schema, f.typ, vs);
      if vs == [] && f.tag != Repeated && FillsIn(f) {
        assert FieldOk(f);
        assert Initialized(schema, f.typ, f.default.value);
        assert [f.default.value][1..] == [];
      }
    }
  }

  lemma {:induction false} FillPrints(schema: Schema, t: Type, v: Value)
    requires SchemaOk(schema)
    ensures PrintValue(schema, t, Fill(schema, t, v)) == PrintValue(schema, t, v)
    decreases v, 1, 0
  {
    if IsMessage(schema, t, v) {
      FillSlotsPrint(schema, t.name, v, Fill(schema, t, v), |v.slots|);
    }
  }

  lemma {:induction false} FillAllPrints(schema: Schema, t: Type, vs: seq<Value>)
    requires SchemaOk(schema)
    ensures PrintAll(schema, t, FillAll(schema, t, vs)) == PrintAll(schema, t, vs)
    decreases vs, 0
  {
    if vs != [] {
      FillPrints(schema, t, vs[0]);
      FillAllPrints(schema, t, vs[1..]);
      assert FillAll(schema, t, vs)[1..] == FillAll(schema, t, vs[1..]);
    }
  }

  /** A filled slot is shown when the slot is, and looks the same. */
  lemma {:induction false} FillSlotPrints(schema: Schema, f: Field, vs: seq<Value>)
    requires SchemaOk(schema) && FieldOk(f)
    ensures Shown(f, FillSlot(schema, f, vs)) <==> Shown(f, vs)
    ensures Shown(f, vs) ==> PrintSlot(schema, f, FillSlot(schema, f, vs)) == PrintSlot(schema, f, vs)
    decreases vs, 1
  {
    if vs != [] {
      FillAllPrints(schema, f.typ, vs);
      FillPrints(schema, f.typ, vs[0]);
    }
  }

  lemma {:induction false} FillSlotsPrint(schema: Schema, name: string, v: Value, filled: Value, n: nat)
    requires SchemaOk(schema) && IsMessage(schema, Message(name), v) && n <= |v.slots|
    requires filled == Fill(schema, Message(name), v)
    ensures PrintFields(schema, FieldsOf(schema, name), filled, n) == PrintFields(schema, FieldsOf(schema, name), v, n)
    decreases v, 0, n
  {
    var fields := FieldsOf(schema, name);
    if n > 0 {
      FillSlotsPrint(schema, name, v, filled, n - 1);
      FillSlotAt(schema, fields, v, |v.slots|, n - 1);
      assert FieldsOk(fields);
      FillSlotPrints(schema, fields[n - 1], v.slots[n - 1].values);
    }
  }

  // ------------------------------------------------------------ the round trip

  /**
   Parsing the JSON of any initialized message gives the message with its defaults filled in, all the way down except
   where they are deprecated; and that message has the same JSON.
   */
  lemma {:induction false} RoundTrip(schema: Schema, name: string, v: Value)
    requires SchemaOk(schema) && IsMessage(schema, Message(name), v)
    requires Typed(schema, Message(name), v) && Initialized(schema, Message(name), v)
    ensures Parse(schema, name, PrintValue(schema, Message(name), v)) == Ok(Fill(schema, Message(name), v))
    ensures PrintValue(schema, Message(name), Fill(schema, Message(name), v)) == PrintValue(schema, Message(name), v)
  {
    MessageBack(schema, name, v, |v.slots|);
    FillInitialized(schema, Message(name), v);
    FillPrints(schema, Message(name), v);
  }

  // ------------------------------------------------------------ what parsing accepts

  lemma {:induction false} FoundIsNamed(values: seq<EnumValue>, name: string)
    requires FindByName(values, name).Some?
    ensures NameOf(values, FindByName(values, name).value).Some?
  {
    if values[0].name != name { FoundIsNamed(values[1..], name); }
  }

  lemma {:induction false} ParsedScalarTyped(schema: Schema, t: Type, j: Json)
    requires ParseScalar(t, j).Ok?
    ensures Typed(schema, t, ParseScalar(t, j).value)
  {
    if j.JString? && t.Enum? { FoundIsNamed(t.values, j.s); }
  }

  ghost predicate SlotTyped(schema: Schema, f: Field, vs: seq<Value>) {
    (f.tag == Repeated || |vs| <= 1) && AllTyped(schema, f.typ, vs)
  }

  lemma {:induction false} AppendTyped(schema: Schema, t: Type, vs: seq<Value>, v: Value)
    requires AllTyped(schema, t, vs) && Typed(schema, t, v)
    ensures AllTyped(schema, t, vs + [v])
    decreases vs
  {
    if vs != [] {
      AppendTyped(schema, t, vs[1..], v);
      assert (vs + [v])[1..] == vs[1..] + [v];
    }
  }

  lemma {:induction false} PutTyped(schema: Schema, f: Field, vs: seq<Value>, v: Value)
    requires SlotTyped(schema, f, vs) && Typed(schema, f.typ, v)
    ensures SlotTyped(schema, f, Put(f, vs, v))
  {
    AppendTyped(schema, f.typ, vs, v);
    assert [v][1..] == [];
  }

  ghost predicate AllSlotsTyped(schema: Schema, fields: seq<Field>, slots: seq<Slot>) {
    |slots| == |fields| && forall i :: 0 <= i < |slots| ==> SlotTyped(schema, fields[i], slots[i].values)
  }

  lemma {:induction false} SlotsTypedAll(schema: Schema, fields: seq<Field>, v: Value, n: nat)
    requires v.VMessage? && n <= |v.slots| == |fields|
    ensures SlotsTyped(schema, fields, v, n) <==>
            forall i :: 0 <= i < n ==> SlotTyped(schema, fields[i], v.slots[i].values)
  {
    if n > 0 { SlotsTypedAll(schema, fields, v, n - 1); }
  }

  lemma {:induction false} MutableTyped(schema: Schema, f: Field, vs: seq<Value>)
    requires f.typ.Message? && (vs == [] || SlotTyped(schema, f, vs))
    ensures AllSlotsTyped(schema, FieldsOf(schema, f.typ.name), Mutable(schema, f.typ.name, vs))
  {
    var fields := FieldsOf(schema, f.typ.name);
    if |vs| == 1 && vs[0].VMessage? && |vs[0].slots| == |fields| {
      assert Typed(schema, f.typ, vs[0]) && IsMessage(schema, f.typ, vs[0]);
      SlotsTypedAll(schema, fields, vs[0], |fields|);
    }
  }

  lemma {:induction false} ApplyTyped(schema: Schema, f: Field, vs: seq<Value>, j: Json)
    requires SlotTyped(schema, f, vs) && Apply(schema, f, vs, j).Ok?
    ensures SlotTyped(schema, f, Apply(schema, f, vs, j).value)
    decreases j, 1, 0
  {
    match j
    case JNull =>
    case JArray(items) => ApplyAllTyped(schema, f, vs, items);
    case JObject(_) =>
      var fields := FieldsOf(schema, f.typ.name);
      var was := if f.tag == Repeated then [] else vs;
      var base := Mutable(schema, f.typ.name, was);
      MutableTyped(schema, f, was);
      ParseTyped(schema, fields, base, j, |base|);
      var m := VMessage(ParseFields(schema, fields, base, j, |base|).value);
      SlotsTypedAll(schema, fields, m, |fields|);
      PutTyped(schema, f, vs, m);
    case _ =>
      ParsedScalarTyped(schema, f.typ, j);
      PutTyped(schema, f, vs, ParseScalar(f.typ, j).value);
  }

  lemma {:induction false} ApplyAllTyped(schema: Schema, f: Field, vs: seq<Value>, items: seq<Json>)
    requires SlotTyped(schema, f, vs) && ApplyAll(schema, f, vs, items).Ok?
    ensures SlotTyped(schema, f, ApplyAll(schema, f, vs, items).value)
    decreases items
  {
    if items != [] {
      ApplyTyped(schema, f, vs, items[0]);
      ApplyAllTyped(schema, f, Apply(schema, f, vs, items[0]).value, items[1..]);
    }
  }

  lemma {:induction false} ParseTyped(schema: Schema, fields: seq<Field>, slots: seq<Slot>, j: Json, n: nat)
    requires j.JObject? && AllSlotsTyped(schema, fields, slots) && n <= |fields|
    requires ParseFields(schema, fields, slots, j, n).Ok?
    ensures var r := ParseFields(schema, fields, slots, j, n).value;
            forall i :: 0 <= i < n ==> SlotTyped(schema, fields[i], r[i].values)
    decreases j, 0, n
  {
    if n > 0 {
      var f, vs := fields[n - 1], slots[n - 1].values;
      ParseTyped(schema, fields, slots, j, n - 1);
      if f.name in j.members { ApplyTyped(schema, f, vs, j.members[f.name]); }
    }
  }

  /** Whatever JSON is accepted, the message is of its type and initialized, and filling it in twice is once enough. */
  lemma {:induction false} ParsedIsTyped(schema: Schema, name: string, j: Json)
    requires Parse(schema, name, j).Ok?
    ensures var v := Parse(schema, name, j).value;
            && IsMessage(schema, Message(name), v)
            && Typed(schema, Message(name), v) && Initialized(schema, Message(name), v)
  {
    var fields := FieldsOf(schema, name);
    ParseTyped(schema, fields, EmptySlots(|fields|), j, |fields|);
    SlotsTypedAll(schema, fields, Parse(schema, name, j).value, |fields|);
  }

  /** Printing and parsing an accepted message any number of times gives its filled-in form. */
  lemma {:induction false} FillIsIdempotent(schema: Schema, name: string, v: Value)
    requires SchemaOk(schema) && IsMessage(schema, Message(name), v)
    requires Typed(schema, Message(name), v) && Initialized(schema, Message(name), v)
    ensures var t := Message(name); Fill(schema, t, Fill(schema, t, v)) == Fill(schema, t, v)
  {
    var filled := Fill(schema, Message(name), v);
    RoundTrip(schema, name, v);
    ParsedIsTyped(schema, name, PrintValue(schema, Message(name), v));
    RoundTrip(schema, name, filled);
  }

  // ------------------------------------------------------------ the code

  lemma {:induction false} PrintAllNext(schema: Schema, t: Type, vs: seq<Value>, v: Value)
    ensures PrintAll(schema, t, vs + [v]) == PrintAll(schema, t, vs) + [PrintValue(schema, t, v)]
  {
    if vs == [] {
      assert ([] + [v])[1..] == [] && ([] + [v])[0] == v;
    } else {
      assert (vs + [v])[1..] == vs[1..] + [v];
      PrintAllNext(schema, t, vs[1..], v);
    }
  }

  /** The loop over the elements of a repeated field. */
  method PrintArray(schema: Schema, t: Type, vs: seq<Value>) returns (items: seq<Json>)
    ensures items == PrintAll(schema, t, vs)
  {
    items := [];
    for i := 0 to |vs|
      invariant items == PrintAll(schema, t, vs[..i])
    {
      PrintAllNext(schema, t, vs[..i], vs[i]);
      assert vs[..i + 1] == vs[..i] + [vs[i]];
      items := items + [PrintValue(schema, t, vs[i])];
    }
    assert vs[..|vs|] == vs;
  }

  /** `JSON::protobuf`: the loop that picks the fields to show, and the loop that shows them. */
  method PrintMessage(schema: Schema, name: string, v: Value) returns (members: map<string, Json>)
    requires IsMessage(schema, Message(name), v)
    ensures PrintValue(schema, Message(name), v) == JObject(members)
  {
    var fields := FieldsOf(schema, name);
    var shown := PickFields(fields, v);
    members := map[];
    for k := 0 to |shown|
      invariant members == PrintFields(schema, fields, v, if k == 0 then 0 else shown[k - 1] + 1)
    {
      var i := shown[k];
      PrintGap(schema, fields, v, if k == 0 then 0 else shown[k - 1] + 1, i);
      var f, vs := fields[i], v.slots[i].values;
      if f.tag == Repeated {
        var items := PrintArray(schema, f.typ, vs);
        members := members[f.name := JArray(items)];
      } else {
        members := members[f.name := PrintSlot(schema, f, vs)];
      }
    }
    PrintGap(schema, fields, v, if shown == [] then 0 else shown[|shown| - 1] + 1, |fields|);
  }

  ghost predicate Picked(fields: seq<Field>, v: Value, shown: seq<nat>, n: nat)
    requires v.VMessage? && n <= |v.slots| == |fields|
  {
    && (forall k :: 0 <= k < |shown| ==> shown[k] < n && Shown(fields[shown[k]], v.slots[shown[k]].values))
    && (forall k, l :: 0 <= k < l < |shown| ==> shown[k] < shown[l])
    && (forall i :: 0 <= i < n && Shown(fields[i], v.slots[i].values) ==> i in shown)
  }

  method PickFields(fields: seq<Field>, v: Value) returns (shown: seq<nat>)
    requires v.VMessage? && |v.slots| == |fields|
    ensures Picked(fields, v, shown, |fields|)
  {
    shown := [];
    for i := 0 to |fields|
      invariant Picked(fields, v, shown, i)
    {
      var f, vs := fields[i], v.slots[i].values;
      if f.tag == Repeated {
        if |vs| > 0 {
          shown := shown + [i];
        }
      } else if vs != [] || (f.default.Some? && !f.deprecated) {
        shown := shown + [i];
      }
    }
  }

  /** Fields that are not shown leave no trace. */
  lemma {:induction false} PrintGap(schema: Schema, fields: seq<Field>, v: Value, m: nat, n: nat)
    requires v.VMessage? && m <= n <= |v.slots| && |v.slots| == |fields|
    requires forall i :: m <= i < n ==> !Shown(fields[i], v.slots[i].values)
    ensures PrintFields(schema, fields, v, n) == PrintFields(schema, fields, v, m)
    decreases n - m
  {
    if m < n { PrintGap(schema, fields, v, m, n - 1); }
  }

  /** The loop over the elements of an array. */
  method ApplyArray(schema: Schema, f: Field, vs: seq<Value>, items: seq<Json>) returns (r: Try<seq<Value>>)
    ensures r == ApplyAll(schema, f, vs, items)
  {
    var values := vs;
    for i := 0 to |items|
      invariant ApplyAll(schema, f, values, items[i..]) == ApplyAll(schema, f, vs, items)
    {
      assert items[i..][1..] == items[i + 1..];
      var one := Apply(schema, f, values, items[i]);
      if one.Error? {
        return Error;
      }
      values := one.value;
    }
    r := Ok(values);
  }

  /** `FindFieldByName` */
  method FindField(fields: seq<Field>, name: string) returns (i: Option<nat>)
    ensures i.Some? ==> i.value < |fields| && fields[i.value].name == name
    ensures i.None? ==> forall k :: 0 <= k < |fields| ==> fields[k].name != name
  {
    for k := 0 to |fields|
      invariant forall l :: 0 <= l < k ==> fields[l].name != name
    {
      if fields[k].name == name {
        return Some(k);
      }
    }
    i := None;
  }

  /** The slots when the members in `done` have been read, and no others. */
  ghost predicate ReadSoFar(schema: Schema, fields: seq<Field>, base: seq<Slot>, j: Json, done: set<string>, slots: seq<Slot>)
    requires j.JObject? && |base| == |fields|
  {
    && |slots| == |fields| && done <= j.members.Keys
    && (forall i :: 0 <= i < |fields| && fields[i].name !in done ==> slots[i] == base[i])
    && (forall i :: 0 <= i < |fields| && fields[i].name in done ==>
          Apply(schema, fields[i], base[i].values, j.members[fields[i].name]) == Ok(slots[i].values))
  }

  lemma {:induction false} AllRead(schema: Schema, fields: seq<Field>, base: seq<Slot>, j: Json, slots: seq<Slot>, n: nat)
    requires j.JObject? && |base| == |fields| && n <= |fields|
    requires ReadSoFar(schema, fields, base, j, j.members.Keys, slots)
    ensures var r := ParseFields(schema, fields, base, j, n); r.Ok? && r.value == slots[..n]
  {
    if n > 0 { AllRead(schema, fields, base, j, slots, n - 1); }
  }

  lemma {:induction false} OneFails(schema: Schema, fields: seq<Field>, base: seq<Slot>, j: Json, i: nat, n: nat)
    requires j.JObject? && |base| == |fields| && i < n <= |fields| && fields[i].name in j.members
    requires Apply(schema, fields[i], base[i].values, j.members[fields[i].name]).Error?
    ensures ParseFields(schema, fields, base, j, n).Error?
  {
    if i < n - 1 { OneFails(schema, fields, base, j, i, n - 1); }
  }

  /** `internal::parse`: the loop over the members of the object. Their order makes no difference. */
  method ParseMembers(schema: Schema, name: string, base: seq<Slot>, j: Json) returns (r: Try<seq<Slot>>)
    requires SchemaOk(schema) && j.JObject? && |base| == |FieldsOf(schema, name)|
    ensures r.Error? <==> ParseFields(schema, FieldsOf(schema, name), base, j, |base|).Error?
    ensures r.Ok? ==> r.value == ParseFields(schema, FieldsOf(schema, name), base, j, |base|).value
  {
    var fields, slots, left := FieldsOf(schema, name), base, j.members.Keys;
    while left != {}
      invariant left <= j.members.Keys
      invariant ReadSoFar(schema, fields, base, j, j.members.Keys - left, slots)
      decreases left
    {
      var key :| key in left;
      var i := FindField(fields, key);
      if i.Some? {
        var field := fields[i.value];
        var one := Apply(schema, field, slots[i.value].values, j.members[key]);
        if one.Error? {
          OneFails(schema, fields, base, j, i.value, |fields|);
          return Error;
        }
        DistinctFields(schema, name, i.value);
        slots := slots[i.value := Slot(one.value)];
      }
      left := left - {key};
    }
    assert j.members.Keys - left == j.members.Keys;
    AllRead(schema, fields, base, j, slots, |fields|);
    assert slots[..|fields|] == slots;
    r := Ok(slots);
  }

  lemma {:induction false} DistinctFields(schema: Schema, name: string, i: nat)
    requires SchemaOk(schema) && i < |FieldsOf(schema, name)|
    ensures forall k :: 0 <= k < |FieldsOf(schema, name)| && k != i ==>
              FieldsOf(schema, name)[k].name != FieldsOf(schema, name)[i].name
  {
    assert FieldsOk(FieldsOf(schema, name));
  }
}
