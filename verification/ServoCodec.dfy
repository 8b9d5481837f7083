/** PDO entries and the servo profile: writing target values into a PDO buffer and reading actual
    values from one. Real arithmetic stands for double. */
module ServoCodec {
  import opened Wrappers
  import opened SiiBytes

  /** A named range of bytes in a PDO buffer. */
  datatype PdoEntry = PdoEntry(name: string, offset: int, size: int)

  datatype PdoMapping = PdoMapping(outputBytes: int, inputBytes: int, outputs: seq<PdoEntry>, inputs: seq<PdoEntry>)

  datatype AxisConfig = AxisConfig(positionScale: real, velocityScale: real, torqueScale: real, direction: int)

  datatype Motion = Motion(position: real, velocity: real, torque: real)

  // ---------- Entries in a buffer ----------

  function FindEntry(entries: seq<PdoEntry>, name: string): Option<PdoEntry> {
    if entries == [] then None
    else if entries[0].name == name then Some(entries[0])
    else FindEntry(entries[1..], name)
  }

  lemma {:induction false} FoundEntryIsFirst(entries: seq<PdoEntry>, name: string)
    ensures FindEntry(entries, name).None? <==> forall i | 0 <= i < |entries| :: entries[i].name != name
    ensures FindEntry(entries, name).Some? ==>
              exists i :: 0 <= i < |entries| && entries[i] == FindEntry(entries, name).value && entries[i].name == name
                          && forall j | 0 <= j < i :: entries[j].name != name
    decreases |entries|
  {
    if entries != [] && entries[0].name != name {
      var rest := entries[1..];
      FoundEntryIsFirst(rest, name);
      if FindEntry(rest, name).Some? {
        var i :| 0 <= i < |rest| && rest[i] == FindEntry(rest, name).value && rest[i].name == name
                 && forall j | 0 <= j < i :: rest[j].name != name;
        assert entries[i + 1] == rest[i];
        forall j | 0 <= j < i + 1 ensures entries[j].name != name {
          if j > 0 { assert entries[j] == rest[j - 1]; }
        }
      }
      if FindEntry(rest, name).None? {
        forall j | 0 <= j < |entries| ensures entries[j].name != name {
          if j > 0 { assert entries[j] == rest[j - 1]; }
        }
      }
    }
  }

  method FindEntryByLoop(entries: seq<PdoEntry>, name: string) returns (entry: Option<PdoEntry>)
    ensures entry == FindEntry(entries, name)
  {
    for i := 0 to |entries|
      invariant FindEntry(entries, name) == FindEntry(entries[i..], name)
    {
      assert entries[i..][1..] == entries[i + 1..];
      if entries[i].name == name {
        return Some(entries[i]);
      }
    }
    return None;
  }

  /** The range of an entry lies inside a buffer of this length. */
  predicate Inside(entry: PdoEntry, length: nat) {
    0 <= entry.offset && 0 <= entry.size && entry.offset + entry.size <= length
  }

  predicate AllInside(entries: seq<PdoEntry>, length: nat) {
    forall i | 0 <= i < |entries| :: Inside(entries[i], length)
  }

  lemma {:induction false} FoundInside(entries: seq<PdoEntry>, name: string, length: nat)
    requires AllInside(entries, length)
    ensures FindEntry(entries, name).Some? ==> Inside(FindEntry(entries, name).value, length)
    decreases |entries|
  {
    if entries != [] && entries[0].name != name { FoundInside(entries[1..], name, length); }
  }

  /** Two's complement, little-endian. */
  function Int32Bytes(v: int): seq<byte> { U32(v % 0x1_0000_0000) }

  function Int16Bytes(v: int): seq<byte> { U16(v % 0x1_0000) }

  function ReadInt32(data: seq<byte>, offset: nat): int
    requires offset + 4 <= |data|
  {
    var u := ReadU32(data, offset);
    if u < 0x8000_0000 then u else u - 0x1_0000_0000
  }

  function ReadInt16(data: seq<byte>, offset: nat): int
    requires offset + 2 <= |data|
  {
    var u := ReadU16(data, offset);
    if u < 0x8000 then u else u - 0x1_0000
  }

  predicate FitsInt32(v: int) { -0x8000_0000 <= v < 0x8000_0000 }

  predicate FitsInt16(v: int) { -0x8000 <= v < 0x8000 }

  lemma Int32RoundTrip(data: seq<byte>, offset: nat, v: int)
    requires FitsInt32(v) && At(data, offset, Int32Bytes(v))
    ensures ReadInt32(data, offset) == v
  {
    ReadWritten32(data, offset, v % 0x1_0000_0000);
  }

  lemma Int16RoundTrip(data: seq<byte>, offset: nat, v: int)
    requires FitsInt16(v) && At(data, offset, Int16Bytes(v))
    ensures ReadInt16(data, offset) == v
  {
    ReadWritten16(data, offset, v % 0x1_0000);
  }

  /** memcpy of a value into its entry; nothing without an entry of exactly that size. */
  function WriteRaw(buffer: seq<byte>, entry: Option<PdoEntry>, bytes: seq<byte>): (r: seq<byte>)
    requires entry.Some? ==> Inside(entry.value, |buffer|)
    ensures |r| == |buffer|
  {
    if entry.None? || entry.value.size != |bytes| then buffer else Patch(buffer, entry.value.offset, bytes)
  }

  // ---------- The profile ----------

  /** static_cast from a real to an integer type: truncation toward zero. */
  function Truncate(x: real): int {
    if x >= 0.0 then x.Floor else -((-x).Floor)
  }

  /** The raw value of a target; 0 for a zero scale. */
  function Raw(target: real, scale: real, direction: int): int {
    if scale == 0.0 then 0 else Truncate(target / scale * direction as real)
  }

  function Physical(raw: int, scale: real, direction: int): real {
    raw as real * scale * direction as real
  }

  function EncodeOutputs(config: AxisConfig, target: Motion, outputs: seq<PdoEntry>, buffer: seq<byte>): (r: seq<byte>)
    requires AllInside(outputs, |buffer|)
    ensures |r| == |buffer|
  {
    FoundInside(outputs, "target_position", |buffer|);
    FoundInside(outputs, "target_velocity", |buffer|);
    FoundInside(outputs, "target_torque", |buffer|);
    var b1 := WriteRaw(buffer, FindEntry(outputs, "target_position"),
        Int32Bytes(Raw(target.position, config.positionScale, config.direction)));
    var b2 := WriteRaw(b1, FindEntry(outputs, "target_velocity"),
        Int32Bytes(Raw(target.velocity, config.velocityScale, config.direction)));
    WriteRaw(b2, FindEntry(outputs, "target_torque"),
        Int16Bytes(Raw(target.torque, config.torqueScale, config.direction)))
  }

  function RawInput32(inputs: seq<PdoEntry>, name: string, buffer: seq<byte>): int
    requires AllInside(inputs, |buffer|)
  {
    FoundInside(inputs, name, |buffer|);
    var entry := FindEntry(inputs, name);
    if entry.Some? && entry.value.size == 4 then ReadInt32(buffer, entry.value.offset) else 0
  }

  function RawInput16(inputs: seq<PdoEntry>, name: string, buffer: seq<byte>): int
    requires AllInside(inputs, |buffer|)
  {
    FoundInside(inputs, name, |buffer|);
    var entry := FindEntry(inputs, name);
    if entry.Some? && entry.value.size == 2 then ReadInt16(buffer, entry.value.offset) else 0
  }

  function DecodeInputs(config: AxisConfig, inputs: seq<PdoEntry>, buffer: seq<byte>): Motion
    requires AllInside(inputs, |buffer|)
  {
    Motion(Physical(RawInput32(inputs, "position_actual_value", buffer), config.positionScale, config.direction),
           Physical(RawInput32(inputs, "velocity_actual_value", buffer), config.velocityScale, config.direction),
           Physical(RawInput16(inputs, "torque_actual_value", buffer), config.torqueScale, config.direction))
  }

  // ---------- Scaling ----------

  function Abs(x: real): real { if x >= 0.0 then x else -x }

  lemma TruncateError(x: real)
    ensures Abs(x - Truncate(x) as real) < 1.0
    ensures Abs(Truncate(x) as real) <= Abs(x)
    ensures Truncate(x) as real == x <==> x.Floor as real == x
  {
    if x < 0.0 {
      var f := (-x).Floor;
      assert f as real <= -x < f as real + 1.0;
      if x.Floor as real == x { assert (-x).Floor == -(x.Floor); }
      if (-(f)) as real == x { assert x.Floor == -f; }
    }
  }

  lemma Quotient(target: real, scale: real)
    requires scale != 0.0
    ensures target / scale * scale == target
  {
  }

  lemma AbsProduct(a: real, b: real)
    ensures Abs(a * b) == Abs(a) * Abs(b)
  {
    if a >= 0.0 && b >= 0.0 { assert a * b >= 0.0; }
    else if a >= 0.0 { assert a * (-b) >= 0.0; }
    else if b >= 0.0 { assert (-a) * b >= 0.0; }
    else { assert (-a) * (-b) >= 0.0; }
  }

  lemma SmallFactor(a: real, b: real)
    requires 0.0 <= a < 1.0 && b > 0.0
    ensures a * b < b
  {
    assert (1.0 - a) * b > 0.0;
    assert (1.0 - a) * b == b - a * b;
  }

  lemma Distribute(a: real, b: real, c: real)
    ensures (a - b) * c == a * c - b * c
  {
  }

  /** A target of q units, sent as r units. */
  lemma UnitsError(q: real, r: real, scale: real)
    requires scale != 0.0 && Abs(q - r) < 1.0
    ensures Abs(q * scale - r * scale) < Abs(scale)
  {
    Distribute(q, r, scale);
    SmallProduct(q - r, scale, q * scale - r * scale);
  }

  lemma SmallProduct(e: real, s: real, product: real)
    requires product == e * s && Abs(e) < 1.0 && s != 0.0
    ensures Abs(product) < Abs(s)
  {
    hide Abs;
    AbsProduct(e, s);
    AbsSign(e);
    AbsSign(s);
    SmallFactor(Abs(e), Abs(s));
  }

  lemma AbsSign(x: real)
    ensures Abs(x) >= 0.0 && (x != 0.0 ==> Abs(x) > 0.0)
  {
  }

  lemma UnitsExact(q: real, r: real, scale: real)
    requires scale != 0.0
    ensures q * scale == r * scale <==> q == r
  {
    Distribute(q, r, scale);
    if q != r { assert (q - r) * scale != 0.0; }
  }

  lemma Signs(x: real, scale: real)
    ensures x * 1.0 == x && x * -1.0 == -x && x * scale * 1.0 == x * scale && x * scale * -1.0 == -x * scale
  {
  }

  /** For direction 1 or -1 a value comes back within one scale unit, and exactly when it is a
      multiple of the scale. */
  lemma ScalingError(target: real, scale: real, direction: int)
    requires scale != 0.0 && (direction == 1 || direction == -1)
    ensures var back := Physical(Raw(target, scale, direction), scale, direction);
            && Abs(target - back) < Abs(scale)
            && (back == target <==> (target / scale).Floor as real == target / scale)
  {
    var q := target / scale;
    Quotient(target, scale);
    if direction == 1 {
      ForwardError(q, scale, target);
    } else {
      BackwardError(q, scale, target);
    }
  }

  lemma ForwardError(q: real, scale: real, target: real)
    requires scale != 0.0 && target == q * scale && q == target / scale
    ensures var back := Physical(Raw(target, scale, 1), scale, 1);
            Abs(target - back) < Abs(scale) && (back == target <==> q.Floor as real == q)
  {
    hide Truncate;
    hide Abs;
    var r := Truncate(q) as real;
    Signs(q, scale);
    Signs(r, scale);
    assert Physical(Raw(target, scale, 1), scale, 1) == r * scale;
    TruncateError(q);
    UnitsError(q, r, scale);
    UnitsExact(q, r, scale);
  }

  lemma BackwardError(q: real, scale: real, target: real)
    requires scale != 0.0 && target == q * scale && q == target / scale
    ensures var back := Physical(Raw(target, scale, -1), scale, -1);
            Abs(target - back) < Abs(scale) && (back == target <==> q.Floor as real == q)
  {
    hide Truncate;
    hide Abs;
    var r := -(Truncate(-q) as real);
    Signs(q, scale);
    Signs(-r, scale);
    assert Physical(Raw(target, scale, -1), scale, -1) == r * scale;
    TruncateError(-q);
    AbsNegation(-q - -r);
    assert -(-q - -r) == q - r;
    IntegerNegation(q);
    UnitsError(q, r, scale);
    UnitsExact(q, r, scale);
  }

  lemma AbsNegation(x: real)
    ensures Abs(-x) == Abs(x)
  {
  }

  lemma IntegerNegation(q: real)
    ensures (-q).Floor as real == -q <==> q.Floor as real == q
  {
    if q.Floor as real == q { assert (-q).Floor == -(q.Floor); }
    if (-q).Floor as real == -q { assert q.Floor == -((-q).Floor); }
  }

  lemma ZeroScale(target: real, direction: int)
    ensures Physical(Raw(target, 0.0, direction), 0.0, direction) == 0.0
  {
  }

  // ---------- The loop-back theorem ----------

  predicate Disjoint(a: PdoEntry, b: PdoEntry) { a.offset + a.size <= b.offset || b.offset + b.size <= a.offset }

  /** The three commands have entries of their sizes that do not overlap, and each feedback value is
      read from where its command is written. */
  predicate LoopBackMapping(m: PdoMapping) {
    var p, v, t := FindEntry(m.outputs, "target_position"), FindEntry(m.outputs, "target_velocity"),
        FindEntry(m.outputs, "target_torque");
    var p', v', t' := FindEntry(m.inputs, "position_actual_value"), FindEntry(m.inputs, "velocity_actual_value"),
        FindEntry(m.inputs, "torque_actual_value");
    && p.Some? && v.Some? && t.Some? && p'.Some? && v'.Some? && t'.Some?
    && p.value.size == p'.value.size == 4 && v.value.size == v'.value.size == 4 && t.value.size == t'.value.size == 2
    && p.value.offset == p'.value.offset && v.value.offset == v'.value.offset && t.value.offset == t'.value.offset
    && Disjoint(p.value, v.value) && Disjoint(p.value, t.value) && Disjoint(v.value, t.value)
  }

  predicate InRange(config: AxisConfig, target: Motion) {
    && FitsInt32(Raw(target.position, config.positionScale, config.direction))
    && FitsInt32(Raw(target.velocity, config.velocityScale, config.direction))
    && FitsInt16(Raw(target.torque, config.torqueScale, config.direction))
  }

  /** Writing one entry leaves the bytes of every entry disjoint from it unchanged. */
  lemma WriteKeepsOthers(buffer: seq<byte>, entry: PdoEntry, bytes: seq<byte>, other: PdoEntry)
    requires Inside(entry, |buffer|) && Inside(other, |buffer|) && Disjoint(entry, other)
    ensures WriteRaw(buffer, Some(entry), bytes)[other.offset..other.offset + other.size] ==
            buffer[other.offset..other.offset + other.size]
  {
    if entry.size == |bytes| {
      PatchKeepsPart(buffer, entry.offset, bytes, other.offset, buffer[other.offset..other.offset + other.size]);
    }
  }

  lemma Written(buffer: seq<byte>, entry: PdoEntry, bytes: seq<byte>)
    requires Inside(entry, |buffer|) && entry.size == |bytes|
    ensures At(WriteRaw(buffer, Some(entry), bytes), entry.offset, bytes)
  {
  }

  /** The entry lies inside the data and holds these bytes. */
  predicate Holds(data: seq<byte>, entry: PdoEntry, bytes: seq<byte>) {
    Inside(entry, |data|) && entry.size == |bytes| && At(data, entry.offset, bytes)
  }

  /** All three entries hold their values after encoding: a later write does not disturb an earlier one. */
  lemma EncodedValues(config: AxisConfig, target: Motion, m: PdoMapping, buffer: seq<byte>)
    requires AllInside(m.outputs, |buffer|) && LoopBackMapping(m)
    ensures var r := EncodeOutputs(config, target, m.outputs, buffer);
            && Holds(r, FindEntry(m.outputs, "target_position").value,
                Int32Bytes(Raw(target.position, config.positionScale, config.direction)))
            && Holds(r, FindEntry(m.outputs, "target_velocity").value,
                Int32Bytes(Raw(target.velocity, config.velocityScale, config.direction)))
            && Holds(r, FindEntry(m.outputs, "target_torque").value,
                Int16Bytes(Raw(target.torque, config.torqueScale, config.direction)))
  {
    hide Raw;
    FoundInside(m.outputs, "target_position", |buffer|);
    FoundInside(m.outputs, "target_velocity", |buffer|);
    FoundInside(m.outputs, "target_torque", |buffer|);
    var p, v, t := FindEntry(m.outputs, "target_position").value, FindEntry(m.outputs, "target_velocity").value,
        FindEntry(m.outputs, "target_torque").value;
    var x := Int32Bytes(Raw(target.position, config.positionScale, config.direction));
    var y := Int32Bytes(Raw(target.velocity, config.velocityScale, config.direction));
    var z := Int16Bytes(Raw(target.torque, config.torqueScale, config.direction));
    ThreeWrites(buffer, p, v, t, x, y, z);
  }

  lemma ThreeWrites(buffer: seq<byte>, p: PdoEntry, v: PdoEntry, t: PdoEntry, x: seq<byte>, y: seq<byte>, z: seq<byte>)
    requires Inside(p, |buffer|) && Inside(v, |buffer|) && Inside(t, |buffer|)
    requires |x| == p.size && |y| == v.size && |z| == t.size
    requires Disjoint(p, v) && Disjoint(p, t) && Disjoint(v, t)
    ensures var r := WriteRaw(WriteRaw(WriteRaw(buffer, Some(p), x), Some(v), y), Some(t), z);
            Holds(r, p, x) && Holds(r, v, y) && Holds(r, t, z)
  {
    var b1 := WriteRaw(buffer, Some(p), x);
    var b2 := WriteRaw(b1, Some(v), y);
    Written(buffer, p, x);
    Written(b1, v, y);
    Written(b2, t, z);
    PatchKeepsPart(b1, v.offset, y, p.offset, x);
    PatchKeepsPart(b2, t.offset, z, p.offset, x);
    PatchKeepsPart(b2, t.offset, z, v.offset, y);
  }

  /** Decoding an encoded buffer reads back exactly the raw values that were sent. */
  lemma RawLoopBack(config: AxisConfig, target: Motion, m: PdoMapping, buffer: seq<byte>)
    requires AllInside(m.outputs, |buffer|) && AllInside(m.inputs, |buffer|) && LoopBackMapping(m)
        && InRange(config, target)
    ensures var r := EncodeOutputs(config, target, m.outputs, buffer);
            && RawInput32(m.inputs, "position_actual_value", r) ==
                Raw(target.position, config.positionScale, config.direction)
            && RawInput32(m.inputs, "velocity_actual_value", r) ==
                Raw(target.velocity, config.velocityScale, config.direction)
            && RawInput16(m.inputs, "torque_actual_value", r) ==
                Raw(target.torque, config.torqueScale, config.direction)
  {
    hide Raw;
    hide EncodeOutputs;
    var r := EncodeOutputs(config, target, m.outputs, buffer);
    EncodedValues(config, target, m, buffer);
    FoundInside(m.inputs, "position_actual_value", |r|);
    FoundInside(m.inputs, "velocity_actual_value", |r|);
    FoundInside(m.inputs, "torque_actual_value", |r|);
    Int32RoundTrip(r, FindEntry(m.inputs, "position_actual_value").value.offset,
        Raw(target.position, config.positionScale, config.direction));
    Int32RoundTrip(r, FindEntry(m.inputs, "velocity_actual_value").value.offset,
        Raw(target.velocity, config.velocityScale, config.direction));
    Int16RoundTrip(r, FindEntry(m.inputs, "torque_actual_value").value.offset,
        Raw(target.torque, config.torqueScale, config.direction));
  }

  /** One axis value, sent and read back: within one scale unit, exact for multiples of the scale; a
      zero scale reads back 0. */
  predicate ReadsBack(sent: real, back: real, scale: real) {
    if scale == 0.0 then back == 0.0
    else Abs(sent - back) < Abs(scale) && (back == sent <==> (sent / scale).Floor as real == sent / scale)
  }

  lemma ServoLoopBack(config: AxisConfig, target: Motion, m: PdoMapping, buffer: seq<byte>)
    requires AllInside(m.outputs, |buffer|) && AllInside(m.inputs, |buffer|) && LoopBackMapping(m)
        && InRange(config, target)
    requires config.direction == 1 || config.direction == -1
    ensures var back := DecodeInputs(config, m.inputs, EncodeOutputs(config, target, m.outputs, buffer));
            && ReadsBack(target.position, back.position, config.positionScale)
            && ReadsBack(target.velocity, back.velocity, config.velocityScale)
            && ReadsBack(target.torque, back.torque, config.torqueScale)
  {
    hide ReadsBack;
    hide Physical;
    hide Raw;
    hide RawInput32;
    hide RawInput16;
    hide EncodeOutputs;
    RawLoopBack(config, target, m, buffer);
    AxisClose(target.position, config.positionScale, config.direction);
    AxisClose(target.velocity, config.velocityScale, config.direction);
    AxisClose(target.torque, config.torqueScale, config.direction);
  }

  lemma AxisClose(sent: real, scale: real, direction: int)
    requires direction == 1 || direction == -1
    ensures ReadsBack(sent, Physical(Raw(sent, scale, direction), scale, direction), scale)
  {
    if scale == 0.0 { ZeroScale(sent, direction); } else { ScalingError(sent, scale, direction); }
  }

  /** Bytes outside the three command entries are never touched. */
  lemma EncodeKeepsRest(config: AxisConfig, target: Motion, outputs: seq<PdoEntry>, buffer: seq<byte>, other: PdoEntry)
    requires AllInside(outputs, |buffer|) && Inside(other, |buffer|)
    requires forall name | name in {"target_position", "target_velocity", "target_torque"} ::
               FindEntry(outputs, name).Some? ==> Disjoint(FindEntry(outputs, name).value, other)
    ensures EncodeOutputs(config, target, outputs, buffer)[other.offset..other.offset + other.size] ==
            buffer[other.offset..other.offset + other.size]
  {
    var p, v, t := FindEntry(outputs, "target_position"), FindEntry(outputs, "target_velocity"),
        FindEntry(outputs, "target_torque");
    FoundInside(outputs, "target_position", |buffer|);
    FoundInside(outputs, "target_velocity", |buffer|);
    FoundInside(outputs, "target_torque", |buffer|);
    var x := Int32Bytes(Raw(target.position, config.positionScale, config.direction));
    var y := Int32Bytes(Raw(target.velocity, config.velocityScale, config.direction));
    var z := Int16Bytes(Raw(target.torque, config.torqueScale, config.direction));
    hide Raw;
    hide Disjoint;
    var b1 := WriteRaw(buffer, p, x);
    var b2 := WriteRaw(b1, v, y);
    if p.Some? { WriteKeepsOthers(buffer, p.value, x, other); }
    if v.Some? { WriteKeepsOthers(b1, v.value, y, other); }
    if t.Some? { WriteKeepsOthers(b2, t.value, z, other); }
  }

  // ---------- On the wire ----------

  /** The raw value sent for a target counts scale units, rounded toward zero, with the sign of the direction; a value
      read is that many units with the same sign. */
  lemma RawMeaning(target: real, scale: real, direction: int)
    requires scale > 0.0 && (direction == 1 || direction == -1)
    ensures var raw, wanted := Raw(target, scale, direction) as real, target * direction as real;
            if wanted >= 0.0 then raw * scale <= wanted < raw * scale + scale
            else raw * scale - scale < wanted <= raw * scale
    ensures forall raw: int :: Physical(raw, scale, direction) == if direction == 1 then raw as real * scale
                                                                   else -(raw as real * scale)
  {
    hide Truncate;
    var x := target / scale * direction as real;
    Quotient(target, scale);
    Sides(target / scale, scale, direction);
    RawBetween(x, scale, target * direction as real);
    forall raw: int
      ensures Physical(raw, scale, direction) == if direction == 1 then raw as real * scale else -(raw as real * scale)
    {
      Signs(raw as real, scale);
    }
  }

  lemma RawBetween(x: real, scale: real, wanted: real)
    requires scale > 0.0 && x * scale == wanted
    ensures var raw := Truncate(x) as real;
            if wanted >= 0.0 then raw * scale <= wanted < raw * scale + scale
            else raw * scale - scale < wanted <= raw * scale
  {
    TruncateBetween(x);
    hide Truncate;
    SameSign(x, scale, wanted);
    BetweenScaled(x, Truncate(x) as real, scale, wanted);
  }

  lemma SameSign(x: real, scale: real, product: real)
    requires scale > 0.0 && x * scale == product
    ensures x >= 0.0 <==> product >= 0.0
  {
    if x < 0.0 { assert -x * scale > 0.0; }
  }

  lemma Sides(q: real, scale: real, direction: int)
    requires direction == 1 || direction == -1
    ensures q * direction as real * scale == q * scale * direction as real
  {
    Signs(q, scale);
  }

  lemma TruncateBetween(x: real)
    ensures x >= 0.0 ==> Truncate(x) as real <= x < Truncate(x) as real + 1.0
    ensures x < 0.0 ==> Truncate(x) as real - 1.0 < x <= Truncate(x) as real
  {
  }

  lemma BetweenScaled(x: real, r: real, scale: real, wanted: real)
    requires scale > 0.0 && x * scale == wanted
    ensures r <= x < r + 1.0 ==> r * scale <= wanted < r * scale + scale
    ensures r - 1.0 < x <= r ==> r * scale - scale < wanted <= r * scale
  {
    Distribute(x, r, scale);
    Distribute(r, x, scale);
    if r <= x < r + 1.0 { PartOfUnit(x - r, scale, wanted - r * scale); }
    if r - 1.0 < x <= r { PartOfUnit(r - x, scale, r * scale - wanted); }
  }

  lemma PartOfUnit(part: real, scale: real, product: real)
    requires 0.0 <= part < 1.0 && scale > 0.0 && product == part * scale
    ensures 0.0 <= product < scale
  {
    SmallFactor(part, scale);
  }

  /** A 32-bit value is sent in two's complement, lowest byte first, and so is a 16-bit value. */
  lemma BytesMeaning(v: int)
    requires FitsInt32(v)
    ensures Value(Int32Bytes(v)) == if v >= 0 then v else v + 0x1_0000_0000
    ensures FitsInt16(v) ==> Value(Int16Bytes(v)) == if v >= 0 then v else v + 0x1_0000
  {
    hide U32;
    hide U16;
    hide Value;
    Wrapped(v, 0x1_0000_0000);
    Wrapped(v, 0x1_0000);
    LittleEndian(v % 0x1_0000_0000);
    LittleEndian(v % 0x1_0000);
  }

  lemma Wrapped(v: int, modulus: int)
    requires modulus > 0
    ensures 0 <= v < modulus ==> v % modulus == v
    ensures -modulus <= v < 0 ==> v % modulus == v + modulus
  {
    if 0 <= v < modulus { assert v / modulus == 0; }
    if -modulus <= v < 0 { assert (v + modulus) % modulus == v % modulus; }
  }
}
